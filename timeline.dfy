/** The timeline analyzer: one JSON-lines event stream per case, a start
    event, one event per collected artifact in order, and a finish event. */
module Timeline {
  import opened Common
  import opened Collectors

  /** Where the stream is written, relative to the case directory. */
  const TimelineRel := "analysis/timeline.jsonl"

  datatype Event = Event(
    time: string,
    kind: string,
    artifact: string,
    collector: string,
    sha256: string,
    sizeBytes: int,
    metadata: map<string, string>,
    collectedAt: string)

  /** The case and its start time, None for the zero time. */
  datatype Options = Options(caseId: string, startedAt: Option<string>)

  /** The clock readings and the outcome of each filesystem call. */
  datatype Env = Env(
    startNow: string,
    finishNow: string,
    mkdirError: Option<string>,
    createError: Option<string>,
    flushError: Option<string>)

  function StartEvent(o: Options, env: Env): Event {
    Event(if o.startedAt.Some? then o.startedAt.value else env.startNow,
          "triage_started", "", "", "", 0, map["case_id" := o.caseId], "")
  }

  function ArtifactEvent(a: Artifact): Event {
    Event(a.collectedAt, "artifact_collected", a.relativePath, a.collector, a.sha256, a.sizeBytes,
          a.metadata, a.collectedAt)
  }

  function FinishEvent(o: Options, count: int, env: Env): Event {
    Event(env.finishNow, "triage_finished", "", "", "", 0,
          map["case_id" := o.caseId, "artifacts" := Decimal(count)], "")
  }

  function ArtifactEvents(arts: seq<Artifact>): seq<Event> {
    if arts == [] then []
    else ArtifactEvents(arts[..|arts| - 1]) + [ArtifactEvent(arts[|arts| - 1])]
  }

  /** The whole stream. */
  function Events(arts: seq<Artifact>, o: Options, env: Env): seq<Event> {
    [StartEvent(o, env)] + ArtifactEvents(arts) + [FinishEvent(o, |arts|, env)]
  }

  /** What the call returns: the stream's relative path, or the first
      filesystem error. Encoding errors are ignored. */
  function Outcome(env: Env): Result<string> {
    if env.mkdirError.Some? then Err(env.mkdirError.value)
    else if env.createError.Some? then Err(env.createError.value)
    else if env.flushError.Some? then Err(env.flushError.value)
    else Ok(TimelineRel)
  }

  /** Writes the stream event by event; `written` is what reaches the
      buffered writer (nothing when the file cannot be created). Slice
      lengths always fit a Go `int`. `outputDir` only locates the file:
      whether it can be made, created and flushed is given by `env`, so
      the model does not use it, and the result is the path relative to
      it. */
  method WriteJSONL(outputDir: string, arts: seq<Artifact>, o: Options, env: Env)
    returns (r: Result<string>, written: seq<Event>)
    requires |arts| <= MaxInt64 as int
    ensures r == Outcome(env)
    ensures written == if env.mkdirError.Some? || env.createError.Some? then [] else Events(arts, o, env)
  {
    written := [];
    if env.mkdirError.Some? {
      return Err(env.mkdirError.value), written;
    }
    if env.createError.Some? {
      return Err(env.createError.value), written;
    }
    var started := if o.startedAt.Some? then o.startedAt.value else env.startNow;
    written := written + [Event(started, "triage_started", "", "", "", 0, map["case_id" := o.caseId], "")];
    var i := 0;
    while i < |arts|
      invariant 0 <= i <= |arts|
      invariant written == [StartEvent(o, env)] + ArtifactEvents(arts[..i])
    {
      var a := arts[i];
      assert arts[..i + 1][..i] == arts[..i];
      written := written + [Event(a.collectedAt, "artifact_collected", a.relativePath, a.collector, a.sha256,
                                  a.sizeBytes, a.metadata, a.collectedAt)];
      i := i + 1;
    }
    assert arts[..|arts|] == arts;
    var count := FormatDecimal(|arts| as int64);
    written := written + [Event(env.finishNow, "triage_finished", "", "", "", 0,
                                map["case_id" := o.caseId, "artifacts" := count], "")];
    if env.flushError.Some? {
      return Err(env.flushError.value), written;
    }
    return Ok(TimelineRel), written;
  }

  /** The middle events are the artifacts', one each, in order. */
  lemma {:induction false} ArtifactEventsSpec(arts: seq<Artifact>)
    ensures |ArtifactEvents(arts)| == |arts|
    ensures forall i :: 0 <= i < |arts| ==> ArtifactEvents(arts)[i] == ArtifactEvent(arts[i])
  {
    if arts != [] {
      var init := arts[..|arts| - 1];
      ArtifactEventsSpec(init);
      assert ArtifactEvents(arts) == ArtifactEvents(init) + [ArtifactEvent(arts[|arts| - 1])];
    }
  }

  /** The stream has two events more than there are artifacts: it opens
      with the start event for the case (at the given start time, or the
      clock's when that is zero), records each artifact as collected, in
      order, with its own collection time, and closes with the finish
      event (see `FinishEventSpec`). */
  lemma EventsSpec(arts: seq<Artifact>, o: Options, env: Env)
    ensures var ev := Events(arts, o, env);
      && |ev| == |arts| + 2
      && ev[0].kind == "triage_started" && ev[0].metadata == map["case_id" := o.caseId]
      && ev[0].time == (if o.startedAt.Some? then o.startedAt.value else env.startNow)
      && (forall i :: 0 <= i < |arts| ==>
            && ev[i + 1].kind == "artifact_collected"
            && ev[i + 1].artifact == arts[i].relativePath && ev[i + 1].collector == arts[i].collector
            && ev[i + 1].sha256 == arts[i].sha256 && ev[i + 1].sizeBytes == arts[i].sizeBytes
            && ev[i + 1].metadata == arts[i].metadata
            && ev[i + 1].time == arts[i].collectedAt && ev[i + 1].collectedAt == arts[i].collectedAt)
      && ev[|arts| + 1] == FinishEvent(o, |arts|, env)
  {
    ArtifactEventsSpec(arts);
    var ev := Events(arts, o, env);
    var mid := ArtifactEvents(arts);
    assert forall i :: 0 <= i < |arts| ==> ev[i + 1] == mid[i];
  }

  /** The finish event names the case and holds the artifact count, in a
      decimal form that reads back as that count. */
  lemma FinishEventSpec(o: Options, count: nat, env: Env)
    ensures var e := FinishEvent(o, count, env);
      && e.kind == "triage_finished" && e.time == env.finishNow
      && e.metadata.Keys == {"case_id", "artifacts"}
      && e.metadata["case_id"] == o.caseId
      && ParseDecimal(e.metadata["artifacts"]) == Some(count)
  {
    DecimalRoundTrip(count);
  }
}
