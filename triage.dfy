/** One triage run: the collectors in a fixed order, each failure recorded
    as an error artifact instead of aborting, then the IOC scan and the
    timeline over what was collected, and finally the case manifest. */
module Triage {
  import opened Common
  import opened Collectors
  import FsSnapshot
  import Ioc
  import Timeline

  /** Where the IOC scan report is written, relative to the case directory. */
  const IocScanRel := "analysis/ioc_scan.json"

  datatype Options = Options(
    caseId: string,
    output: string,
    iocFile: string,
    snapshot: FsSnapshot.Options,
    startedAt: Option<string>)

  /** Everything outside the run's own logic: whether the case directory
      can be created, before which collector (if any) the context is found
      done and what it then reports, what each collector other than the
      snapshot returns, the snapshot's own environment, the time stamp, the
      IOC list and the artifact files the scan reads, the digests of the two
      analysis files, the timeline writer's environment, and whether the
      manifest can be written. */
  datatype Env = Env(
    mkdirError: Option<string>,
    cancelledBefore: Option<nat>,
    contextError: string,
    collect: string -> Result<seq<Artifact>>,
    snapshot: FsSnapshot.Env,
    now: string,
    iocList: Result<Ioc.LineFile>,
    files: map<string, string>,
    iocDigest: Result<Digest>,
    timeline: Timeline.Env,
    timelineDigest: Result<Digest>,
    manifestError: Option<string>)

  datatype Manifest = Manifest(
    caseId: string,
    createdAt: string,
    artifacts: seq<Artifact>,
    metadata: map<string, string>)

  /** What the caller gets back: the collectors' artifacts only. */
  datatype RunResult = RunResult(caseId: string, outputDir: string, artifacts: seq<Artifact>)

  /** The result, with the manifest written and the timeline events that
      reached the timeline file. */
  datatype Report = Report(result: RunResult, manifest: Manifest, timeline: seq<Timeline.Event>)

  // ---------------------------------------------------------------------
  // The collectors
  // ---------------------------------------------------------------------

  /** The collectors of a run, in the order they run; the filesystem
      snapshot only when snapshot paths are given. */
  function CollectorNames(o: Options): (r: seq<string>)
    ensures FsSnapshot.CollectorName in r <==> o.snapshot.paths != []
    ensures |r| == if o.snapshot.paths != [] then 7 else 6
  {
    ["host_info", "os_release"]
    + (if o.snapshot.paths != [] then [FsSnapshot.CollectorName] else [])
    + ["proc_summary", "network_summary", "user_sessions", "persistence"]
  }

  /** What one collector returns. */
  function CollectorOutcome(o: Options, env: Env, name: string): Result<seq<Artifact>> {
    if name == FsSnapshot.CollectorName then FsSnapshot.Snapshot(o.snapshot, env.snapshot)
    else env.collect(name)
  }

  /** The record of a failed collector. */
  function ErrorArtifact(name: string, msg: string, now: string): Artifact {
    Artifact("errors/" + name + ".txt", name, now, 0, "", map["error" := msg])
  }

  /** What one collector adds to the case: its artifacts, or one error
      record when it fails. */
  function Contribution(o: Options, env: Env, name: string): seq<Artifact> {
    match CollectorOutcome(o, env, name)
    case Ok(arts) => arts
    case Err(msg) => [ErrorArtifact(name, msg, env.now)]
  }

  /** The artifacts gathered by running `names` in order. */
  function Gathered(o: Options, env: Env, names: seq<string>): seq<Artifact> {
    if names == [] then []
    else Gathered(o, env, names[..|names| - 1]) + Contribution(o, env, names[|names| - 1])
  }

  /** Whether the context is found done before one of the first `n`
      collectors runs. */
  predicate Cancelled(env: Env, n: nat) {
    env.cancelledBefore.Some? && env.cancelledBefore.value < n
  }

  // ---------------------------------------------------------------------
  // The analyzers
  // ---------------------------------------------------------------------

  /** A file the run itself writes, with its digest. */
  function Produced(rel: string, collector: string, d: Digest, now: string): Artifact {
    Artifact(rel, collector, now, d.size, d.sha256, map[])
  }

  /** The IOC scan's additions to the manifest (its report, when that can
      be digested) and the manifest metadata it sets; nothing when no IOC
      list is given or the scan fails. */
  function IocStep(o: Options, env: Env, outDir: string, arts: seq<Artifact>): (seq<Artifact>, map<string, string>) {
    if o.iocFile == "" then ([], map[])
    else
      match Ioc.Scan(outDir, arts, o.iocFile, env.iocList, env.files, env.now)
      case Err(_) => ([], map[])
      case Ok(res) =>
        ((if env.iocDigest.Ok? then [Produced(IocScanRel, "ioc_scan", env.iocDigest.value, env.now)] else []),
         map["ioc_matches" := Decimal(|res.matches|)])
  }

  /** The timeline's addition to the manifest: the timeline file, when it
      was written and can be digested. */
  function TimelineStep(env: Env): seq<Artifact> {
    match Timeline.Outcome(env.timeline)
    case Err(_) => []
    case Ok(rel) => if env.timelineDigest.Ok? then [Produced(rel, "timeline", env.timelineDigest.value, env.now)] else []
  }

  /** The events the timeline writer gets to write for `arts`. */
  function TimelineWritten(o: Options, env: Env, arts: seq<Artifact>): seq<Timeline.Event> {
    if env.timeline.mkdirError.Some? || env.timeline.createError.Some? then []
    else Timeline.Events(arts, Timeline.Options(o.caseId, o.startedAt), env.timeline)
  }

  /** The whole run. */
  function RunSpec(o: Options, env: Env): Result<Report> {
    var outDir := JoinPath(o.output, o.caseId);
    var names := CollectorNames(o);
    if env.mkdirError.Some? then Err(env.mkdirError.value)
    else if Cancelled(env, |names|) then Err(env.contextError)
    else
      var arts := Gathered(o, env, names);
      var (iocArts, meta) := IocStep(o, env, outDir, arts);
      var forTimeline := arts + iocArts;
      if env.manifestError.Some? then Err(env.manifestError.value)
      else
        Ok(Report(RunResult(o.caseId, outDir, arts),
                  Manifest(o.caseId, env.now, forTimeline + TimelineStep(env), meta),
                  TimelineWritten(o, env, forTimeline)))
  }

  /** Runs the collectors one after the other, recording each failure,
      until the context is found done. */
  method GatherAll(o: Options, env: Env, cols: seq<string>) returns (r: Result<seq<Artifact>>)
    ensures r == if Cancelled(env, |cols|) then Err(env.contextError) else Ok(Gathered(o, env, cols))
  {
    var artifacts: seq<Artifact> := [];
    var i := 0;
    while i < |cols|
      invariant 0 <= i <= |cols|
      invariant !Cancelled(env, i)
      invariant artifacts == Gathered(o, env, cols[..i])
    {
      if env.cancelledBefore.Some? && env.cancelledBefore.value <= i {
        return Err(env.contextError);
      }
      var name := cols[i];
      var outcome: Result<seq<Artifact>>;
      if name == FsSnapshot.CollectorName {
        outcome := FsSnapshot.Collect(o.snapshot, env.snapshot);
      } else {
        outcome := env.collect(name);
      }
      assert cols[..i + 1][..i] == cols[..i];
      if outcome.Err? {
        artifacts := artifacts + [Artifact("errors/" + name + ".txt", name, env.now, 0, "", map["error" := outcome.msg])];
      } else {
        artifacts := artifacts + outcome.value;
      }
      i := i + 1;
    }
    assert cols[..|cols|] == cols;
    return Ok(artifacts);
  }

  /** Scans the collected artifacts when an IOC list is given. */
  method ScanPhase(o: Options, env: Env, outDir: string, arts: seq<Artifact>)
    returns (added: seq<Artifact>, meta: map<string, string>)
    ensures (added, meta) == IocStep(o, env, outDir, arts)
  {
    added, meta := [], map[];
    if o.iocFile != "" {
      var scan := Ioc.ScanArtifacts(outDir, arts, o.iocFile, env.iocList, env.files, env.now);
      if scan.Ok? {
        if env.iocDigest.Ok? {
          var d := env.iocDigest.value;
          added := [Artifact(IocScanRel, "ioc_scan", env.now, d.size, d.sha256, map[])];
        }
        meta := map["ioc_matches" := Decimal(|scan.value.matches|)];
      }
    }
  }

  /** Runs a triage. */
  method Run(o: Options, env: Env) returns (r: Result<Report>)
    ensures r == RunSpec(o, env)
  {
    var outDir := JoinPath(o.output, o.caseId);
    if env.mkdirError.Some? {
      return Err(env.mkdirError.value);
    }
    var cols := ["host_info", "os_release"];
    if |o.snapshot.paths| > 0 {
      cols := cols + [FsSnapshot.CollectorName];
    }
    cols := cols + ["proc_summary", "network_summary", "user_sessions", "persistence"];
    assert cols == CollectorNames(o);

    var gathered := GatherAll(o, env, cols);
    if gathered.Err? {
      return Err(gathered.msg);
    }
    var artifacts := gathered.value;

    var manifest := Manifest(o.caseId, env.now, artifacts, map[]);
    var added, meta := ScanPhase(o, env, outDir, artifacts);
    manifest := manifest.(artifacts := manifest.artifacts + added, metadata := meta);

    var written := TimelineWritten(o, env, manifest.artifacts);
    var rel := Timeline.Outcome(env.timeline);
    if rel.Ok? && env.timelineDigest.Ok? {
      var d := env.timelineDigest.value;
      manifest := manifest.(artifacts := manifest.artifacts + [Artifact(rel.value, "timeline", env.now, d.size, d.sha256, map[])]);
    }

    assert manifest == Manifest(o.caseId, env.now, artifacts + added + TimelineStep(env), meta);
    if env.manifestError.Some? {
      return Err(env.manifestError.value);
    }
    return Ok(Report(RunResult(o.caseId, outDir, artifacts), manifest, written));
  }

  // ---------------------------------------------------------------------
  // Properties
  // ---------------------------------------------------------------------

  /** Running two lists of collectors one after the other gathers the
      first list's artifacts, then the second's. */
  lemma {:induction false} GatheredAppend(o: Options, env: Env, xs: seq<string>, ys: seq<string>)
    ensures Gathered(o, env, xs + ys) == Gathered(o, env, xs) + Gathered(o, env, ys)
    decreases |ys|
  {
    if ys == [] {
      assert xs + ys == xs;
    } else {
      var init := ys[..|ys| - 1];
      var last := ys[|ys| - 1];
      assert (xs + ys)[..|xs + ys| - 1] == xs + init;
      assert (xs + ys)[|xs + ys| - 1] == last;
      GatheredAppend(o, env, xs, init);
    }
  }

  /** One collector on its own gathers exactly its contribution. */
  lemma GatheredOne(o: Options, env: Env, name: string)
    ensures Gathered(o, env, [name]) == Contribution(o, env, name)
  {
    assert [name][..0] == [];
  }

  /** Three lists of collectors run one after the other. */
  lemma GatheredAppend3(o: Options, env: Env, xs: seq<string>, ys: seq<string>, zs: seq<string>)
    ensures Gathered(o, env, xs + ys + zs) == Gathered(o, env, xs) + Gathered(o, env, ys) + Gathered(o, env, zs)
  {
    GatheredAppend(o, env, xs + ys, zs);
    GatheredAppend(o, env, xs, ys);
  }

  /** Two collectors run one after the other. */
  lemma GatheredTwo(o: Options, env: Env, a: string, b: string)
    ensures Gathered(o, env, [a, b]) == Contribution(o, env, a) + Contribution(o, env, b)
  {
    assert [a, b] == [a] + [b];
    GatheredAppend(o, env, [a], [b]);
    GatheredOne(o, env, a);
    GatheredOne(o, env, b);
  }

  /** Four collectors run one after the other. */
  lemma GatheredFour(o: Options, env: Env, a: string, b: string, c: string, d: string)
    ensures Gathered(o, env, [a, b, c, d]) ==
      Contribution(o, env, a) + Contribution(o, env, b) + Contribution(o, env, c) + Contribution(o, env, d)
  {
    assert [a, b, c, d] == [a, b] + [c, d];
    GatheredAppend(o, env, [a, b], [c, d]);
    GatheredTwo(o, env, a, b);
    GatheredTwo(o, env, c, d);
  }

  /** The collected artifacts are laid out collector by collector, in the
      fixed order, the snapshot's between the release file's and the
      process summary's. */
  lemma CollectedInOrder(o: Options, env: Env)
    ensures Gathered(o, env, CollectorNames(o)) ==
      (Contribution(o, env, "host_info") + Contribution(o, env, "os_release"))
      + (if o.snapshot.paths != [] then Contribution(o, env, FsSnapshot.CollectorName) else [])
      + (Contribution(o, env, "proc_summary") + Contribution(o, env, "network_summary")
         + Contribution(o, env, "user_sessions") + Contribution(o, env, "persistence"))
  {
    var head := ["host_info", "os_release"];
    var mid: seq<string> := if o.snapshot.paths != [] then [FsSnapshot.CollectorName] else [];
    var tail := ["proc_summary", "network_summary", "user_sessions", "persistence"];
    assert CollectorNames(o) == head + mid + tail;
    GatheredAppend3(o, env, head, mid, tail);
    GatheredTwo(o, env, "host_info", "os_release");
    GatheredFour(o, env, "proc_summary", "network_summary", "user_sessions", "persistence");
    if o.snapshot.paths != [] {
      GatheredOne(o, env, FsSnapshot.CollectorName);
    }
  }

  /** An artifact is gathered exactly when some collector of the list
      contributes it. */
  lemma {:induction false} GatheredMembers(o: Options, env: Env, names: seq<string>, a: Artifact)
    ensures a in Gathered(o, env, names) <==> exists k :: 0 <= k < |names| && a in Contribution(o, env, names[k])
  {
    if names != [] {
      var init := names[..|names| - 1];
      GatheredMembers(o, env, init, a);
      assert forall k :: 0 <= k < |init| ==> init[k] == names[k];
      if a in Contribution(o, env, names[|names| - 1]) {
        assert a in Gathered(o, env, names);
      }
    }
  }

  /** A failing collector does not stop the run: it leaves exactly one
      error record, named after it, holding its error message; a
      succeeding one leaves its own artifacts. */
  lemma FailureRecorded(o: Options, env: Env, name: string)
    ensures CollectorOutcome(o, env, name).Err? ==>
      && Contribution(o, env, name) == [ErrorArtifact(name, CollectorOutcome(o, env, name).msg, env.now)]
      && ErrorArtifact(name, CollectorOutcome(o, env, name).msg, env.now).relativePath == "errors/" + name + ".txt"
      && ErrorArtifact(name, CollectorOutcome(o, env, name).msg, env.now).metadata["error"] == CollectorOutcome(o, env, name).msg
    ensures CollectorOutcome(o, env, name).Ok? ==> Contribution(o, env, name) == CollectorOutcome(o, env, name).value
  {
  }

  /** Every collector of a successful run is accounted for: each failure
      of a collector of the run appears as its error record among the
      returned artifacts, and each returned artifact comes from one of the
      run's collectors. */
  lemma CollectorsAccountedFor(o: Options, env: Env, rep: Report, a: Artifact)
    requires RunSpec(o, env) == Ok(rep)
    ensures forall k :: 0 <= k < |CollectorNames(o)| && CollectorOutcome(o, env, CollectorNames(o)[k]).Err? ==>
      ErrorArtifact(CollectorNames(o)[k], CollectorOutcome(o, env, CollectorNames(o)[k]).msg, env.now) in rep.result.artifacts
    ensures a in rep.result.artifacts ==>
      exists k :: 0 <= k < |CollectorNames(o)| && a in Contribution(o, env, CollectorNames(o)[k])
  {
    var names := CollectorNames(o);
    GatheredMembers(o, env, names, a);
    forall k | 0 <= k < |names| && CollectorOutcome(o, env, names[k]).Err?
      ensures ErrorArtifact(names[k], CollectorOutcome(o, env, names[k]).msg, env.now) in rep.result.artifacts
    {
      var e := ErrorArtifact(names[k], CollectorOutcome(o, env, names[k]).msg, env.now);
      assert e in Contribution(o, env, names[k]);
      GatheredMembers(o, env, names, e);
    }
  }

  /** The run fails only on the case directory, the context or the
      manifest; every other error is absorbed. */
  lemma RunErrors(o: Options, env: Env)
    ensures env.mkdirError.Some? ==> RunSpec(o, env) == Err(env.mkdirError.value)
    ensures env.mkdirError.None? && Cancelled(env, |CollectorNames(o)|) ==> RunSpec(o, env) == Err(env.contextError)
    ensures env.mkdirError.None? && !Cancelled(env, |CollectorNames(o)|) && env.manifestError.Some? ==>
      RunSpec(o, env) == Err(env.manifestError.value)
    ensures RunSpec(o, env).Ok? <==>
      env.mkdirError.None? && !Cancelled(env, |CollectorNames(o)|) && env.manifestError.None?
  {
  }

  /** A successful run reports the case, its directory below the output
      base, and the collectors' artifacts; the manifest lists those first
      and then the additions of the two analyzers (see `ManifestLayout`). */
  lemma RunShape(o: Options, env: Env, rep: Report)
    requires RunSpec(o, env) == Ok(rep)
    ensures rep.result.caseId == o.caseId && rep.manifest.caseId == o.caseId
    ensures rep.result.outputDir == JoinPath(o.output, o.caseId)
    ensures rep.result.artifacts == Gathered(o, env, CollectorNames(o))
    ensures rep.manifest.createdAt == env.now
    ensures rep.manifest.artifacts ==
      rep.result.artifacts + IocStep(o, env, JoinPath(o.output, o.caseId), rep.result.artifacts).0 + TimelineStep(env)
  {
  }

  /** Listed after the collected artifacts come at most the IOC report and
      the timeline, in that order. */
  lemma ManifestLayout(o: Options, env: Env, arts: seq<Artifact>)
    ensures var all := arts + IocStep(o, env, JoinPath(o.output, o.caseId), arts).0 + TimelineStep(env);
      && |arts| <= |all| <= |arts| + 2
      && all[..|arts|] == arts
      && (forall j :: |arts| <= j < |all| ==> all[j].collector in ["ioc_scan", "timeline"])
      && (forall j :: |arts| <= j < |all| - 1 ==> all[j].collector == "ioc_scan")
  {
    var added := IocStep(o, env, JoinPath(o.output, o.caseId), arts).0;
    var last := TimelineStep(env);
    assert |added| <= 1 && forall a :: a in added ==> a.collector == "ioc_scan";
    assert |last| <= 1 && forall a :: a in last ==> a.collector == "timeline";
    var all := arts + added + last;
    assert all[..|arts|] == arts;
    assert forall j :: |arts| <= j < |all| ==> all[j] in added || all[j] in last;
    assert forall j :: |arts| <= j < |all| - 1 ==> all[j] in added;
  }

  /** The IOC scan runs only when an IOC list is given; the manifest then
      carries the number of matches, in a form that reads back, when the
      scan succeeds, and the report's entry when it can also be
      digested. Otherwise the manifest has no metadata and no report. */
  lemma RunIoc(o: Options, env: Env, rep: Report)
    requires RunSpec(o, env) == Ok(rep)
    ensures var scan := Ioc.Scan(JoinPath(o.output, o.caseId), rep.result.artifacts, o.iocFile, env.iocList, env.files, env.now);
      if o.iocFile != "" && scan.Ok? then
        && rep.manifest.metadata.Keys == {"ioc_matches"}
        && ParseDecimal(rep.manifest.metadata["ioc_matches"]) == Some(|scan.value.matches|)
        && (Produced(IocScanRel, "ioc_scan", env.iocDigest.value, env.now) in rep.manifest.artifacts <== env.iocDigest.Ok?)
      else
        && rep.manifest.metadata == map[]
        && forall a :: a in rep.manifest.artifacts ==> a.collector != "ioc_scan" || a in rep.result.artifacts
  {
    var outDir := JoinPath(o.output, o.caseId);
    var arts := rep.result.artifacts;
    var scan := Ioc.Scan(outDir, arts, o.iocFile, env.iocList, env.files, env.now);
    if o.iocFile != "" && scan.Ok? {
      DecimalRoundTrip(|scan.value.matches|);
    } else {
      forall a | a in rep.manifest.artifacts
        ensures a.collector != "ioc_scan" || a in arts
      {
        assert rep.manifest.artifacts == arts + TimelineStep(env);
      }
    }
  }

  /** The timeline records every artifact the manifest lists before it,
      the IOC report included, in order and with the case's start event
      first; the timeline file itself is listed last when it was written
      and digested. */
  lemma RunTimeline(o: Options, env: Env, rep: Report)
    requires RunSpec(o, env) == Ok(rep)
    requires env.timeline.mkdirError.None? && env.timeline.createError.None?
    ensures var before := rep.manifest.artifacts[..|rep.manifest.artifacts| - |TimelineStep(env)|];
      && |rep.timeline| == |before| + 2
      && rep.timeline[0].kind == "triage_started"
      && (forall i :: 0 <= i < |before| ==>
            rep.timeline[i + 1].artifact == before[i].relativePath && rep.timeline[i + 1].collector == before[i].collector)
    ensures Timeline.Outcome(env.timeline).Ok? && env.timelineDigest.Ok? ==>
      rep.manifest.artifacts[|rep.manifest.artifacts| - 1] ==
        Produced(Timeline.TimelineRel, "timeline", env.timelineDigest.value, env.now)
  {
    var outDir := JoinPath(o.output, o.caseId);
    var arts := rep.result.artifacts;
    var forTimeline := arts + IocStep(o, env, outDir, arts).0;
    assert rep.manifest.artifacts == forTimeline + TimelineStep(env);
    assert rep.manifest.artifacts[..|rep.manifest.artifacts| - |TimelineStep(env)|] == forTimeline;
    Timeline.EventsSpec(forTimeline, Timeline.Options(o.caseId, o.startedAt), env.timeline);
  }
}
