/** The remote agent: it enrolls with the server (or reuses cached
    credentials), polls for jobs, runs the triage binary for each triage
    job with arguments built from the job, packs the newest case directory
    and uploads it. Network, process and filesystem results are inputs. */
module Agent {
  import opened Common

  const DefaultPollEveryNs := 10_000_000_000
  const DefaultTriageBin := "iron-sentinel"
  const DefaultOutputBase := "./agent-evidence"
  /** Thirty minutes, in nanoseconds. */
  const DefaultJobTimeoutNs := 1_800_000_000_000
  const TriageJob := "triage"

  datatype Config = Config(
    serverUrl: string,
    psk: string,
    insecureTls: bool,
    pollEveryNs: int,
    triageBin: string,
    outputBase: string)

  /** The server URL is required; the poll interval, the triage binary and
      the output directory have defaults. */
  function ApplyDefaults(cfg: Config): (r: Result<Config>)
    ensures cfg.serverUrl == "" ==> r == Err("server URL is required")
    ensures cfg.serverUrl != "" ==> (r.Ok?
      && r.value.pollEveryNs > 0 && r.value.triageBin != "" && r.value.outputBase != ""
      && r.value.serverUrl == cfg.serverUrl && r.value.psk == cfg.psk && r.value.insecureTls == cfg.insecureTls)
    ensures r.Ok? && cfg.pollEveryNs > 0 ==> r.value.pollEveryNs == cfg.pollEveryNs
    ensures r.Ok? && cfg.triageBin != "" ==> r.value.triageBin == cfg.triageBin
    ensures r.Ok? && cfg.outputBase != "" ==> r.value.outputBase == cfg.outputBase
  {
    if cfg.serverUrl == "" then Err("server URL is required")
    else
      Ok(cfg.(pollEveryNs := if cfg.pollEveryNs <= 0 then DefaultPollEveryNs else cfg.pollEveryNs,
              triageBin := if cfg.triageBin == "" then DefaultTriageBin else cfg.triageBin,
              outputBase := if cfg.outputBase == "" then DefaultOutputBase else cfg.outputBase))
  }

  // ---------------------------------------------------------------------
  // Triage arguments
  // ---------------------------------------------------------------------

  /** A job as the agent decodes it; `args` is None when the job carries no
      argument map at all. */
  datatype Job = Job(jobId: string, agentId: string, jobType: string, args: Option<map<string, string>>)

  /** The job a "no content" poll yields. */
  const NoJob := Job("", "", "", None)

  /** A missing key reads as the empty string. */
  function Arg(m: map<string, string>, key: string): string {
    if key in m then m[key] else ""
  }

  /** The spellings `strconv.ParseBool` reads as true; every other string
      (including those it rejects) is taken as false. */
  predicate ParsesTrue(v: string) {
    v in {"1", "t", "T", "TRUE", "true", "True"}
  }

  /** A flag and its value, only when the value is not empty. */
  function Flag(name: string, v: string): seq<string> {
    if v == "" then [] else [name, v]
  }

  /** Where an inline IOC list is written for the triage run. */
  function IocPath(base: string, jobId: string): string {
    JoinPath(base, "iocs_" + jobId + ".txt")
  }

  /** One "--snapshot-path" flag per path, in order. */
  function PathFlags(paths: seq<string>): seq<string> {
    if paths == [] then []
    else PathFlags(paths[..|paths| - 1]) + ["--snapshot-path", paths[|paths| - 1]]
  }

  /** A job argument, trimmed. */
  function Field(m: map<string, string>, key: string): string {
    TrimSpace(Arg(m, key))
  }

  /** The options a job's arguments ask for, each trimmed; `inlineIoc` is
      the raw inline IOC text when it is not blank and empty otherwise. */
  datatype JobOptions = JobOptions(
    iocFile: string,
    inlineIoc: string,
    snapshotPaths: seq<string>,
    snapshotMode: string,
    snapshotHash: string,
    maxFileBytes: string,
    maxTotalBytes: string,
    maxFiles: string,
    timeout: string)

  function Options(m: map<string, string>): JobOptions {
    var paths := Field(m, "snapshot_paths");
    JobOptions(
      Field(m, "ioc_file"),
      if Field(m, "ioc") == "" then "" else Arg(m, "ioc"),
      if paths == "" then [] else TrimmedNonBlank(Split(paths, ',')),
      Field(m, "snapshot_mode"),
      Field(m, "snapshot_hash"),
      Field(m, "snapshot_max_file_bytes"),
      Field(m, "snapshot_max_total_bytes"),
      Field(m, "snapshot_max_files"),
      Field(m, "timeout"))
  }

  /** A file the agent writes before running the triage binary. */
  datatype FileWrite = FileWrite(path: string, contents: string)

  /** The command line for the triage binary and the inline IOC list it
      refers to, if any. */
  datatype Plan = Plan(argv: seq<string>, iocFile: Option<FileWrite>)

  /** The IOC files: the one named by `ioc_file`, then the inline list's. */
  function IocFlags(base: string, jobId: string, o: JobOptions): seq<string> {
    Flag("--ioc-file", o.iocFile) + (if o.inlineIoc == "" then [] else ["--ioc-file", IocPath(base, jobId)])
  }

  function HashFlags(v: string): seq<string> {
    if v == "" then [] else ["--snapshot-hash=" + BoolString(ParsesTrue(v))]
  }

  /** The snapshot limits. */
  function LimitFlags(o: JobOptions): seq<string> {
    Flag("--snapshot-max-file-bytes", o.maxFileBytes)
    + Flag("--snapshot-max-total-bytes", o.maxTotalBytes)
    + Flag("--snapshot-max-files", o.maxFiles)
  }

  /** The command line for a set of options: the output base first, then
      each option that is set, in a fixed order. */
  function Argv(base: string, jobId: string, o: JobOptions): seq<string> {
    ["triage", "--output", base]
    + IocFlags(base, jobId, o)
    + PathFlags(o.snapshotPaths)
    + Flag("--snapshot-mode", o.snapshotMode)
    + HashFlags(o.snapshotHash)
    + LimitFlags(o)
    + Flag("--timeout", o.timeout)
  }

  /** The triage run for a job. An inline IOC list is written to a file
      first; `iocWriteError` is what writing it reports. */
  function TriageArgs(base: string, j: Job, iocWriteError: Option<string>): Result<Plan> {
    match j.args
    case None => Ok(Plan(["triage", "--output", base], None))
    case Some(m) =>
      var o := Options(m);
      if o.inlineIoc != "" && iocWriteError.Some? then Err(iocWriteError.value)
      else
        Ok(Plan(Argv(base, j.jobId, o),
                if o.inlineIoc == "" then None else Some(FileWrite(IocPath(base, j.jobId), o.inlineIoc))))
  }

  /** Builds the command line by appending, option by option. */
  method BuildTriageArgs(base: string, j: Job, iocWriteError: Option<string>) returns (r: Result<Plan>)
    ensures r == TriageArgs(base, j, iocWriteError)
  {
    var args := ["triage", "--output", base];
    if j.args.None? {
      return Ok(Plan(args, None));
    }
    var m := j.args.value;
    ghost var o := Options(m);
    args := AppendFlag(args, "--ioc-file", Field(m, "ioc_file"));
    var written: Option<FileWrite> := None;
    var raw := Arg(m, "ioc");
    if Field(m, "ioc") != "" {
      var p := IocPath(base, j.jobId);
      if iocWriteError.Some? {
        return Err(iocWriteError.value);
      }
      written := Some(FileWrite(p, raw));
      args := args + ["--ioc-file", p];
    }
    assert args == ["triage", "--output", base] + IocFlags(base, j.jobId, o);
    var v := Field(m, "snapshot_paths");
    if v != "" {
      var flags := SnapshotPathFlags(Split(v, ','));
      args := args + flags;
    }
    assert args == ["triage", "--output", base] + IocFlags(base, j.jobId, o) + PathFlags(o.snapshotPaths);
    args := AppendFlag(args, "--snapshot-mode", Field(m, "snapshot_mode"));
    v := Field(m, "snapshot_hash");
    if v != "" {
      args := args + ["--snapshot-hash=" + BoolString(ParsesTrue(v))];
    }
    assert args == ["triage", "--output", base] + IocFlags(base, j.jobId, o) + PathFlags(o.snapshotPaths)
      + Flag("--snapshot-mode", o.snapshotMode) + HashFlags(o.snapshotHash);
    ghost var before := args;
    args := AppendFlag(args, "--snapshot-max-file-bytes", Field(m, "snapshot_max_file_bytes"));
    args := AppendFlag(args, "--snapshot-max-total-bytes", Field(m, "snapshot_max_total_bytes"));
    args := AppendFlag(args, "--snapshot-max-files", Field(m, "snapshot_max_files"));
    LimitFlagsAppend(before, o);
    args := AppendFlag(args, "--timeout", Field(m, "timeout"));
    return Ok(Plan(args, written));
  }

  lemma LimitFlagsAppend(before: seq<string>, o: JobOptions)
    ensures before + Flag("--snapshot-max-file-bytes", o.maxFileBytes)
      + Flag("--snapshot-max-total-bytes", o.maxTotalBytes)
      + Flag("--snapshot-max-files", o.maxFiles) == before + LimitFlags(o)
  {
  }

  /** Appends a flag and its value when the value is not empty. */
  method AppendFlag(args: seq<string>, name: string, v: string) returns (r: seq<string>)
    ensures r == args + Flag(name, v)
  {
    r := args;
    if v != "" {
      r := r + [name, v];
    }
  }

  /** The flags for the pieces of a comma-separated path list, appended
      one piece at a time. */
  method SnapshotPathFlags(pieces: seq<string>) returns (flags: seq<string>)
    ensures flags == PathFlags(TrimmedNonBlank(pieces))
  {
    flags := [];
    var i := 0;
    while i < |pieces|
      invariant 0 <= i <= |pieces|
      invariant flags == PathFlags(TrimmedNonBlank(pieces[..i]))
    {
      var p := TrimSpace(pieces[i]);
      TrimmedNonBlankStep(pieces, i);
      if p != "" {
        PathFlagsStep(TrimmedNonBlank(pieces[..i]), p);
        flags := flags + ["--snapshot-path", p];
      } else {
        assert TrimmedNonBlank(pieces[..i + 1]) == TrimmedNonBlank(pieces[..i]);
      }
      i := i + 1;
    }
    assert pieces[..|pieces|] == pieces;
  }

  lemma PathFlagsStep(paths: seq<string>, p: string)
    ensures PathFlags(paths + [p]) == PathFlags(paths) + ["--snapshot-path", p]
  {
    assert (paths + [p])[..|paths|] == paths;
  }

  /** Every command line starts with the subcommand and the output base;
      a job without arguments gets nothing else. */
  lemma TriageArgsHead(base: string, j: Job, iocWriteError: Option<string>)
    ensures j.args.None? ==> TriageArgs(base, j, iocWriteError) == Ok(Plan(["triage", "--output", base], None))
    ensures TriageArgs(base, j, iocWriteError).Ok? ==>
      |TriageArgs(base, j, iocWriteError).value.argv| >= 3
      && TriageArgs(base, j, iocWriteError).value.argv[..3] == ["triage", "--output", base]
  {
    if j.args.Some? && TriageArgs(base, j, iocWriteError).Ok? {
      ArgvStartsWithIocFlags(base, j.jobId, Options(j.args.value));
    }
  }

  /** The snapshot path flags are the paths, each preceded by its flag, in
      order. */
  lemma {:induction false} PathFlagsSpec(paths: seq<string>)
    ensures |PathFlags(paths)| == 2 * |paths|
    ensures forall k :: 0 <= k < |paths| ==>
      PathFlags(paths)[2 * k] == "--snapshot-path" && PathFlags(paths)[2 * k + 1] == paths[k]
  {
    if paths != [] {
      var init := paths[..|paths| - 1];
      PathFlagsSpec(init);
      assert PathFlags(paths) == PathFlags(init) + ["--snapshot-path", paths[|paths| - 1]];
    }
  }

  /** A job's snapshot paths are its trimmed, non-blank comma-separated
      pieces: none is blank, none is left with a space to trim, and none
      holds a comma. */
  lemma SnapshotPathsClean(m: map<string, string>)
    ensures forall k :: 0 <= k < |Options(m).snapshotPaths| ==> Clean(Options(m).snapshotPaths[k], ',')
  {
    var paths := Field(m, "snapshot_paths");
    if paths != "" {
      SplitSpec(paths, ',');
      TrimmedNonBlankClean(Split(paths, ','), ',');
    }
  }

  /** An inline IOC list is written to `iocs_<job id>.txt` under the output
      base and passed as an IOC file right after the one named by
      `ioc_file`, if any; when it cannot be written there is no run. */
  lemma InlineIocFile(base: string, j: Job, iocWriteError: Option<string>)
    requires j.args.Some? && Field(j.args.value, "ioc") != ""
    ensures iocWriteError.Some? ==> TriageArgs(base, j, iocWriteError) == Err(iocWriteError.value)
    ensures iocWriteError.None? ==>
      var plan := TriageArgs(base, j, iocWriteError).value;
      var named := Field(j.args.value, "ioc_file");
      var at := if named == "" then 3 else 5;
      && plan.iocFile == Some(FileWrite(IocPath(base, j.jobId), Arg(j.args.value, "ioc")))
      && |plan.argv| >= at + 2
      && plan.argv[3..at] == Flag("--ioc-file", named)
      && plan.argv[at..at + 2] == ["--ioc-file", IocPath(base, j.jobId)]
  {
    var o := Options(j.args.value);
    assert o.inlineIoc == Arg(j.args.value, "ioc") != "";
    assert o.iocFile == Field(j.args.value, "ioc_file");
    if iocWriteError.None? {
      assert TriageArgs(base, j, iocWriteError)
        == Ok(Plan(Argv(base, j.jobId, o), Some(FileWrite(IocPath(base, j.jobId), o.inlineIoc))));
      InlineIocArgv(base, j.jobId, o);
    }
  }

  lemma InlineIocArgv(base: string, jobId: string, o: JobOptions)
    requires o.inlineIoc != ""
    ensures var argv := Argv(base, jobId, o);
      var at := if o.iocFile == "" then 3 else 5;
      && |argv| >= at + 2
      && argv[3..at] == Flag("--ioc-file", o.iocFile)
      && argv[at..at + 2] == ["--ioc-file", IocPath(base, jobId)]
  {
    ArgvStartsWithIocFlags(base, jobId, o);
    assert IocFlags(base, jobId, o) == Flag("--ioc-file", o.iocFile) + ["--ioc-file", IocPath(base, jobId)];
  }

  lemma ArgvStartsWithIocFlags(base: string, jobId: string, o: JobOptions)
    ensures var argv := Argv(base, jobId, o);
      var n := 3 + |IocFlags(base, jobId, o)|;
      |argv| >= n && argv[..3] == ["triage", "--output", base] && argv[3..n] == IocFlags(base, jobId, o)
  {
    var head := ["triage", "--output", base] + IocFlags(base, jobId, o);
    var tail := PathFlags(o.snapshotPaths) + Flag("--snapshot-mode", o.snapshotMode)
      + HashFlags(o.snapshotHash) + LimitFlags(o) + Flag("--timeout", o.timeout);
    assert Argv(base, jobId, o) == head + tail;
  }

  /** The hash option reaches the command line as one "=true" or "=false"
      flag following `strconv.ParseBool`. */
  lemma HashFlag(base: string, jobId: string, o: JobOptions)
    requires o.snapshotHash != ""
    ensures "--snapshot-hash=" + BoolString(ParsesTrue(o.snapshotHash)) in Argv(base, jobId, o)
  {
    var before := ["triage", "--output", base]
      + IocFlags(base, jobId, o)
      + PathFlags(o.snapshotPaths)
      + Flag("--snapshot-mode", o.snapshotMode);
    var after := LimitFlags(o) + Flag("--timeout", o.timeout);
    assert Argv(base, jobId, o) == before + HashFlags(o.snapshotHash) + after;
    assert Argv(base, jobId, o)[|before|] == "--snapshot-hash=" + BoolString(ParsesTrue(o.snapshotHash));
  }

  /** A job whose arguments are all blank gets the bare command line. */
  lemma BlankArgumentsBareCommand(base: string, j: Job, iocWriteError: Option<string>)
    requires j.args.Some?
    requires forall k :: k in j.args.value ==> TrimSpace(j.args.value[k]) == ""
    ensures TriageArgs(base, j, iocWriteError) == Ok(Plan(["triage", "--output", base], None))
  {
    var m := j.args.value;
    forall k | true
      ensures Field(m, k) == ""
    {
      if k !in m {
        assert Arg(m, k) == "";
      }
    }
    var none := JobOptions("", "", [], "", "", "", "", "", "");
    assert Options(m) == none;
    assert Argv(base, j.jobId, none) == ["triage", "--output", base];
  }

  // ---------------------------------------------------------------------
  // The newest case directory
  // ---------------------------------------------------------------------

  /** A directory listing entry; `infoOk` is false when its file
      information cannot be read, `modTime` is in nanoseconds. */
  datatype DirEntry = DirEntry(name: string, isDir: bool, infoOk: bool, modTime: int)

  predicate Candidate(e: DirEntry) {
    e.isDir && e.infoOk
  }

  /** Entry `k` is a candidate no other candidate is newer than, and no
      earlier candidate is as new. */
  predicate NewestAt(es: seq<DirEntry>, k: int) {
    && 0 <= k < |es| && Candidate(es[k])
    && (forall j :: 0 <= j < |es| && Candidate(es[j]) ==> es[j].modTime <= es[k].modTime)
    && (forall j :: 0 <= j < k && Candidate(es[j]) ==> es[j].modTime < es[k].modTime)
  }

  /** The index the scan ends on: a later candidate replaces the current
      choice only when strictly newer. */
  function Pick(es: seq<DirEntry>): (r: Option<nat>)
    ensures r.Some? ==> r.value < |es|
  {
    if es == [] then None
    else
      var p := Pick(es[..|es| - 1]);
      var e := es[|es| - 1];
      if Candidate(e) && (p.None? || e.modTime > es[p.value].modTime) then Some(|es| - 1)
      else p
  }

  lemma {:induction false} PickIsNewest(es: seq<DirEntry>)
    ensures Pick(es).None? <==> (forall j :: 0 <= j < |es| ==> !Candidate(es[j]))
    ensures Pick(es).Some? ==> NewestAt(es, Pick(es).value)
  {
    if es != [] {
      var init := es[..|es| - 1];
      PickIsNewest(init);
      assert forall j :: 0 <= j < |init| ==> init[j] == es[j];
    }
  }

  /** The newest directory is unique: any index meeting `NewestAt` is the
      one the scan picks. */
  lemma NewestUnique(es: seq<DirEntry>, k: int)
    requires NewestAt(es, k)
    ensures Pick(es) == Some(k)
  {
    PickIsNewest(es);
    var p := Pick(es).value;
    assert !(p < k) && !(k < p);
  }

  function NewestDirOf(base: string, listing: Result<seq<DirEntry>>): Result<string> {
    match listing
    case Err(m) => Err(m)
    case Ok(es) =>
      match Pick(es)
      case None => Err("no case directory found")
      case Some(k) => Ok(JoinPath(base, es[k].name))
  }

  /** The scan for the most recently modified directory; a listing that
      cannot be read is an error. Listing names are never empty. */
  method NewestDir(base: string, listing: Result<seq<DirEntry>>) returns (r: Result<string>)
    requires listing.Ok? ==> forall k :: 0 <= k < |listing.value| ==> listing.value[k].name != ""
    ensures r == NewestDirOf(base, listing)
  {
    if listing.Err? {
      return Err(listing.msg);
    }
    var es := listing.value;
    var newest := "";
    var newestTime := 0;
    var i := 0;
    while i < |es|
      invariant 0 <= i <= |es|
      invariant Pick(es[..i]).None? ==> newest == ""
      invariant Pick(es[..i]).Some? ==> (Pick(es[..i]).value < i
        && newest == JoinPath(base, es[Pick(es[..i]).value].name) && newest != ""
        && newestTime == es[Pick(es[..i]).value].modTime)
    {
      assert es[..i + 1][..i] == es[..i];
      var e := es[i];
      if Candidate(e) && (newest == "" || e.modTime > newestTime) {
        newest := JoinPath(base, e.name);
        newestTime := e.modTime;
      }
      i := i + 1;
    }
    assert es[..|es|] == es;
    if newest == "" {
      return Err("no case directory found");
    }
    return Ok(newest);
  }

  // ---------------------------------------------------------------------
  // The case archive
  // ---------------------------------------------------------------------

  /** The member name of a path below the case directory `root`, given its
      path relative to the root ("." for the root itself). */
  function EntryName(root: string, rel: string): string {
    if rel == "." then Base(root) else JoinPath(Base(root), rel)
  }

  /** Every member lies under the root's own name, and distinct relative
      paths give distinct member names. */
  lemma EntryNamesDistinct(root: string, r1: string, r2: string)
    requires r1 != "" && r2 != ""
    ensures r1 != "." ==> HasPrefix(EntryName(root, r1), Base(root) + "/")
    ensures EntryName(root, r1) == EntryName(root, r2) ==> r1 == r2
  {
    var b := Base(root);
    if r1 != "." && r2 != "." && EntryName(root, r1) == EntryName(root, r2) {
      assert (b + "/" + r1)[|b| + 1..] == r1;
      assert (b + "/" + r2)[|b| + 1..] == r2;
    }
  }

  /** The archive of a job's case directory. */
  function ArchivePath(outDir: string, jobId: string): string {
    JoinPath(outDir, jobId + ".tar.gz")
  }

  /** The upload's file name is `<job id>.tar.gz`. */
  lemma UploadFileName(outDir: string, jobId: string)
    requires '/' !in jobId
    ensures Base(ArchivePath(outDir, jobId)) == jobId + ".tar.gz"
  {
    var name := jobId + ".tar.gz";
    assert '/' !in name by {
      assert '/' !in ".tar.gz";
    }
    BaseOfPlainName(name);
    if outDir != "" {
      BaseAfterSlash(outDir, name);
    }
  }

  lemma BaseAfterSlash(dir: string, name: string)
    requires name != "" && '/' !in name
    ensures Base(dir + "/" + name) == name
  {
    var p := dir + "/" + name;
    assert TrimRight(p, IsSlash) == p by {
      assert p[|p| - 1] == name[|name| - 1];
    }
    AfterLastSlashOfJoin(dir, name);
  }

  lemma {:induction false} AfterLastSlashOfJoin(dir: string, name: string)
    requires '/' !in name
    ensures AfterLastSlash(dir + "/" + name) == name
  {
    if name != [] {
      var init := name[..|name| - 1];
      AfterLastSlashOfJoin(dir, init);
      assert (dir + "/" + name)[..|dir + "/" + name| - 1] == dir + "/" + init;
    } else {
      assert (dir + "/" + name) == dir + "/";
    }
  }

  // ---------------------------------------------------------------------
  // One job
  // ---------------------------------------------------------------------

  /** The job's time limit: thirty minutes unless its "timeout" argument,
      trimmed, is set and parses (`parsed` is what the duration parser
      returns for it). */
  function JobTimeout(j: Job, parsed: Option<int>): (r: int)
    ensures j.args.None? || TrimSpace(Arg(j.args.value, "timeout")) == "" || parsed.None? ==> r == DefaultJobTimeoutNs
    ensures j.args.Some? && TrimSpace(Arg(j.args.value, "timeout")) != "" && parsed.Some? ==> r == parsed.value
  {
    if j.args.Some? && TrimSpace(Arg(j.args.value, "timeout")) != "" && parsed.Some? then parsed.value
    else DefaultJobTimeoutNs
  }

  /** What the outside world does during one job: the parsed timeout, the
      inline IOC write, the triage run, the output directory listing, the
      archive write, and the upload's status code (or its failure). */
  datatype JobEnv = JobEnv(
    parsedTimeout: Option<int>,
    iocWriteError: Option<string>,
    runError: Option<string>,
    listing: Result<seq<DirEntry>>,
    tarError: Option<string>,
    upload: Result<int>)

  datatype JobOutcome =
    | Ignored
    | JobFailed(msg: string)
    | JobUnauthorized
    | Delivered(plan: Plan, timeoutNs: int, caseDir: string, archive: string)

  /** Handles one job: only triage jobs are run; each step that fails ends
      the job with its error, and a 401 from the upload is reported as
      unauthorized. */
  function HandleJob(cfg: Config, j: Job, env: JobEnv): JobOutcome {
    if j.jobType != TriageJob then Ignored
    else
      var outDir := cfg.outputBase;
      match TriageArgs(outDir, j, env.iocWriteError)
      case Err(m) => JobFailed(m)
      case Ok(plan) =>
        if env.runError.Some? then JobFailed(env.runError.value)
        else
          match NewestDirOf(outDir, env.listing)
          case Err(m) => JobFailed(m)
          case Ok(caseDir) =>
            if env.tarError.Some? then JobFailed(env.tarError.value)
            else
              match env.upload
              case Err(m) => JobFailed(m)
              case Ok(status) =>
                if status == 401 then JobUnauthorized
                else if status != 200 then JobFailed("upload failed")
                else Delivered(plan, JobTimeout(j, env.parsedTimeout), caseDir, ArchivePath(outDir, j.jobId))
  }

  /** Only triage jobs do anything, and a delivered job ran the command
      line built from it under its time limit, packing the newest case
      directory into `<job id>.tar.gz`. */
  lemma HandleJobGate(cfg: Config, j: Job, env: JobEnv)
    ensures j.jobType != TriageJob ==> HandleJob(cfg, j, env) == Ignored
    ensures HandleJob(cfg, j, env).Delivered? ==>
      && Ok(HandleJob(cfg, j, env).plan) == TriageArgs(cfg.outputBase, j, env.iocWriteError)
      && HandleJob(cfg, j, env).timeoutNs == JobTimeout(j, env.parsedTimeout)
      && Ok(HandleJob(cfg, j, env).caseDir) == NewestDirOf(cfg.outputBase, env.listing)
      && HandleJob(cfg, j, env).archive == ArchivePath(cfg.outputBase, j.jobId)
      && env.upload == Ok(200)
    ensures HandleJob(cfg, j, env) == JobUnauthorized ==> env.upload == Ok(401)
  {
  }

  // ---------------------------------------------------------------------
  // Credentials and the poll loop
  // ---------------------------------------------------------------------

  datatype AuthState = AuthState(agentId: string, token: string)

  /** The decoded credential cache file for the server. */
  datatype AuthCache = AuthCache(serverUrl: string, agentId: string, token: string)

  /** Cached credentials count only when both fields are filled in;
      `cache` is None when the file cannot be read or decoded. */
  function LoadAuth(cache: Option<AuthCache>): Option<AuthState> {
    match cache
    case None => None
    case Some(c) => if c.agentId == "" || c.token == "" then None else Some(AuthState(c.agentId, c.token))
  }

  lemma LoadAuthValidity(cache: Option<AuthCache>)
    ensures LoadAuth(cache).Some? ==> LoadAuth(cache).value.agentId != "" && LoadAuth(cache).value.token != ""
    ensures cache.Some? && cache.value.agentId != "" && cache.value.token != "" ==>
      LoadAuth(cache) == Some(AuthState(cache.value.agentId, cache.value.token))
  {
  }

  /** A poll's HTTP response: its status and its body, None when the
      body does not decode as a job. */
  datatype Response = Response(status: int, body: Option<Job>)

  datatype Poll = PollUnauthorized | PollFailed(msg: string) | PollJob(job: Job)

  /** Reading the answer to a poll: 401 means the credentials were
      refused, 204 means there is no job, any other status but 200 is an
      error. */
  function NextJob(response: Result<Response>): Poll {
    match response
    case Err(m) => PollFailed(m)
    case Ok(resp) =>
      if resp.status == 401 then PollUnauthorized
      else if resp.status == 204 then PollJob(NoJob)
      else if resp.status != 200 then PollFailed("jobs next failed")
      else if resp.body.None? then PollFailed("invalid job")
      else PollJob(resp.body.value)
  }

  /** What the outside world does in one turn of the loop: the poll's
      response, what the job meets if one arrives, and the outcome of
      enrolling again should that be needed (None when it fails). */
  datatype Round = Round(poll: Result<Response>, job: JobEnv, enrollment: Option<AuthState>)

  function Reenroll(auth: AuthState, enrollment: Option<AuthState>): AuthState {
    if enrollment.Some? then enrollment.value else auth
  }

  /** One turn of the loop: the credentials in use afterwards, and the
      outcome of the job handled in it, if any. */
  function Turn(cfg: Config, auth: AuthState, rd: Round): (AuthState, Option<JobOutcome>) {
    match NextJob(rd.poll)
    case PollUnauthorized => (Reenroll(auth, rd.enrollment), None)
    case PollFailed(_) => (auth, None)
    case PollJob(j) =>
      if j.jobId == "" then (auth, None)
      else
        var o := HandleJob(cfg, j, rd.job);
        (if o == JobUnauthorized then Reenroll(auth, rd.enrollment) else auth, Some(o))
  }

  /** The credentials after a number of turns. */
  function AfterTurns(cfg: Config, auth: AuthState, rounds: seq<Round>): AuthState {
    if rounds == [] then auth
    else Turn(cfg, AfterTurns(cfg, auth, rounds[..|rounds| - 1]), rounds[|rounds| - 1]).0
  }

  /** Credentials change only when they were refused (by the poll or by
      the upload) and enrolling again succeeded, and then to exactly what
      enrolling returned; conversely, a refusal followed by a successful
      enrollment always switches to the new credentials. */
  lemma TurnChangesAuthOnlyOnRefusal(cfg: Config, auth: AuthState, rd: Round)
    ensures Turn(cfg, auth, rd).0 != auth ==>
      && rd.enrollment == Some(Turn(cfg, auth, rd).0)
      && (NextJob(rd.poll) == PollUnauthorized
          || (NextJob(rd.poll).PollJob? && Turn(cfg, auth, rd).1 == Some(JobUnauthorized)))
    ensures rd.enrollment.None? ==> Turn(cfg, auth, rd).0 == auth
    ensures NextJob(rd.poll) == PollUnauthorized && rd.enrollment.Some? ==>
      Turn(cfg, auth, rd) == (rd.enrollment.value, None)
    ensures (NextJob(rd.poll).PollJob? && NextJob(rd.poll).job.jobId != ""
             && HandleJob(cfg, NextJob(rd.poll).job, rd.job) == JobUnauthorized && rd.enrollment.Some?) ==>
      Turn(cfg, auth, rd) == (rd.enrollment.value, Some(JobUnauthorized))
  {
  }

  /** A poll that yields no job (no content, or a job without an id)
      handles nothing and keeps the credentials. */
  lemma NoJobNoWork(cfg: Config, auth: AuthState, rd: Round)
    requires NextJob(rd.poll).PollJob? && NextJob(rd.poll).job.jobId == ""
    ensures Turn(cfg, auth, rd) == (auth, None)
  {
  }

  /** The answer 204 is a poll without a job. */
  lemma NoContentIsNoJob(rd: Round)
    requires rd.poll.Ok? && rd.poll.value.status == 204
    ensures NextJob(rd.poll).PollJob? && NextJob(rd.poll).job.jobId == ""
  {
  }

  /** After any number of turns the credentials are the starting ones or
      the result of one of the enrollments. */
  lemma {:induction false} AuthFromEnrollment(cfg: Config, auth: AuthState, rounds: seq<Round>)
    ensures AfterTurns(cfg, auth, rounds) == auth
      || exists k :: 0 <= k < |rounds| && rounds[k].enrollment == Some(AfterTurns(cfg, auth, rounds))
  {
    if rounds != [] {
      var init := rounds[..|rounds| - 1];
      AuthFromEnrollment(cfg, auth, init);
      var before := AfterTurns(cfg, auth, init);
      TurnChangesAuthOnlyOnRefusal(cfg, before, rounds[|rounds| - 1]);
      if AfterTurns(cfg, auth, rounds) != before {
        assert rounds[|rounds| - 1].enrollment == Some(AfterTurns(cfg, auth, rounds));
      } else if before != auth {
        var k :| 0 <= k < |init| && init[k].enrollment == Some(before);
        assert rounds[k] == init[k];
      }
    }
  }

  /** Start-up and a number of turns of the loop: the configuration is
      checked, cached credentials are used when valid, otherwise the agent
      enrolls (`firstEnrollment`) and an enrollment failure ends it. */
  function RunFor(cfg: Config, cache: Option<AuthCache>, firstEnrollment: Result<AuthState>,
                  rounds: seq<Round>): Result<AuthState> {
    match ApplyDefaults(cfg)
    case Err(m) => Err(m)
    case Ok(c) =>
      match LoadAuth(cache)
      case Some(a) => Ok(AfterTurns(c, a, rounds))
      case None =>
        match firstEnrollment
        case Err(m) => Err(m)
        case Ok(a) => Ok(AfterTurns(c, a, rounds))
  }

  /** The agent's main loop over the given turns, reassigning the
      credentials in place. */
  method Run(cfg: Config, cache: Option<AuthCache>, firstEnrollment: Result<AuthState>,
             rounds: seq<Round>) returns (r: Result<AuthState>)
    ensures r == RunFor(cfg, cache, firstEnrollment, rounds)
  {
    var conf := ApplyDefaults(cfg);
    if conf.Err? {
      return Err(conf.msg);
    }
    var c := conf.value;
    var cached := LoadAuth(cache);
    var auth: AuthState;
    if cached.Some? {
      auth := cached.value;
    } else {
      if firstEnrollment.Err? {
        return Err(firstEnrollment.msg);
      }
      auth := firstEnrollment.value;
    }
    ghost var start := auth;
    var i := 0;
    while i < |rounds|
      invariant 0 <= i <= |rounds|
      invariant auth == AfterTurns(c, start, rounds[..i])
    {
      var rd := rounds[i];
      assert rounds[..i + 1][..i] == rounds[..i];
      var poll := NextJob(rd.poll);
      match poll {
        case PollUnauthorized =>
          if rd.enrollment.Some? {
            auth := rd.enrollment.value;
          }
        case PollFailed(_) =>
        case PollJob(j) =>
          if j.jobId != "" {
            var outcome := HandleJob(c, j, rd.job);
            if outcome == JobUnauthorized && rd.enrollment.Some? {
              auth := rd.enrollment.value;
            }
          }
      }
      i := i + 1;
    }
    assert rounds[..|rounds|] == rounds;
    return Ok(auth);
  }
}
