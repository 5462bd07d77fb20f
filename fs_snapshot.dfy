/** The filesystem snapshot collector: walks the configured roots, skips
    the kernel pseudo filesystems, and records every entry it meets in a
    metadata listing. In copy mode it also packs regular files into one
    archive, within a per-file and a total byte budget, opening the archive
    only when the first file is about to be copied. */
module FsSnapshot {
  import opened Common
  import opened Collectors

  const CollectorName := "fs_snapshot"
  const DefaultMaxFiles: int64 := 20000
  const DefaultMaxFileBytes: int64 := 25 * 1024 * 1024
  const DefaultMaxTotalBytes: int64 := 250 * 1024 * 1024
  const MetadataRel := "snapshot/metadata.jsonl"
  const ArchiveRel := "snapshot/files.tar.gz"
  const TooLarge := "file_too_large"
  const TotalLimit := "total_limit"

  /** The roots the walk never enters. */
  const ExcludedRoots: seq<string> := ["/proc", "/sys", "/dev", "/run"]

  // ---------------------------------------------------------------------
  // Exclusion
  // ---------------------------------------------------------------------

  /** `p` is `root` itself or lies below it. */
  predicate Below(p: string, root: string) {
    p == root || HasPrefix(p, root + "/")
  }

  predicate Excluded(p: string) {
    exists k :: 0 <= k < |ExcludedRoots| && Below(p, ExcludedRoots[k])
  }

  /** The exclusion test: one pass over the excluded roots. */
  method IsExcluded(p: string) returns (ex: bool)
    ensures ex <==> Excluded(p)
  {
    var k := 0;
    while k < |ExcludedRoots|
      invariant 0 <= k <= |ExcludedRoots|
      invariant forall j :: 0 <= j < k ==> !Below(p, ExcludedRoots[j])
    {
      var e := ExcludedRoots[k];
      if p == e || HasPrefix(p, e + "/") {
        return true;
      }
      k := k + 1;
    }
    return false;
  }

  /** The roots themselves and everything below them are excluded. */
  lemma ExclusionExamples()
    ensures Excluded("/proc") && Excluded("/proc/1/maps") && Excluded("/sys/kernel")
    ensures Excluded("/dev") && Excluded("/run/user")
  {
    assert Below("/proc", ExcludedRoots[0]);
    assert Below("/proc/1/maps", ExcludedRoots[0]);
    assert Below("/sys/kernel", ExcludedRoots[1]);
    assert Below("/dev", ExcludedRoots[2]);
    assert Below("/run/user", ExcludedRoots[3]);
  }

  /** A path that differs from a root before the root ends is not below
      it. */
  lemma DiffersEarly(p: string, root: string, j: nat)
    requires j < |root| && j < |p| && p[j] != root[j]
    ensures !Below(p, root)
  {
    assert (root + "/")[j] == root[j];
  }

  /** A path that continues a root with anything but a separator is not
      below it. */
  lemma ContinuesWithoutSeparator(p: string, root: string)
    requires |p| > |root| && p[|root|] != '/'
    ensures !Below(p, root)
  {
    assert (root + "/")[|root|] == '/';
  }

  /** A sibling that merely shares a prefix with an excluded root is not
      excluded. */
  lemma SharedPrefixNotExcluded()
    ensures !Excluded("/processes")
  {
    var p := "/processes";
    assert p[..5] == ExcludedRoots[0];
    ContinuesWithoutSeparator(p, ExcludedRoots[0]);
    DiffersEarly(p, ExcludedRoots[1], 1);
    DiffersEarly(p, ExcludedRoots[2], 1);
    DiffersEarly(p, ExcludedRoots[3], 1);
  }

  /** Anything below an excluded path is excluded too, so pruning an
      excluded directory loses nothing the walk would have kept. */
  lemma ExcludedBelow(p: string, q: string)
    requires Excluded(p) && HasPrefix(q, p + "/")
    ensures Excluded(q)
  {
    var k :| 0 <= k < |ExcludedRoots| && Below(p, ExcludedRoots[k]);
    var e := ExcludedRoots[k];
    assert q[..|e + "/"|] == e + "/" by {
      if p != e {
        assert q[..|p + "/"|] == p + "/";
        assert (p + "/")[..|e + "/"|] == e + "/";
      }
    }
  }

  // ---------------------------------------------------------------------
  // Options
  // ---------------------------------------------------------------------

  datatype Options = Options(
    paths: seq<string>,
    mode: string,
    hashFiles: bool,
    maxFileBytes: int64,
    maxTotalBytes: int64,
    maxFiles: int64)

  datatype Mode = MetadataOnly | CopyFiles

  function ModeName(m: Mode): string {
    match m
    case MetadataOnly => "metadata"
    case CopyFiles => "copy"
  }

  /** The options after defaulting, plus what creating the archive file
      would report (None when it can be created). */
  datatype Config = Config(
    mode: Mode,
    hashFiles: bool,
    maxFiles: int64,
    maxFileBytes: int64,
    maxTotalBytes: int64,
    archiveError: Option<string>)

  /** Checks the paths and the mode, and puts the defaults in place of
      limits that are zero or negative. */
  function Normalize(o: Options, archiveError: Option<string>): (r: Result<Config>)
    ensures o.paths == [] ==> r == Err("no snapshot paths configured")
    ensures o.paths != [] && o.mode !in {"", "metadata", "copy"} ==> r == Err("invalid snapshot mode")
    ensures r.Ok? <==> o.paths != [] && o.mode in {"", "metadata", "copy"}
    ensures r.Ok? ==> ModeName(r.value.mode) == (if o.mode == "" then "metadata" else o.mode)
    ensures r.Ok? ==> r.value.maxFiles > 0 && r.value.maxFileBytes > 0 && r.value.maxTotalBytes > 0
    ensures r.Ok? && o.maxFiles > 0 ==> r.value.maxFiles == o.maxFiles
    ensures r.Ok? && o.maxFileBytes > 0 ==> r.value.maxFileBytes == o.maxFileBytes
    ensures r.Ok? && o.maxTotalBytes > 0 ==> r.value.maxTotalBytes == o.maxTotalBytes
    ensures r.Ok? ==> r.value.hashFiles == o.hashFiles && r.value.archiveError == archiveError
  {
    if o.paths == [] then Err("no snapshot paths configured")
    else
      var m := if o.mode == "" then "metadata" else o.mode;
      if m != "metadata" && m != "copy" then Err("invalid snapshot mode")
      else
        Ok(Config(
          if m == "metadata" then MetadataOnly else CopyFiles,
          o.hashFiles,
          if o.maxFiles <= 0 then DefaultMaxFiles else o.maxFiles,
          if o.maxFileBytes <= 0 then DefaultMaxFileBytes else o.maxFileBytes,
          if o.maxTotalBytes <= 0 then DefaultMaxTotalBytes else o.maxTotalBytes,
          archiveError))
  }

  /** Limits left at zero take the documented defaults. */
  lemma DefaultLimits(o: Options, archiveError: Option<string>)
    requires o.paths != [] && o.mode == "" && o.maxFiles == 0 && o.maxFileBytes == 0 && o.maxTotalBytes == 0
    ensures Normalize(o, archiveError).Ok?
    ensures Normalize(o, archiveError).value.mode == MetadataOnly
    ensures Normalize(o, archiveError).value.maxFiles == 20000
    ensures Normalize(o, archiveError).value.maxFileBytes == 26214400
    ensures Normalize(o, archiveError).value.maxTotalBytes == 262144000
  {
  }

  // ---------------------------------------------------------------------
  // The filesystem as the walk sees it
  // ---------------------------------------------------------------------

  datatype Kind = File | Dir | Symlink | Other

  function TypeName(k: Kind): string {
    match k
    case File => "file"
    case Dir => "dir"
    case Symlink => "symlink"
    case Other => "other"
  }

  /** What happens when a regular file is copied into the archive: it
      cannot be opened, its header cannot be written, its contents fail
      part way, or it is copied whole. */
  datatype CopyOutcome = OpenFails | HeaderFails | CopyFails | CopyOk

  /** One directory entry, with the outcome of every I/O step the walk
      takes on it: whether its file information can be read, its digest
      when it can be hashed, how copying it would go, and (for a
      directory) the entries listing it returns, in listing order. */
  datatype Node = Node(
    path: string,
    kind: Kind,
    size: nat,
    mode: string,
    modTime: string,
    infoOk: bool,
    digest: Option<string>,
    copy: CopyOutcome,
    children: seq<Node>)

  /** One line of the metadata listing. */
  datatype Entry = Entry(
    path: string,
    kind: Kind,
    size: nat,
    mode: string,
    modTime: string,
    sha256: string,
    copied: bool,
    copyReason: string)

  /** One member of the archive; `complete` is false when its contents
      failed part way. */
  datatype TarEntry = TarEntry(name: string, size: nat, complete: bool)

  /** The archive member name of a path: the path without its leading
      separator. */
  function TarName(p: string): (r: string)
    ensures HasPrefix(p, "/") ==> "/" + r == p
    ensures !HasPrefix(p, "/") ==> r == p
  {
    if |p| > 0 && p[0] == '/' then p[1..] else p
  }

  /** Distinct absolute paths give distinct member names. */
  lemma TarNameInjective(p: string, q: string)
    requires HasPrefix(p, "/") && HasPrefix(q, "/") && TarName(p) == TarName(q)
    ensures p == q
  {
  }

  // ---------------------------------------------------------------------
  // The walk as a state transition
  // ---------------------------------------------------------------------

  /** What the per-entry callback tells the walk: go on, do not enter this
      directory, stop the whole snapshot (the total budget is spent), or
      abort with an error. */
  datatype Action = Continue | SkipDir | StopWalk | Fail(msg: string)

  /** The variables the callback updates. */
  datatype WalkState = WalkState(
    filesSeen: nat,
    totalCopied: nat,
    entries: seq<Entry>,
    archive: seq<TarEntry>,
    archiveOpen: bool)

  const Start := WalkState(0, 0, [], [], false)

  function Record(s: WalkState, e: Entry): WalkState {
    s.(entries := s.entries + [e])
  }

  /** The callback on one entry the walk reached without error: excluded
      entries and entries past the file budget are passed over (a
      directory is not entered), every other entry is counted. */
  function Step(c: Config, s: WalkState, n: Node): (r: (Action, WalkState)) {
    if Excluded(n.path) || s.filesSeen >= c.maxFiles as int then
      (if n.kind == Dir then SkipDir else Continue, s)
    else Examine(c, s.(filesSeen := s.filesSeen + 1), n)
  }

  /** A counted entry: without file information it is dropped; an entry
      that is not a regular file is listed as it is. */
  function Examine(c: Config, s: WalkState, n: Node): (r: (Action, WalkState)) {
    if !n.infoOk then (Continue, s)
    else
      var e := Entry(n.path, n.kind, n.size, n.mode, n.modTime, "", false, "");
      if n.kind != File then (Continue, Record(s, e))
      else
        var hashed := c.hashFiles && n.size <= c.maxFileBytes as int && n.digest.Some?;
        FileStep(c, s, n, e.(sha256 := if hashed then n.digest.value else ""))
  }

  /** A regular file, hashed when asked and not over the per-file limit:
      in copy mode it is checked against both byte budgets, and the
      archive is opened before the first copy. */
  function FileStep(c: Config, s: WalkState, n: Node, e: Entry): (r: (Action, WalkState)) {
    if c.mode != CopyFiles then (Continue, Record(s, e))
    else if n.size > c.maxFileBytes as int then (Continue, Record(s, e.(copyReason := TooLarge)))
    else if s.totalCopied + n.size > c.maxTotalBytes as int then (StopWalk, Record(s, e.(copyReason := TotalLimit)))
    else if !s.archiveOpen && c.archiveError.Some? then (Fail(c.archiveError.value), s)
    else CopyInto(s.(archiveOpen := true), n, e)
  }

  /** Copying a file into the open archive; only a whole copy marks the
      entry copied and counts its bytes. */
  function CopyInto(s: WalkState, n: Node, e: Entry): (r: (Action, WalkState)) {
    match n.copy
    case OpenFails => (Continue, Record(s, e))
    case HeaderFails => (Continue, Record(s, e))
    case CopyFails =>
      (Continue, Record(s.(archive := s.archive + [TarEntry(TarName(n.path), n.size, false)]), e))
    case CopyOk =>
      var s := s.(archive := s.archive + [TarEntry(TarName(n.path), n.size, true)],
                 totalCopied := s.totalCopied + n.size);
      (Continue, Record(s, e.(copied := true)))
  }

  /** What a walk (or one subtree of it) ends with: normally, stopped by
      the total budget, or with an error. */
  datatype Outcome = Finished | Stopped | Failed(msg: string)

  /** One entry and, when it is a directory the callback lets the walk
      enter, its listing in order. A directory the callback skips is not
      entered; the callback skips directories only, so the rule that a
      skip on a plain file ends its directory never applies here. */
  function WalkNode(c: Config, s: WalkState, n: Node): (r: (Outcome, WalkState))
    decreases n, 1
  {
    var (act, s1) := Step(c, s, n);
    match act
    case SkipDir => (Finished, s1)
    case StopWalk => (Stopped, s1)
    case Fail(m) => (Failed(m), s1)
    case Continue => if n.kind == Dir then WalkChildren(c, s1, n.children, n, 0) else (Finished, s1)
  }

  /** The entries of a directory listing from position `i` on; the first
      one that stops or fails ends the listing. */
  function WalkChildren(c: Config, s: WalkState, ns: seq<Node>, parent: Node, i: nat): (r: (Outcome, WalkState))
    requires ns == parent.children
    decreases parent, 0, |ns| - i
  {
    if i >= |ns| then (Finished, s)
    else
      var (o, s1) := WalkNode(c, s, ns[i]);
      if o != Finished then (o, s1) else WalkChildren(c, s1, ns, parent, i + 1)
  }

  /** One configured root: a root that cannot be looked up reaches the
      callback as an error, which ignores it. */
  function WalkRoot(c: Config, s: WalkState, root: Option<Node>): (r: (Outcome, WalkState)) {
    match root
    case None => (Finished, s)
    case Some(n) => WalkNode(c, s, n)
  }

  /** The context is found cancelled at the check before root `i`. */
  predicate CancelledAt(cancelAt: Option<nat>, i: nat) {
    cancelAt.Some? && cancelAt.value <= i
  }

  /** How the loop over the roots ends: all roots done (or the total budget
      stopped it), the context cancelled, or a walk failed. */
  datatype RootsOutcome = RootsDone | Cancelled | RootsFailed(msg: string)

  /** The loop over the configured roots from position `i` on. */
  function WalkRoots(c: Config, s: WalkState, roots: seq<string>, fs: map<string, Node>,
                     cancelAt: Option<nat>, i: nat): (r: (RootsOutcome, WalkState))
    decreases |roots| - i
  {
    if i >= |roots| then (RootsDone, s)
    else if CancelledAt(cancelAt, i) then (Cancelled, s)
    else if roots[i] == "" || Excluded(roots[i]) then WalkRoots(c, s, roots, fs, cancelAt, i + 1)
    else
      var (o, s1) := WalkRoot(c, s, if roots[i] in fs then Some(fs[roots[i]]) else None);
      match o
      case Finished => WalkRoots(c, s1, roots, fs, cancelAt, i + 1)
      case Stopped => (RootsDone, s1)
      case Failed(m) => (RootsFailed(m), s1)
  }

  // ---------------------------------------------------------------------
  // Budgets and what the listing and the archive may hold
  // ---------------------------------------------------------------------

  /** The bytes of the entries marked copied. */
  function CopiedBytes(es: seq<Entry>): nat {
    if es == [] then 0
    else CopiedBytes(es[..|es| - 1]) + (if es[|es| - 1].copied then es[|es| - 1].size else 0)
  }

  /** The member names of the entries marked copied, in order. */
  function CopiedNames(es: seq<Entry>): seq<string> {
    if es == [] then []
    else CopiedNames(es[..|es| - 1]) + (if es[|es| - 1].copied then [TarName(es[|es| - 1].path)] else [])
  }

  /** The names of the archive members whose contents are whole. */
  function CompleteNames(ts: seq<TarEntry>): seq<string> {
    if ts == [] then []
    else CompleteNames(ts[..|ts| - 1]) + (if ts[|ts| - 1].complete then [ts[|ts| - 1].name] else [])
  }

  /** What any one listed entry can look like under a configuration. */
  predicate EntryAllowed(c: Config, e: Entry) {
    && !Excluded(e.path)
    && (e.kind != File ==> e.sha256 == "" && !e.copied && e.copyReason == "")
    && (e.sha256 != "" ==> c.hashFiles && e.size <= c.maxFileBytes as int)
    && (e.copied ==> c.mode == CopyFiles && e.size <= c.maxFileBytes as int && e.copyReason == "")
    && (e.copyReason == TooLarge ==> c.mode == CopyFiles && e.size > c.maxFileBytes as int)
    && (e.copyReason == TotalLimit ==> c.mode == CopyFiles && e.size <= c.maxFileBytes as int)
    && (e.copyReason == "" || e.copyReason == TooLarge || e.copyReason == TotalLimit)
  }

  /** The invariant the callback keeps: the file budget is never exceeded,
      the copied bytes are those of the entries marked copied and within
      the total budget, every entry is allowed, the archive exists only in
      copy mode, and its whole members are exactly the copied files. */
  predicate Within(c: Config, s: WalkState) {
    && s.filesSeen <= c.maxFiles as int
    && |s.entries| <= s.filesSeen
    && s.totalCopied == CopiedBytes(s.entries) <= c.maxTotalBytes as int
    && (forall k :: 0 <= k < |s.entries| ==> EntryAllowed(c, s.entries[k]))
    && (s.archiveOpen ==> c.mode == CopyFiles)
    && (s.archive != [] ==> s.archiveOpen)
    && CompleteNames(s.archive) == CopiedNames(s.entries)
  }

  /** `t` continues `s`: nothing recorded is lost and no counter goes
      down. */
  predicate Extends(s: WalkState, t: WalkState) {
    && s.filesSeen <= t.filesSeen
    && s.totalCopied <= t.totalCopied
    && s.entries <= t.entries
    && s.archive <= t.archive
    && (s.archiveOpen ==> t.archiveOpen)
  }

  lemma StartWithin(c: Config)
    requires c.maxFiles > 0 && c.maxTotalBytes > 0
    ensures Within(c, Start)
  {
  }

  lemma ExtendsTransitive(s: WalkState, t: WalkState, u: WalkState)
    requires Extends(s, t) && Extends(t, u)
    ensures Extends(s, u)
  {
  }

  lemma RecordSums(es: seq<Entry>, e: Entry)
    ensures CopiedBytes(es + [e]) == CopiedBytes(es) + (if e.copied then e.size else 0)
    ensures CopiedNames(es + [e]) == CopiedNames(es) + (if e.copied then [TarName(e.path)] else [])
  {
    assert (es + [e])[..|es|] == es;
  }

  lemma PushNames(ts: seq<TarEntry>, t: TarEntry)
    ensures CompleteNames(ts + [t]) == CompleteNames(ts) + (if t.complete then [t.name] else [])
  {
    assert (ts + [t])[..|ts|] == ts;
  }

  /** Counting one more entry keeps the invariant while the file budget
      allows it. */
  lemma CountWithin(c: Config, s: WalkState)
    requires Within(c, s) && s.filesSeen < c.maxFiles as int
    ensures Within(c, s.(filesSeen := s.filesSeen + 1))
  {
  }

  /** Recording an allowed entry that was not copied keeps the invariant. */
  lemma RecordWithin(c: Config, s: WalkState, e: Entry)
    requires Within(c, s) && |s.entries| < s.filesSeen
    requires !e.copied && EntryAllowed(c, e)
    ensures Within(c, Record(s, e))
  {
    RecordSums(s.entries, e);
    var t := Record(s, e);
    assert forall k :: 0 <= k < |t.entries| ==> EntryAllowed(c, t.entries[k]) by {
      forall k | 0 <= k < |t.entries| ensures EntryAllowed(c, t.entries[k]) {
        if k < |s.entries| {
          assert t.entries[k] == s.entries[k];
        }
      }
    }
  }

  /** Adding a member whose contents failed part way keeps the invariant. */
  lemma PartialWithin(c: Config, s: WalkState, t: TarEntry)
    requires Within(c, s) && s.archiveOpen && !t.complete
    ensures Within(c, s.(archive := s.archive + [t]))
  {
    PushNames(s.archive, t);
  }

  /** Recording a copied file, its archive member and its bytes together
      keeps the invariant while the total budget allows it. */
  lemma CopiedWithin(c: Config, s: WalkState, e: Entry)
    requires Within(c, s) && |s.entries| < s.filesSeen && s.archiveOpen
    requires e.copied && EntryAllowed(c, e)
    requires s.totalCopied + e.size <= c.maxTotalBytes as int
    ensures Within(c, Record(s.(archive := s.archive + [TarEntry(TarName(e.path), e.size, true)],
                                totalCopied := s.totalCopied + e.size), e))
  {
    RecordSums(s.entries, e);
    PushNames(s.archive, TarEntry(TarName(e.path), e.size, true));
    var t := Record(s, e);
    assert forall k :: 0 <= k < |t.entries| ==> EntryAllowed(c, t.entries[k]) by {
      forall k | 0 <= k < |t.entries| ensures EntryAllowed(c, t.entries[k]) {
        if k < |s.entries| {
          assert t.entries[k] == s.entries[k];
        }
      }
    }
  }

  /** The callback keeps the invariant and only ever extends the state. */
  lemma StepWithin(c: Config, s: WalkState, n: Node)
    requires Within(c, s)
    ensures Within(c, Step(c, s, n).1) && Extends(s, Step(c, s, n).1)
  {
    if !Excluded(n.path) && s.filesSeen < c.maxFiles as int {
      var s1 := s.(filesSeen := s.filesSeen + 1);
      assert Step(c, s, n) == Examine(c, s1, n);
      CountWithin(c, s);
      ExamineWithin(c, s1, n);
    } else {
      assert Step(c, s, n).1 == s;
    }
  }

  lemma ExamineWithin(c: Config, s: WalkState, n: Node)
    requires Within(c, s) && |s.entries| < s.filesSeen && !Excluded(n.path)
    ensures Within(c, Examine(c, s, n).1) && Extends(s, Examine(c, s, n).1)
  {
    if n.infoOk {
      var e := Entry(n.path, n.kind, n.size, n.mode, n.modTime, "", false, "");
      if n.kind != File {
        RecordWithin(c, s, e);
      } else {
        var hashed := c.hashFiles && n.size <= c.maxFileBytes as int && n.digest.Some?;
        FileStepWithin(c, s, n, e.(sha256 := if hashed then n.digest.value else ""));
      }
    }
  }

  lemma FileStepWithin(c: Config, s: WalkState, n: Node, e: Entry)
    requires Within(c, s) && |s.entries| < s.filesSeen && !Excluded(n.path)
    requires e.path == n.path && e.kind == File && e.size == n.size && !e.copied && e.copyReason == ""
    requires e.sha256 != "" ==> c.hashFiles && n.size <= c.maxFileBytes as int
    ensures Within(c, FileStep(c, s, n, e).1) && Extends(s, FileStep(c, s, n, e).1)
  {
    if c.mode != CopyFiles {
      RecordWithin(c, s, e);
    } else if n.size > c.maxFileBytes as int {
      RecordWithin(c, s, e.(copyReason := TooLarge));
    } else if s.totalCopied + n.size > c.maxTotalBytes as int {
      RecordWithin(c, s, e.(copyReason := TotalLimit));
    } else if s.archiveOpen || c.archiveError.None? {
      CopyIntoWithin(c, s.(archiveOpen := true), n, e);
    }
  }

  lemma CopyIntoWithin(c: Config, s: WalkState, n: Node, e: Entry)
    requires Within(c, s) && |s.entries| < s.filesSeen && !Excluded(n.path) && s.archiveOpen
    requires c.mode == CopyFiles && n.size <= c.maxFileBytes as int
    requires s.totalCopied + n.size <= c.maxTotalBytes as int
    requires e.path == n.path && e.kind == File && e.size == n.size && !e.copied && e.copyReason == ""
    requires e.sha256 != "" ==> c.hashFiles
    ensures Within(c, CopyInto(s, n, e).1) && Extends(s, CopyInto(s, n, e).1)
  {
    match n.copy
    case OpenFails =>
      RecordWithin(c, s, e);
    case HeaderFails =>
      RecordWithin(c, s, e);
    case CopyFails =>
      var t := TarEntry(TarName(n.path), n.size, false);
      PartialWithin(c, s, t);
      RecordWithin(c, s.(archive := s.archive + [t]), e);
    case CopyOk =>
      CopiedWithin(c, s, e.(copied := true));
  }

  /** The callback counts the entry: it is not excluded and the file
      budget is not yet spent. */
  predicate Counted(c: Config, s: WalkState, n: Node) {
    !Excluded(n.path) && s.filesSeen < c.maxFiles as int
  }

  /** The per-entry decisions: an excluded entry or one past the file
      budget changes nothing; a counted entry without file information is
      only counted; every other counted entry is listed once with its
      path, type, size, mode and time, unless opening the archive fails;
      an entry that is not a regular file is listed as it is and never
      hashed or copied; a file over the per-file limit is listed with
      "file_too_large"; a file that would overrun the total budget is
      listed with "total_limit" and stops the walk. */
  lemma StepDecisions(c: Config, s: WalkState, n: Node)
    ensures Excluded(n.path) || s.filesSeen >= c.maxFiles as int ==>
      Step(c, s, n) == (if n.kind == Dir then SkipDir else Continue, s)
    ensures Step(c, s, n).0 == SkipDir ==> n.kind == Dir
    ensures Counted(c, s, n) ==> Step(c, s, n).1.filesSeen == s.filesSeen + 1
    ensures Counted(c, s, n) && !n.infoOk ==> Step(c, s, n) == (Continue, s.(filesSeen := s.filesSeen + 1))
    ensures var r := Step(c, s, n);
      Counted(c, s, n) && n.infoOk && !r.0.Fail? ==>
        && |r.1.entries| == |s.entries| + 1 && r.1.entries[..|s.entries|] == s.entries
        && r.1.entries[|s.entries|].path == n.path && r.1.entries[|s.entries|].kind == n.kind
        && r.1.entries[|s.entries|].size == n.size && r.1.entries[|s.entries|].mode == n.mode
        && r.1.entries[|s.entries|].modTime == n.modTime
    ensures Counted(c, s, n) && n.infoOk && n.kind != File ==>
      Step(c, s, n) == (Continue, Record(s.(filesSeen := s.filesSeen + 1),
                                         Entry(n.path, n.kind, n.size, n.mode, n.modTime, "", false, "")))
    ensures var r := Step(c, s, n);
      Counted(c, s, n) && n.infoOk && n.kind == File && c.mode == CopyFiles && n.size > c.maxFileBytes as int ==>
        && r.0 == Continue && |r.1.entries| == |s.entries| + 1
        && r.1.entries[|s.entries|].copyReason == TooLarge && !r.1.entries[|s.entries|].copied
        && r.1.totalCopied == s.totalCopied && r.1.archive == s.archive
    ensures Step(c, s, n).0.Fail? <==>
      Counted(c, s, n) && n.infoOk && n.kind == File && c.mode == CopyFiles
      && n.size <= c.maxFileBytes as int && s.totalCopied + n.size <= c.maxTotalBytes as int
      && !s.archiveOpen && c.archiveError.Some?
    ensures Step(c, s, n).0.Fail? ==> Step(c, s, n).1 == s.(filesSeen := s.filesSeen + 1)
    ensures n.kind != File ==>
      (Step(c, s, n).0 in {Continue, SkipDir}
       && Step(c, s, n).1.totalCopied == s.totalCopied && Step(c, s, n).1.archive == s.archive)
    ensures Step(c, s, n).0 == StopWalk <==>
      !Excluded(n.path) && s.filesSeen < c.maxFiles as int && n.infoOk && n.kind == File
      && c.mode == CopyFiles && n.size <= c.maxFileBytes as int
      && s.totalCopied + n.size > c.maxTotalBytes as int
    ensures Step(c, s, n).0 == StopWalk ==>
      Step(c, s, n).1.entries == s.entries + [Step(c, s, n).1.entries[|s.entries|]]
      && Step(c, s, n).1.entries[|s.entries|].copyReason == TotalLimit
  {
  }

  /** The whole metadata-only walk never opens the archive. */
  lemma MetadataOnlyNeverArchives(c: Config, s: WalkState)
    requires Within(c, s) && c.mode == MetadataOnly
    ensures !s.archiveOpen && s.archive == [] && s.totalCopied == 0
  {
    CopiedNone(c, s.entries);
  }

  lemma {:induction false} CopiedNone(c: Config, es: seq<Entry>)
    requires c.mode == MetadataOnly
    requires forall k :: 0 <= k < |es| ==> EntryAllowed(c, es[k])
    ensures CopiedBytes(es) == 0
  {
    if es != [] {
      CopiedNone(c, es[..|es| - 1]);
      assert EntryAllowed(c, es[|es| - 1]);
    }
  }

  /** A walk keeps the invariant and only extends the state, whatever the
      tree (induction over the tree and its listings). */
  lemma {:induction false} WalkNodeWithin(c: Config, s: WalkState, n: Node)
    requires Within(c, s)
    ensures Within(c, WalkNode(c, s, n).1) && Extends(s, WalkNode(c, s, n).1)
    decreases n, 1
  {
    StepWithin(c, s, n);
    var (act, s1) := Step(c, s, n);
    if act == Continue && n.kind == Dir {
      WalkChildrenWithin(c, s1, n.children, n, 0);
      ExtendsTransitive(s, s1, WalkChildren(c, s1, n.children, n, 0).1);
    }
  }

  lemma {:induction false} WalkChildrenWithin(c: Config, s: WalkState, ns: seq<Node>, parent: Node, i: nat)
    requires ns == parent.children && Within(c, s)
    ensures Within(c, WalkChildren(c, s, ns, parent, i).1) && Extends(s, WalkChildren(c, s, ns, parent, i).1)
    decreases parent, 0, |ns| - i
  {
    if i < |ns| {
      WalkNodeWithin(c, s, ns[i]);
      var (o, s1) := WalkNode(c, s, ns[i]);
      if o == Finished {
        WalkChildrenWithin(c, s1, ns, parent, i + 1);
        ExtendsTransitive(s, s1, WalkChildren(c, s1, ns, parent, i + 1).1);
      }
    }
  }

  lemma {:induction false} WalkRootsWithin(c: Config, s: WalkState, roots: seq<string>, fs: map<string, Node>,
                                           cancelAt: Option<nat>, i: nat)
    requires Within(c, s)
    ensures Within(c, WalkRoots(c, s, roots, fs, cancelAt, i).1)
    ensures Extends(s, WalkRoots(c, s, roots, fs, cancelAt, i).1)
    decreases |roots| - i
  {
    if i < |roots| && !CancelledAt(cancelAt, i) {
      if roots[i] == "" || Excluded(roots[i]) {
        WalkRootsWithin(c, s, roots, fs, cancelAt, i + 1);
      } else {
        var root := if roots[i] in fs then Some(fs[roots[i]]) else None;
        var s1 := WalkRoot(c, s, root).1;
        if root.Some? {
          WalkNodeWithin(c, s, root.value);
        }
        WalkRootsWithin(c, s1, roots, fs, cancelAt, i + 1);
        ExtendsTransitive(s, s1, WalkRoots(c, s1, roots, fs, cancelAt, i + 1).1);
      }
    }
  }

  // ---------------------------------------------------------------------
  // The total budget ends the whole walk
  // ---------------------------------------------------------------------

  /** No listed entry was refused for the total budget. */
  predicate NoLimitHit(es: seq<Entry>) {
    forall k :: 0 <= k < |es| ==> es[k].copyReason != TotalLimit
  }

  /** Only the last listed entry was refused for the total budget. */
  predicate LimitHitLast(es: seq<Entry>) {
    && |es| > 0 && es[|es| - 1].copyReason == TotalLimit
    && forall k :: 0 <= k < |es| - 1 ==> es[k].copyReason != TotalLimit
  }

  /** Before the budget is hit, a step stops the walk exactly when it
      lists an entry refused for the total budget, and then that entry is
      the last one. */
  lemma StepStops(c: Config, s: WalkState, n: Node)
    requires NoLimitHit(s.entries)
    ensures Step(c, s, n).0 == StopWalk ==> LimitHitLast(Step(c, s, n).1.entries)
    ensures Step(c, s, n).0 != StopWalk ==> NoLimitHit(Step(c, s, n).1.entries)
  {
    StepDecisions(c, s, n);
    var r := Step(c, s, n);
    if r.0 == StopWalk {
      assert r.1.entries == s.entries + [r.1.entries[|s.entries|]];
    } else if Counted(c, s, n) && n.infoOk && !r.0.Fail? {
      var e := r.1.entries[|s.entries|];
      assert r.1.entries == s.entries + [e];
      assert e.copyReason != TotalLimit by {
        StepReason(c, s, n);
      }
    }
  }

  /** A step lists an entry refused for the total budget only when it
      stops the walk. */
  lemma StepReason(c: Config, s: WalkState, n: Node)
    requires Counted(c, s, n) && n.infoOk && !Step(c, s, n).0.Fail? && Step(c, s, n).0 != StopWalk
    ensures |Step(c, s, n).1.entries| > |s.entries|
    ensures Step(c, s, n).1.entries[|s.entries|].copyReason != TotalLimit
  {
    var s1 := s.(filesSeen := s.filesSeen + 1);
    var e := Entry(n.path, n.kind, n.size, n.mode, n.modTime, "", false, "");
    if n.kind == File {
      var hashed := c.hashFiles && n.size <= c.maxFileBytes as int && n.digest.Some?;
      var f := e.(sha256 := if hashed then n.digest.value else "");
      assert Step(c, s, n) == FileStep(c, s1, n, f);
    }
  }

  lemma {:induction false} WalkNodeStops(c: Config, s: WalkState, n: Node)
    requires NoLimitHit(s.entries)
    ensures WalkNode(c, s, n).0 == Stopped ==> LimitHitLast(WalkNode(c, s, n).1.entries)
    ensures WalkNode(c, s, n).0 != Stopped ==> NoLimitHit(WalkNode(c, s, n).1.entries)
    decreases n, 1
  {
    StepStops(c, s, n);
    var (act, s1) := Step(c, s, n);
    if act == Continue && n.kind == Dir {
      WalkChildrenStops(c, s1, n.children, n, 0);
    }
  }

  lemma {:induction false} WalkChildrenStops(c: Config, s: WalkState, ns: seq<Node>, parent: Node, i: nat)
    requires ns == parent.children && NoLimitHit(s.entries)
    ensures WalkChildren(c, s, ns, parent, i).0 == Stopped ==> LimitHitLast(WalkChildren(c, s, ns, parent, i).1.entries)
    ensures WalkChildren(c, s, ns, parent, i).0 != Stopped ==> NoLimitHit(WalkChildren(c, s, ns, parent, i).1.entries)
    decreases parent, 0, |ns| - i
  {
    if i < |ns| {
      WalkNodeStops(c, s, ns[i]);
      var (o, s1) := WalkNode(c, s, ns[i]);
      if o == Finished {
        WalkChildrenStops(c, s1, ns, parent, i + 1);
      }
    }
  }

  /** Over all roots: once an entry is refused for the total budget no
      root after it is walked, so that entry is the last one listed and
      the loop ends normally. */
  lemma {:induction false} WalkRootsStops(c: Config, s: WalkState, roots: seq<string>, fs: map<string, Node>,
                                          cancelAt: Option<nat>, i: nat)
    requires NoLimitHit(s.entries)
    ensures var r := WalkRoots(c, s, roots, fs, cancelAt, i);
      NoLimitHit(r.1.entries) || (r.0 == RootsDone && LimitHitLast(r.1.entries))
    decreases |roots| - i
  {
    if i < |roots| && !CancelledAt(cancelAt, i) {
      if roots[i] == "" || Excluded(roots[i]) {
        WalkRootsStops(c, s, roots, fs, cancelAt, i + 1);
      } else {
        var root := if roots[i] in fs then Some(fs[roots[i]]) else None;
        var (o, s1) := WalkRoot(c, s, root);
        if root.Some? {
          WalkNodeStops(c, s, root.value);
        }
        if o == Finished {
          WalkRootsStops(c, s1, roots, fs, cancelAt, i + 1);
        }
      }
    }
  }

  // ---------------------------------------------------------------------
  // The archive is opened lazily
  // ---------------------------------------------------------------------

  /** A listed regular file that got as far as the copy step: it was not
      refused for its size or for the total budget. */
  predicate ReachedCopy(c: Config, e: Entry) {
    e.kind == File && e.copyReason == "" && e.size <= c.maxFileBytes as int
  }

  /** The archive is open only once some listed file got to the copy
      step (whether or not its copy then succeeded). */
  predicate ArchiveEarned(c: Config, s: WalkState) {
    s.archiveOpen ==> exists k :: 0 <= k < |s.entries| && ReachedCopy(c, s.entries[k])
  }

  lemma EarnedByRecord(c: Config, s: WalkState, t: WalkState, e: Entry)
    requires ArchiveEarned(c, s) && t.entries == s.entries + [e]
    requires t.archiveOpen ==> s.archiveOpen || ReachedCopy(c, e)
    ensures ArchiveEarned(c, t)
  {
    if t.archiveOpen {
      if ReachedCopy(c, e) {
        assert t.entries[|s.entries|] == e;
      } else {
        var k :| 0 <= k < |s.entries| && ReachedCopy(c, s.entries[k]);
        assert t.entries[k] == s.entries[k];
      }
    }
  }

  /** One callback step opens the archive only for a file it lists as
      having reached the copy step. */
  lemma StepEarned(c: Config, s: WalkState, n: Node)
    requires ArchiveEarned(c, s)
    ensures ArchiveEarned(c, Step(c, s, n).1)
  {
    if !Excluded(n.path) && s.filesSeen < c.maxFiles as int && n.infoOk {
      var s1 := s.(filesSeen := s.filesSeen + 1);
      var e := Entry(n.path, n.kind, n.size, n.mode, n.modTime, "", false, "");
      if n.kind != File {
        EarnedByRecord(c, s1, Record(s1, e), e);
      } else {
        var hashed := c.hashFiles && n.size <= c.maxFileBytes as int && n.digest.Some?;
        var f := e.(sha256 := if hashed then n.digest.value else "");
        assert Step(c, s, n) == FileStep(c, s1, n, f);
        if c.mode != CopyFiles {
          EarnedByRecord(c, s1, Record(s1, f), f);
        } else if n.size > c.maxFileBytes as int {
          EarnedByRecord(c, s1, Record(s1, f.(copyReason := TooLarge)), f.(copyReason := TooLarge));
        } else if s.totalCopied + n.size > c.maxTotalBytes as int {
          EarnedByRecord(c, s1, Record(s1, f.(copyReason := TotalLimit)), f.(copyReason := TotalLimit));
        } else if s.archiveOpen || c.archiveError.None? {
          var ready := s1.(archiveOpen := true);
          var t := CopyInto(ready, n, f).1;
          var g := if n.copy == CopyOk then f.(copied := true) else f;
          assert ReachedCopy(c, g);
          assert t.entries == s1.entries + [g];
          EarnedByRecord(c, s1, t, g);
        }
      }
    }
  }

  lemma {:induction false} WalkNodeEarned(c: Config, s: WalkState, n: Node)
    requires ArchiveEarned(c, s)
    ensures ArchiveEarned(c, WalkNode(c, s, n).1)
    decreases n, 1
  {
    StepEarned(c, s, n);
    var (act, s1) := Step(c, s, n);
    if act == Continue && n.kind == Dir {
      WalkChildrenEarned(c, s1, n.children, n, 0);
    }
  }

  lemma {:induction false} WalkChildrenEarned(c: Config, s: WalkState, ns: seq<Node>, parent: Node, i: nat)
    requires ns == parent.children && ArchiveEarned(c, s)
    ensures ArchiveEarned(c, WalkChildren(c, s, ns, parent, i).1)
    decreases parent, 0, |ns| - i
  {
    if i < |ns| {
      WalkNodeEarned(c, s, ns[i]);
      var (o, s1) := WalkNode(c, s, ns[i]);
      if o == Finished {
        WalkChildrenEarned(c, s1, ns, parent, i + 1);
      }
    }
  }

  lemma {:induction false} WalkRootsEarned(c: Config, s: WalkState, roots: seq<string>, fs: map<string, Node>,
                                           cancelAt: Option<nat>, i: nat)
    requires ArchiveEarned(c, s)
    ensures ArchiveEarned(c, WalkRoots(c, s, roots, fs, cancelAt, i).1)
    decreases |roots| - i
  {
    if i < |roots| && !CancelledAt(cancelAt, i) {
      if roots[i] == "" || Excluded(roots[i]) {
        WalkRootsEarned(c, s, roots, fs, cancelAt, i + 1);
      } else {
        var root := if roots[i] in fs then Some(fs[roots[i]]) else None;
        var s1 := WalkRoot(c, s, root).1;
        if root.Some? {
          WalkNodeEarned(c, s, root.value);
        }
        WalkRootsEarned(c, s1, roots, fs, cancelAt, i + 1);
      }
    }
  }

  // ---------------------------------------------------------------------
  // The walk, step by step
  // ---------------------------------------------------------------------

  /** The variables the walk callback captures and updates. */
  class Walker {
    const config: Config
    var filesSeen: nat
    var totalCopied: nat
    var entries: seq<Entry>
    var archive: seq<TarEntry>
    var archiveOpen: bool

    function State(): WalkState
      reads this
    {
      WalkState(filesSeen, totalCopied, entries, archive, archiveOpen)
    }

    constructor (c: Config)
      ensures config == c && State() == Start
    {
      config := c;
      filesSeen, totalCopied, entries, archive, archiveOpen := 0, 0, [], [], false;
    }

    /** The callback on one entry reached without error. */
    method Visit(n: Node) returns (act: Action)
      modifies this
      ensures (act, State()) == Step(config, old(State()), n)
    {
      var ex := IsExcluded(n.path);
      if ex || filesSeen >= config.maxFiles as int {
        return if n.kind == Dir then SkipDir else Continue;
      }
      filesSeen := filesSeen + 1;
      if !n.infoOk {
        return Continue;
      }
      var e := Entry(n.path, n.kind, n.size, n.mode, n.modTime, "", false, "");
      if n.kind != File {
        entries := entries + [e];
        return Continue;
      }
      if config.hashFiles && n.size <= config.maxFileBytes as int && n.digest.Some? {
        e := e.(sha256 := n.digest.value);
      }
      if config.mode == CopyFiles {
        if n.size > config.maxFileBytes as int {
          entries := entries + [e.(copyReason := TooLarge)];
          return Continue;
        }
        if totalCopied + n.size > config.maxTotalBytes as int {
          entries := entries + [e.(copyReason := TotalLimit)];
          return StopWalk;
        }
        if !archiveOpen {
          if config.archiveError.Some? {
            return Fail(config.archiveError.value);
          }
          archiveOpen := true;
        }
        match n.copy {
          case OpenFails =>
          case HeaderFails =>
          case CopyFails =>
            archive := archive + [TarEntry(TarName(n.path), n.size, false)];
          case CopyOk =>
            archive := archive + [TarEntry(TarName(n.path), n.size, true)];
            e := e.(copied := true);
            totalCopied := totalCopied + n.size;
        }
      }
      entries := entries + [e];
      return Continue;
    }

    /** The walk over one entry and what lies below it. */
    method Walk(n: Node) returns (o: Outcome)
      modifies this
      ensures (o, State()) == WalkNode(config, old(State()), n)
      decreases n
    {
      var act := Visit(n);
      match act {
        case SkipDir => return Finished;
        case StopWalk => return Stopped;
        case Fail(m) => return Failed(m);
        case Continue =>
      }
      if n.kind != Dir {
        return Finished;
      }
      ghost var after := State();
      var i := 0;
      while i < |n.children|
        invariant 0 <= i <= |n.children|
        invariant WalkChildren(config, after, n.children, n, 0) == WalkChildren(config, State(), n.children, n, i)
      {
        o := Walk(n.children[i]);
        if o != Finished {
          return;
        }
        i := i + 1;
      }
      return Finished;
    }
  }

  // ---------------------------------------------------------------------
  // The collector
  // ---------------------------------------------------------------------

  /** Everything outside the collector's own logic: the tree below each
      root that can be looked up, whether the metadata file can be created,
      whether the archive can be, the digests of the two files once
      written, when the context is found cancelled and what it then
      reports, and the time stamp. */
  datatype Env = Env(
    fs: map<string, Node>,
    metaError: Option<string>,
    archiveError: Option<string>,
    metaDigest: Result<Digest>,
    archiveDigest: Option<Digest>,
    cancelAt: Option<nat>,
    contextError: string,
    now: string)

  /** The metadata artifact's annotations. */
  function Annotations(o: Options, c: Config, s: WalkState): map<string, string> {
    map[
      "mode" := ModeName(c.mode),
      "paths" := Join(o.paths, ','),
      "files_seen" := Decimal(s.filesSeen),
      "total_copied" := Decimal(s.totalCopied),
      "hash_files" := BoolString(o.hashFiles),
      "max_file_bytes" := Decimal(c.maxFileBytes as int),
      "max_total_bytes" := Decimal(c.maxTotalBytes as int)]
  }

  /** The artifacts of a finished walk: the metadata listing, then the
      archive when one was opened and its digest could be taken. */
  function Assemble(o: Options, c: Config, s: WalkState, env: Env): (r: Result<seq<Artifact>>) {
    if s.filesSeen == 0 then Err("snapshot produced no entries")
    else if env.metaDigest.Err? then Err(env.metaDigest.msg)
    else
      var d := env.metaDigest.value;
      var meta := Artifact(MetadataRel, CollectorName, env.now, d.size, d.sha256, Annotations(o, c, s));
      if s.archiveOpen && env.archiveDigest.Some? then
        var a := env.archiveDigest.value;
        Ok([meta, Artifact(ArchiveRel, CollectorName, env.now, a.size, a.sha256, map[])])
      else Ok([meta])
  }

  /** The whole collector: options, metadata file, the roots, the
      artifacts. */
  function Snapshot(o: Options, env: Env): (r: Result<seq<Artifact>>) {
    match Normalize(o, env.archiveError)
    case Err(m) => Err(m)
    case Ok(c) =>
      if env.metaError.Some? then Err(env.metaError.value)
      else
        var (ro, s) := WalkRoots(c, Start, o.paths, env.fs, env.cancelAt, 0);
        match ro
        case Cancelled => Err(env.contextError)
        case RootsFailed(m) => Err(m)
        case RootsDone => Assemble(o, c, s, env)
  }

  /** The collector, with the loop over the roots and the walker's state
      updated in place. */
  method Collect(o: Options, env: Env) returns (r: Result<seq<Artifact>>)
    ensures r == Snapshot(o, env)
  {
    var norm := Normalize(o, env.archiveError);
    if norm.Err? {
      return Err(norm.msg);
    }
    var c := norm.value;
    if env.metaError.Some? {
      return Err(env.metaError.value);
    }
    var w := new Walker(c);
    StartWithin(c);
    var outcome := WalkAll(w, o.paths, env);
    match outcome {
      case Cancelled => return Err(env.contextError);
      case RootsFailed(m) => return Err(m);
      case RootsDone =>
    }
    r := AssembleArtifacts(o, c, w.State(), env);
  }

  /** The loop over the configured roots: the context is checked first,
      empty and excluded roots are passed over, a walk stopped by the total
      budget ends the loop, and a failed walk ends the collector. */
  method WalkAll(w: Walker, roots: seq<string>, env: Env) returns (outcome: RootsOutcome)
    requires Within(w.config, w.State())
    modifies w
    ensures (outcome, w.State()) == WalkRoots(w.config, old(w.State()), roots, env.fs, env.cancelAt, 0)
    ensures Within(w.config, w.State())
  {
    ghost var c := w.config;
    ghost var goal := WalkRoots(c, w.State(), roots, env.fs, env.cancelAt, 0);
    var i := 0;
    while i < |roots|
      invariant 0 <= i <= |roots| && w.config == c
      invariant goal == WalkRoots(c, w.State(), roots, env.fs, env.cancelAt, i)
      invariant Within(c, w.State())
    {
      if CancelledAt(env.cancelAt, i) {
        return Cancelled;
      }
      var root := roots[i];
      var ex := IsExcluded(root);
      if root != "" && !ex && root in env.fs {
        var n := env.fs[root];
        WalkNodeWithin(c, w.State(), n);
        assert goal == RootStep(c, w.State(), roots, env.fs, env.cancelAt, i);
        var out := w.Walk(n);
        if out == Stopped {
          return RootsDone;
        }
        if out.Failed? {
          return RootsFailed(out.msg);
        }
      }
      i := i + 1;
    }
    return RootsDone;
  }

  /** `WalkRoots` at a root that is walked, one step unfolded. */
  function RootStep(c: Config, s: WalkState, roots: seq<string>, fs: map<string, Node>,
                    cancelAt: Option<nat>, i: nat): (r: (RootsOutcome, WalkState))
    requires i < |roots| && roots[i] in fs
  {
    var (o, s1) := WalkNode(c, s, fs[roots[i]]);
    match o
    case Finished => WalkRoots(c, s1, roots, fs, cancelAt, i + 1)
    case Stopped => (RootsDone, s1)
    case Failed(m) => (RootsFailed(m), s1)
  }

  /** The artifacts of a finished walk, with the counts rendered as
      decimal text. */
  method AssembleArtifacts(o: Options, c: Config, s: WalkState, env: Env) returns (r: Result<seq<Artifact>>)
    requires Within(c, s)
    ensures r == Assemble(o, c, s, env)
  {
    if s.filesSeen == 0 {
      return Err("snapshot produced no entries");
    }
    if env.metaDigest.Err? {
      return Err(env.metaDigest.msg);
    }
    var filesSeen := FormatDecimal(s.filesSeen as int64);
    var totalCopied := FormatDecimal(s.totalCopied as int64);
    var maxFileBytes := FormatDecimal(c.maxFileBytes);
    var maxTotalBytes := FormatDecimal(c.maxTotalBytes);
    var d := env.metaDigest.value;
    var annotations := map[
      "mode" := ModeName(c.mode),
      "paths" := Join(o.paths, ','),
      "files_seen" := filesSeen,
      "total_copied" := totalCopied,
      "hash_files" := BoolString(o.hashFiles),
      "max_file_bytes" := maxFileBytes,
      "max_total_bytes" := maxTotalBytes];
    assert annotations == Annotations(o, c, s);
    var meta := Artifact(MetadataRel, CollectorName, env.now, d.size, d.sha256, annotations);
    var artifacts := [meta];
    if s.archiveOpen && env.archiveDigest.Some? {
      var a := env.archiveDigest.value;
      artifacts := artifacts + [Artifact(ArchiveRel, CollectorName, env.now, a.size, a.sha256, map[])];
    }
    r := Ok(artifacts);
    assert Assemble(o, c, s, env).Ok?;
    assert |Assemble(o, c, s, env).value| == |artifacts|;
    assert Assemble(o, c, s, env).value[0] == meta;
    assert |artifacts| == 2 ==> Assemble(o, c, s, env).value[1] == artifacts[1];
    assert Assemble(o, c, s, env).value == artifacts;
  }

  // ---------------------------------------------------------------------
  // What a snapshot promises
  // ---------------------------------------------------------------------

  /** A successful snapshot lists the metadata file first, with budgets
      whose recorded counts never exceed the configured limits, and adds
      the archive only in copy mode; an entry refused for the total budget
      is the last one listed. */
  lemma SnapshotWithinBudgets(o: Options, env: Env)
    requires Snapshot(o, env).Ok?
    ensures var arts := Snapshot(o, env).value;
      && 1 <= |arts| <= 2
      && arts[0].relativePath == MetadataRel && arts[0].collector == CollectorName
      && (|arts| == 2 ==> arts[1].relativePath == ArchiveRel && o.mode == "copy")
      && (exists f: nat, t: nat ::
            && ParseDecimal(arts[0].metadata["files_seen"]) == Some(f)
            && ParseDecimal(arts[0].metadata["total_copied"]) == Some(t)
            && 0 < f <= Normalize(o, env.archiveError).value.maxFiles as int
            && t <= Normalize(o, env.archiveError).value.maxTotalBytes as int)
    ensures var s := WalkRoots(Normalize(o, env.archiveError).value, Start, o.paths, env.fs, env.cancelAt, 0).1;
      NoLimitHit(s.entries) || LimitHitLast(s.entries)
  {
    var c := Normalize(o, env.archiveError).value;
    var s := WalkRoots(c, Start, o.paths, env.fs, env.cancelAt, 0).1;
    SnapshotAssembles(o, env);
    StartWithin(c);
    WalkRootsWithin(c, Start, o.paths, env.fs, env.cancelAt, 0);
    AssembleWithinBudgets(o, c, s, env);
    TotalLimitEndsSnapshot(o, env);
  }

  /** A successful snapshot is the assembly of a walk over all roots that
      ended normally. */
  lemma SnapshotAssembles(o: Options, env: Env)
    requires Snapshot(o, env).Ok?
    ensures var c := Normalize(o, env.archiveError).value;
      var r := WalkRoots(c, Start, o.paths, env.fs, env.cancelAt, 0);
      r.0 == RootsDone && Snapshot(o, env) == Assemble(o, c, r.1, env)
  {
  }

  /** The artifacts assembled from a walk that kept the budgets: the
      listing first, whose counts read back within the budgets, and the
      archive second only in copy mode. */
  lemma AssembleWithinBudgets(o: Options, c: Config, s: WalkState, env: Env)
    requires Within(c, s) && Assemble(o, c, s, env).Ok?
    ensures var arts := Assemble(o, c, s, env).value;
      && 1 <= |arts| <= 2
      && arts[0].relativePath == MetadataRel && arts[0].collector == CollectorName
      && (|arts| == 2 ==> arts[1].relativePath == ArchiveRel && c.mode == CopyFiles)
      && (exists f: nat, t: nat ::
            && ParseDecimal(arts[0].metadata["files_seen"]) == Some(f)
            && ParseDecimal(arts[0].metadata["total_copied"]) == Some(t)
            && 0 < f <= c.maxFiles as int
            && t <= c.maxTotalBytes as int)
  {
    DecimalRoundTrip(s.filesSeen);
    DecimalRoundTrip(s.totalCopied);
    var arts := Assemble(o, c, s, env).value;
    assert arts[0].metadata == Annotations(o, c, s);
    assert ParseDecimal(arts[0].metadata["files_seen"]) == Some(s.filesSeen as int);
    assert ParseDecimal(arts[0].metadata["total_copied"]) == Some(s.totalCopied as int);
  }

  /** In a successful snapshot an entry refused for the total budget is
      the last one listed: no root or entry after it was walked. */
  lemma TotalLimitEndsSnapshot(o: Options, env: Env)
    requires Snapshot(o, env).Ok?
    ensures var s := WalkRoots(Normalize(o, env.archiveError).value, Start, o.paths, env.fs, env.cancelAt, 0).1;
      NoLimitHit(s.entries) || LimitHitLast(s.entries)
  {
    WalkRootsStops(Normalize(o, env.archiveError).value, Start, o.paths, env.fs, env.cancelAt, 0);
  }

  /** The archive artifact is returned only when the walk opened the
      archive, and it opened it only for a listed regular file that got to
      the copy step. */
  lemma ArchiveOnlyAfterCopyStep(o: Options, env: Env)
    requires Snapshot(o, env).Ok? && |Snapshot(o, env).value| == 2
    ensures var c := Normalize(o, env.archiveError).value;
      var s := WalkRoots(c, Start, o.paths, env.fs, env.cancelAt, 0).1;
      s.archiveOpen && env.archiveDigest.Some?
      && Snapshot(o, env).value[1] == Artifact(ArchiveRel, CollectorName, env.now, env.archiveDigest.value.size,
                                               env.archiveDigest.value.sha256, map[])
      && exists k :: 0 <= k < |s.entries| && ReachedCopy(c, s.entries[k])
  {
    var c := Normalize(o, env.archiveError).value;
    WalkRootsEarned(c, Start, o.paths, env.fs, env.cancelAt, 0);
  }

  /** The error cases of the collector, in the order it meets them. */
  lemma SnapshotErrors(o: Options, env: Env)
    ensures o.paths == [] ==> Snapshot(o, env) == Err("no snapshot paths configured")
    ensures o.paths != [] && o.mode !in {"", "metadata", "copy"} ==> Snapshot(o, env) == Err("invalid snapshot mode")
    ensures Normalize(o, env.archiveError).Ok? && env.metaError.Some? ==> Snapshot(o, env) == Err(env.metaError.value)
    ensures Normalize(o, env.archiveError).Ok? && env.metaError.None? && CancelledAt(env.cancelAt, 0) ==>
      Snapshot(o, env) == Err(env.contextError)
  {
  }

  /** Roots that are empty or excluded contribute nothing: such a
      snapshot fails with "snapshot produced no entries" (unless the
      context is cancelled first). */
  lemma OnlySkippedRoots(o: Options, env: Env)
    requires Normalize(o, env.archiveError).Ok? && env.metaError.None? && env.cancelAt.None?
    requires forall k :: 0 <= k < |o.paths| ==> o.paths[k] == "" || Excluded(o.paths[k])
    ensures Snapshot(o, env) == Err("snapshot produced no entries")
  {
    var c := Normalize(o, env.archiveError).value;
    SkippedRoots(c, o.paths, env.fs, 0);
  }

  lemma {:induction false} SkippedRoots(c: Config, roots: seq<string>, fs: map<string, Node>, i: nat)
    requires forall k :: 0 <= k < |roots| ==> roots[k] == "" || Excluded(roots[k])
    ensures WalkRoots(c, Start, roots, fs, None, i) == (RootsDone, Start)
    decreases |roots| - i
  {
    if i < |roots| {
      SkippedRoots(c, roots, fs, i + 1);
    }
  }

  /** In metadata-only mode the result is the listing alone. */
  lemma MetadataModeListingOnly(o: Options, env: Env)
    requires Snapshot(o, env).Ok? && o.mode in {"", "metadata"}
    ensures |Snapshot(o, env).value| == 1
    ensures Snapshot(o, env).value[0].metadata["total_copied"] == "0"
  {
    var c := Normalize(o, env.archiveError).value;
    var s := WalkRoots(c, Start, o.paths, env.fs, env.cancelAt, 0).1;
    StartWithin(c);
    WalkRootsWithin(c, Start, o.paths, env.fs, env.cancelAt, 0);
    MetadataOnlyNeverArchives(c, s);
  }
}
