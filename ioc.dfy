/** The IOC scanner: a list of patterns read line by line from a file, and
    a substring search of every readable artifact of a case for each of
    them. */
module Ioc {
  import opened Common
  import opened Collectors

  const NoPatterns := "IOC file contained no patterns"

  /** The IOC file as the line scanner delivers it: its lines, without
      their newlines, and the error the scanner stops with, if any. */
  datatype LineFile = LineFile(lines: seq<string>, scanError: Option<string>)

  /** The patterns of an IOC file; `file` is an error when the file
      cannot be opened. */
  function Patterns(file: Result<LineFile>): Result<seq<string>> {
    match file
    case Err(m) => Err(m)
    case Ok(f) =>
      if f.scanError.Some? then Err(f.scanError.value)
      else if TrimmedNonBlank(f.lines) == [] then Err(NoPatterns)
      else Ok(TrimmedNonBlank(f.lines))
  }

  /** Reads the patterns line by line, trimming each and skipping the
      blank ones. */
  method LoadPatterns(file: Result<LineFile>) returns (r: Result<seq<string>>)
    ensures r == Patterns(file)
  {
    if file.Err? {
      return Err(file.msg);
    }
    var lines := file.value.lines;
    var patterns := [];
    var i := 0;
    while i < |lines|
      invariant 0 <= i <= |lines|
      invariant patterns == TrimmedNonBlank(lines[..i])
    {
      var line := TrimSpace(lines[i]);
      TrimmedNonBlankStep(lines, i);
      if line != "" {
        patterns := patterns + [line];
      }
      i := i + 1;
    }
    assert lines[..|lines|] == lines;
    if file.value.scanError.Some? {
      return Err(file.value.scanError.value);
    }
    if |patterns| == 0 {
      return Err(NoPatterns);
    }
    return Ok(patterns);
  }

  /** The patterns are exactly the trimmed non-blank lines: each is clean
      (not blank, untrimmable, a single line), and a file whose every line
      is blank is an error. */
  lemma PatternsSpec(f: LineFile)
    requires forall i :: 0 <= i < |f.lines| ==> '\n' !in f.lines[i]
    requires f.scanError.None?
    ensures Patterns(Ok(f)) == Err(NoPatterns) <==> forall i :: 0 <= i < |f.lines| ==> TrimSpace(f.lines[i]) == ""
    ensures Patterns(Ok(f)).Ok? ==>
      && (forall k :: 0 <= k < |Patterns(Ok(f)).value| ==> Clean(Patterns(Ok(f)).value[k], '\n'))
      && (forall x :: x in Patterns(Ok(f)).value <==>
            x != "" && exists i :: 0 <= i < |f.lines| && TrimSpace(f.lines[i]) == x)
  {
    var ps := TrimmedNonBlank(f.lines);
    TrimmedNonBlankClean(f.lines, '\n');
    forall x {
      TrimmedNonBlankMembers(f.lines, x);
    }
    if ps != [] {
      assert ps[0] in ps;
    }
  }

  // ---------------------------------------------------------------------
  // Scanning
  // ---------------------------------------------------------------------

  datatype Match = Match(pattern: string, artifact: string, firstLine: string, collectedAt: string)

  datatype ScanResult = ScanResult(iocFile: string, matches: seq<Match>, scanned: nat, finished: string)

  /** The first of `lines` that contains `p`, or "" when none does. */
  function FirstLine(lines: seq<string>, p: string): string {
    if lines == [] then ""
    else if Contains(lines[0], p) then lines[0]
    else FirstLine(lines[1..], p)
  }

  /** Searches the lines of `content` in order for the first one holding
      `p`. */
  method FindFirstLine(content: string, p: string) returns (line: string)
    ensures line == FirstLine(Split(content, '\n'), p)
  {
    var lines := Split(content, '\n');
    line := "";
    var i := 0;
    while i < |lines|
      invariant 0 <= i <= |lines|
      invariant FirstLine(lines, p) == FirstLine(lines[i..], p)
    {
      if Contains(lines[i], p) {
        line := lines[i];
        break;
      }
      assert lines[i..][1..] == lines[i + 1..];
      i := i + 1;
    }
  }

  /** The first matching line is the first line that contains the
      pattern, and "" only when no line does. */
  lemma {:induction false} FirstLineSpec(lines: seq<string>, p: string)
    ensures (exists j :: 0 <= j < |lines| && Contains(lines[j], p)) ==>
      exists k :: 0 <= k < |lines| && FirstLine(lines, p) == lines[k] && Contains(lines[k], p)
        && forall j :: 0 <= j < k ==> !Contains(lines[j], p)
    ensures (forall j :: 0 <= j < |lines| ==> !Contains(lines[j], p)) ==> FirstLine(lines, p) == ""
  {
    if lines != [] && !Contains(lines[0], p) {
      var rest := lines[1..];
      FirstLineSpec(rest, p);
      if exists j :: 0 <= j < |lines| && Contains(lines[j], p) {
        var j :| 0 <= j < |lines| && Contains(lines[j], p);
        assert Contains(rest[j - 1], p);
        var k :| 0 <= k < |rest| && FirstLine(rest, p) == rest[k] && Contains(rest[k], p)
          && forall i :: 0 <= i < k ==> !Contains(rest[i], p);
        assert forall i :: 1 <= i < k + 1 ==> lines[i] == rest[i - 1];
        assert FirstLine(lines, p) == lines[k + 1];
      }
      if forall j :: 0 <= j < |lines| ==> !Contains(lines[j], p) {
        assert forall j :: 0 <= j < |rest| ==> rest[j] == lines[j + 1];
      }
    }
  }

  /** A single-line pattern found in the content is found on one of its
      lines, so the first matching line is a line that holds it. */
  lemma FoundOnSomeLine(content: string, p: string)
    requires '\n' !in p && Contains(content, p)
    ensures var lines := Split(content, '\n');
      exists k :: 0 <= k < |lines| && FirstLine(lines, p) == lines[k] && Contains(lines[k], p)
        && forall j :: 0 <= j < k ==> !Contains(lines[j], p)
  {
    var i :| 0 <= i <= |content| && OccursAt(content, p, i);
    OccurrenceInSomePiece(content, '\n', p, i);
    FirstLineSpec(Split(content, '\n'), p);
  }

  /** The matches in one artifact: one per pattern it contains, in pattern
      order. */
  function MatchesIn(rel: string, content: string, ps: seq<string>, now: string): seq<Match> {
    if ps == [] then []
    else
      var p := ps[|ps| - 1];
      MatchesIn(rel, content, ps[..|ps| - 1], now)
      + (if Contains(content, p) then [Match(p, rel, FirstLine(Split(content, '\n'), p), now)] else [])
  }

  /** Where an artifact's file lies in the case directory. */
  function ArtifactPath(outDir: string, a: Artifact): string {
    JoinPath(outDir, a.relativePath)
  }

  /** The matches and the number of artifacts read, over `arts` in order;
      `files` holds the contents of every file that can be read. */
  function ScanAll(outDir: string, arts: seq<Artifact>, ps: seq<string>, files: map<string, string>,
                   now: string): (seq<Match>, nat) {
    if arts == [] then ([], 0)
    else
      var before := ScanAll(outDir, arts[..|arts| - 1], ps, files, now);
      var a := arts[|arts| - 1];
      var path := ArtifactPath(outDir, a);
      if path !in files then before
      else (before.0 + MatchesIn(a.relativePath, files[path], ps, now), before.1 + 1)
  }

  /** The whole scan. */
  function Scan(outDir: string, arts: seq<Artifact>, iocFile: string, file: Result<LineFile>,
                files: map<string, string>, now: string): Result<ScanResult> {
    match Patterns(file)
    case Err(m) => Err(m)
    case Ok(ps) =>
      var (matches, scanned) := ScanAll(outDir, arts, ps, files, now);
      Ok(ScanResult(iocFile, matches, scanned, now))
  }

  /** Checks one artifact's content against every pattern in turn. */
  method MatchArtifact(rel: string, content: string, patterns: seq<string>, now: string)
    returns (found: seq<Match>)
    ensures found == MatchesIn(rel, content, patterns, now)
  {
    found := [];
    var k := 0;
    while k < |patterns|
      invariant 0 <= k <= |patterns|
      invariant found == MatchesIn(rel, content, patterns[..k], now)
    {
      var p := patterns[k];
      assert patterns[..k + 1][..k] == patterns[..k];
      if Contains(content, p) {
        var line := FindFirstLine(content, p);
        found := found + [Match(p, rel, line, now)];
      }
      k := k + 1;
    }
    assert patterns[..|patterns|] == patterns;
  }

  /** Reads each artifact, skipping those that cannot be read, and checks
      it against every pattern. */
  method ScanArtifacts(outDir: string, arts: seq<Artifact>, iocFile: string, file: Result<LineFile>,
                       files: map<string, string>, now: string) returns (r: Result<ScanResult>)
    ensures r == Scan(outDir, arts, iocFile, file, files, now)
  {
    var loaded := LoadPatterns(file);
    if loaded.Err? {
      return Err(loaded.msg);
    }
    var patterns := loaded.value;
    var matches: seq<Match> := [];
    var scanned := 0;
    var i := 0;
    while i < |arts|
      invariant 0 <= i <= |arts|
      invariant (matches, scanned) == ScanAll(outDir, arts[..i], patterns, files, now)
    {
      var a := arts[i];
      assert arts[..i + 1][..i] == arts[..i];
      var path := ArtifactPath(outDir, a);
      if path in files {
        scanned := scanned + 1;
        var found := MatchArtifact(a.relativePath, files[path], patterns, now);
        matches := matches + found;
      }
      i := i + 1;
    }
    assert arts[..|arts|] == arts;
    return Ok(ScanResult(iocFile, matches, scanned, now));
  }

  // ---------------------------------------------------------------------
  // What a scan reports
  // ---------------------------------------------------------------------

  /** The artifacts that can be read, in order. */
  function Readable(outDir: string, arts: seq<Artifact>, files: map<string, string>): seq<Artifact> {
    if arts == [] then []
    else
      Readable(outDir, arts[..|arts| - 1], files)
      + (if ArtifactPath(outDir, arts[|arts| - 1]) in files then [arts[|arts| - 1]] else [])
  }

  lemma {:induction false} MatchesInLength(rel: string, content: string, ps: seq<string>, now: string)
    ensures |MatchesIn(rel, content, ps, now)| <= |ps|
  {
    if ps != [] {
      MatchesInLength(rel, content, ps[..|ps| - 1], now);
    }
  }

  /** The matches in one artifact: each is for a pattern it contains,
      with that pattern's first line, and there is one for every pattern
      it contains. */
  lemma {:induction false} MatchesInSpec(rel: string, content: string, ps: seq<string>, now: string)
    ensures forall m :: m in MatchesIn(rel, content, ps, now) ==>
      && m.pattern in ps && m.artifact == rel && m.collectedAt == now
      && Contains(content, m.pattern) && m.firstLine == FirstLine(Split(content, '\n'), m.pattern)
    ensures forall p :: p in ps && Contains(content, p) ==>
      exists m :: m in MatchesIn(rel, content, ps, now) && m.pattern == p
  {
    if ps != [] {
      var init := ps[..|ps| - 1];
      var p := ps[|ps| - 1];
      MatchesInSpec(rel, content, init, now);
      var tail := if Contains(content, p) then [Match(p, rel, FirstLine(Split(content, '\n'), p), now)] else [];
      assert MatchesIn(rel, content, ps, now) == MatchesIn(rel, content, init, now) + tail;
      assert forall q :: q in init ==> q in ps;
      forall q | q in ps && Contains(content, q)
        ensures exists m :: m in MatchesIn(rel, content, ps, now) && m.pattern == q
      {
        if q != p {
          assert q in init;
          var m :| m in MatchesIn(rel, content, init, now) && m.pattern == q;
          assert m in MatchesIn(rel, content, ps, now);
        } else {
          assert tail[0] in MatchesIn(rel, content, ps, now);
        }
      }
    }
  }

  /** The patterns of `ps` that occur in `content`, in the order of `ps`. */
  function Contained(content: string, ps: seq<string>): (r: seq<string>)
    ensures |r| <= |ps|
    ensures forall p :: p in r <==> p in ps && Contains(content, p)
  {
    if ps == [] then []
    else
      var init, p := ps[..|ps| - 1], ps[|ps| - 1];
      assert ps == init + [p];
      Contained(content, init) + (if Contains(content, p) then [p] else [])
  }

  /** The matches in one artifact are exactly one per contained pattern,
      in pattern order, each with that pattern's first line. */
  lemma {:induction false} MatchesInContained(rel: string, content: string, ps: seq<string>, now: string)
    ensures var ms, cs := MatchesIn(rel, content, ps, now), Contained(content, ps);
      |ms| == |cs|
      && forall i :: 0 <= i < |ms| ==> ms[i] == Match(cs[i], rel, FirstLine(Split(content, '\n'), cs[i]), now)
  {
    if ps != [] {
      MatchesInContained(rel, content, ps[..|ps| - 1], now);
    }
  }

  /** Match `m` is one that artifact `a` gives: its file can be read and
      contains the match's pattern, whose first line it reports. */
  predicate FoundIn(outDir: string, a: Artifact, ps: seq<string>, files: map<string, string>, now: string, m: Match) {
    && ArtifactPath(outDir, a) in files
    && a.relativePath == m.artifact && m.pattern in ps && m.collectedAt == now
    && Contains(files[ArtifactPath(outDir, a)], m.pattern)
    && m.firstLine == FirstLine(Split(files[ArtifactPath(outDir, a)], '\n'), m.pattern)
  }

  /** Only readable artifacts are counted. */
  lemma {:induction false} ScanAllCounts(outDir: string, arts: seq<Artifact>, ps: seq<string>,
                                         files: map<string, string>, now: string)
    ensures ScanAll(outDir, arts, ps, files, now).1 == |Readable(outDir, arts, files)|
  {
    if arts != [] {
      var init := arts[..|arts| - 1];
      ScanAllCounts(outDir, init, ps, files, now);
    }
  }

  /** At most one match per pattern comes from each artifact read. */
  lemma {:induction false} ScanAllBound(outDir: string, arts: seq<Artifact>, ps: seq<string>,
                                        files: map<string, string>, now: string)
    ensures |ScanAll(outDir, arts, ps, files, now).0| <= ScanAll(outDir, arts, ps, files, now).1 * |ps|
  {
    if arts != [] {
      var init := arts[..|arts| - 1];
      var a := arts[|arts| - 1];
      var path := ArtifactPath(outDir, a);
      ScanAllBound(outDir, init, ps, files, now);
      var before := ScanAll(outDir, init, ps, files, now);
      if path in files {
        var here := MatchesIn(a.relativePath, files[path], ps, now);
        MatchesInLength(a.relativePath, files[path], ps, now);
        assert ScanAll(outDir, arts, ps, files, now) == (before.0 + here, before.1 + 1);
        GrowBound(|before.0|, |here|, before.1, |ps|);
      }
    }
  }

  lemma GrowBound(a: nat, b: nat, n: nat, k: nat)
    requires a <= n * k && b <= k
    ensures a + b <= (n + 1) * k
  {
  }

  /** Every match comes from an artifact whose file contains its
      pattern. */
  lemma {:induction false} ScanAllSound(outDir: string, arts: seq<Artifact>, ps: seq<string>,
                                        files: map<string, string>, now: string)
    ensures forall m :: m in ScanAll(outDir, arts, ps, files, now).0 ==>
      exists a :: a in arts && FoundIn(outDir, a, ps, files, now, m)
  {
    if arts != [] {
      var init := arts[..|arts| - 1];
      var a := arts[|arts| - 1];
      var path := ArtifactPath(outDir, a);
      ScanAllSound(outDir, init, ps, files, now);
      var before := ScanAll(outDir, init, ps, files, now);
      assert forall b :: b in init ==> b in arts;
      if path in files {
        var here := MatchesIn(a.relativePath, files[path], ps, now);
        MatchesInSpec(a.relativePath, files[path], ps, now);
        assert ScanAll(outDir, arts, ps, files, now).0 == before.0 + here;
        forall m | m in here
          ensures FoundIn(outDir, a, ps, files, now, m)
        {
        }
      }
    }
  }

  /** Every pattern found in a readable artifact is reported for it. */
  lemma {:induction false} ScanAllComplete(outDir: string, arts: seq<Artifact>, ps: seq<string>,
                                           files: map<string, string>, now: string)
    ensures forall a, p :: (a in arts && ArtifactPath(outDir, a) in files && p in ps
                           && Contains(files[ArtifactPath(outDir, a)], p)) ==>
      exists m :: m in ScanAll(outDir, arts, ps, files, now).0 && m.artifact == a.relativePath && m.pattern == p
  {
    if arts != [] {
      var init := arts[..|arts| - 1];
      var last := arts[|arts| - 1];
      var path := ArtifactPath(outDir, last);
      ScanAllComplete(outDir, init, ps, files, now);
      var before := ScanAll(outDir, init, ps, files, now);
      var all := ScanAll(outDir, arts, ps, files, now).0;
      assert forall m :: m in before.0 ==> m in all;
      assert arts == init + [last];
      forall a, p | a in arts && ArtifactPath(outDir, a) in files && p in ps
        && Contains(files[ArtifactPath(outDir, a)], p)
        ensures exists m :: m in all && m.artifact == a.relativePath && m.pattern == p
      {
        if a in init {
          var m :| m in before.0 && m.artifact == a.relativePath && m.pattern == p;
          assert m in all;
        } else {
          assert a == last;
          var here := MatchesIn(a.relativePath, files[path], ps, now);
          MatchesInSpec(a.relativePath, files[path], ps, now);
          assert all == before.0 + here;
          var m :| m in here && m.pattern == p;
          assert m in all;
        }
      }
    }
  }

  /** The readable artifacts are those of `arts` whose file can be read. */
  lemma {:induction false} ReadableMembers(outDir: string, arts: seq<Artifact>, files: map<string, string>, a: Artifact)
    ensures a in Readable(outDir, arts, files) <==> a in arts && ArtifactPath(outDir, a) in files
  {
    if arts != [] {
      var init := arts[..|arts| - 1];
      ReadableMembers(outDir, init, files, a);
      assert arts == init + [arts[|arts| - 1]];
    }
  }

  /** A failure to load the patterns is the scan's failure; otherwise the
      result echoes the IOC file, counts the readable artifacts, and has at
      most one match per readable artifact and pattern, each real, and one
      for every pattern a readable artifact contains. */
  lemma ScanSpec(outDir: string, arts: seq<Artifact>, iocFile: string, file: Result<LineFile>,
                 files: map<string, string>, now: string)
    ensures Patterns(file).Err? ==> Scan(outDir, arts, iocFile, file, files, now) == Err(Patterns(file).msg)
    ensures Patterns(file).Ok? ==>
      var res := Scan(outDir, arts, iocFile, file, files, now).value;
      var ps := Patterns(file).value;
      && res.iocFile == iocFile && res.finished == now
      && res.scanned == |Readable(outDir, arts, files)| <= |arts|
      && |res.matches| <= res.scanned * |ps|
      && (forall m :: m in res.matches ==> exists a :: a in arts && FoundIn(outDir, a, ps, files, now, m))
      && forall a, p :: (a in arts && ArtifactPath(outDir, a) in files && p in ps
                         && Contains(files[ArtifactPath(outDir, a)], p)) ==>
        exists m :: m in res.matches && m.artifact == a.relativePath && m.pattern == p
  {
    if Patterns(file).Ok? {
      var ps := Patterns(file).value;
      ScanAllCounts(outDir, arts, ps, files, now);
      ScanAllBound(outDir, arts, ps, files, now);
      ScanAllSound(outDir, arts, ps, files, now);
      ScanAllComplete(outDir, arts, ps, files, now);
      ReadableLength(outDir, arts, files);
    }
  }

  lemma {:induction false} ReadableLength(outDir: string, arts: seq<Artifact>, files: map<string, string>)
    ensures |Readable(outDir, arts, files)| <= |arts|
  {
    if arts != [] {
      ReadableLength(outDir, arts[..|arts| - 1], files);
    }
  }
}
