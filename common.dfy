/** Vocabulary shared by every component: optional values and results, the
    64-bit integers of Go, the string primitives of Go's `strings` package
    that the core relies on, and the decimal rendering of integers. */
module Common {

  datatype Option<T> = None | Some(value: T)

  /** An operation that either yields a value or fails with Go's error text. */
  datatype Result<T> = Ok(value: T) | Err(msg: string)

  const MinInt64: int := -0x8000_0000_0000_0000
  const MaxInt64: int := 0x7fff_ffff_ffff_ffff

  /** Go's `int64`, and also Go's `int` on the 64-bit hosts the tool targets. */
  newtype int64 = x: int | -0x8000_0000_0000_0000 <= x < 0x8000_0000_0000_0000

  // ---------------------------------------------------------------------
  // Whitespace and trimming
  // ---------------------------------------------------------------------

  /** Go's `unicode.IsSpace`: the Latin-1 spaces and the Unicode White_Space
      characters beyond Latin-1. */
  predicate IsSpace(c: char) {
    c == ' ' || ('\t' <= c <= '\r') || c == '\U{0085}' || c == '\U{00A0}'
    || c == '\U{1680}' || ('\U{2000}' <= c <= '\U{200A}') || c == '\U{2028}'
    || c == '\U{2029}' || c == '\U{202F}' || c == '\U{205F}' || c == '\U{3000}'
  }

  predicate IsSlash(c: char) { c == '/' }

  /** Drops the leading characters that satisfy `drop` (see
      `TrimLeftFacts`). */
  function TrimLeft(s: string, drop: char -> bool): (r: string)
    ensures |r| <= |s|
  {
    if s != [] && drop(s[0]) then TrimLeft(s[1..], drop) else s
  }

  /** Drops the trailing characters that satisfy `drop` (see
      `TrimRightFacts`). */
  function TrimRight(s: string, drop: char -> bool): (r: string)
    ensures |r| <= |s|
  {
    if s != [] && drop(s[|s| - 1]) then TrimRight(s[..|s| - 1], drop) else s
  }

  /** Go's `strings.Trim`/`strings.TrimFunc` (see `TrimInfix`). */
  function Trim(s: string, drop: char -> bool): (r: string)
    ensures |r| <= |s|
  {
    TrimRight(TrimLeft(s, drop), drop)
  }

  /** `TrimLeft` keeps a suffix that does not start with a dropped
      character, and what it cuts off consists of dropped characters. */
  lemma {:induction false} TrimLeftFacts(s: string, drop: char -> bool)
    ensures var r := TrimLeft(s, drop);
      r == s[|s| - |r|..] && (r == [] || !drop(r[0]))
      && forall i :: 0 <= i < |s| - |r| ==> drop(s[i])
    decreases |s|
  {
    if s != [] && drop(s[0]) {
      TrimLeftFacts(s[1..], drop);
      assert forall i :: 1 <= i < |s| - |TrimLeft(s, drop)| ==> s[i] == s[1..][i - 1];
    }
  }

  /** `TrimRight` keeps a prefix that does not end with a dropped
      character, and what it cuts off consists of dropped characters. */
  lemma {:induction false} TrimRightFacts(s: string, drop: char -> bool)
    ensures var r := TrimRight(s, drop);
      r == s[..|r|] && (r == [] || !drop(r[|r| - 1]))
      && forall i :: |r| <= i < |s| ==> drop(s[i])
    decreases |s|
  {
    if s != [] && drop(s[|s| - 1]) {
      TrimRightFacts(s[..|s| - 1], drop);
    }
  }

  /** The trimmed string is the infix of `s` between two runs of dropped
      characters, and neither of its ends is a dropped character. */
  lemma TrimInfix(s: string, drop: char -> bool)
    ensures var a := |s| - |TrimLeft(s, drop)|;
      var r := Trim(s, drop);
      a + |r| <= |s| && r == s[a..a + |r|]
      && (r == [] || (!drop(r[0]) && !drop(r[|r| - 1])))
      && (forall i :: 0 <= i < a ==> drop(s[i]))
      && (forall i :: a + |r| <= i < |s| ==> drop(s[i]))
  {
    var l := TrimLeft(s, drop);
    var a := |s| - |l|;
    var r := TrimRight(l, drop);
    TrimLeftFacts(s, drop);
    TrimRightFacts(l, drop);
    assert r == s[a..a + |r|] by {
      assert l == s[a..];
      assert r == l[..|r|];
    }
    forall i | a + |r| <= i < |s|
      ensures drop(s[i])
    {
      assert s[i] == l[i - a];
    }
  }

  /** Go's `strings.TrimSpace`. */
  function TrimSpace(s: string): string {
    Trim(s, IsSpace)
  }

  /** Trimming an already trimmed string changes nothing. */
  lemma TrimIdempotent(s: string, drop: char -> bool)
    ensures Trim(Trim(s, drop), drop) == Trim(s, drop)
  {
    var t := Trim(s, drop);
    TrimInfix(s, drop);
    if t != [] {
      assert TrimLeft(t, drop) == t;
      assert TrimRight(t, drop) == t;
    }
  }

  /** A string trims to nothing exactly when all of it is dropped. */
  lemma TrimEmptyIff(s: string, drop: char -> bool)
    ensures Trim(s, drop) == [] <==> forall i :: 0 <= i < |s| ==> drop(s[i])
  {
    var l := TrimLeft(s, drop);
    TrimLeftFacts(s, drop);
    TrimRightFacts(l, drop);
    assert forall i :: 0 <= i < |l| ==> l[i] == s[|s| - |l| + i];
  }

  /** The pieces that are not blank once trimmed, trimmed, in order. */
  function TrimmedNonBlank(pieces: seq<string>): seq<string> {
    if pieces == [] then []
    else
      var p := TrimSpace(pieces[|pieces| - 1]);
      TrimmedNonBlank(pieces[..|pieces| - 1]) + (if p == "" then [] else [p])
  }

  lemma TrimmedNonBlankStep(pieces: seq<string>, i: int)
    requires 0 <= i < |pieces|
    ensures TrimmedNonBlank(pieces[..i + 1])
      == TrimmedNonBlank(pieces[..i]) + (if TrimSpace(pieces[i]) == "" then [] else [TrimSpace(pieces[i])])
  {
    assert pieces[..i + 1][..i] == pieces[..i];
  }

  /** A string is exactly the trimmed, non-blank form of some piece. */
  lemma {:induction false} TrimmedNonBlankMembers(pieces: seq<string>, x: string)
    ensures x in TrimmedNonBlank(pieces) <==> x != "" && exists i :: 0 <= i < |pieces| && TrimSpace(pieces[i]) == x
  {
    if pieces != [] {
      var init := pieces[..|pieces| - 1];
      var t := TrimSpace(pieces[|pieces| - 1]);
      var tail: seq<string> := if t == "" then [] else [t];
      TrimmedNonBlankMembers(init, x);
      assert TrimmedNonBlank(pieces) == TrimmedNonBlank(init) + tail;
      assert x in tail <==> x != "" && t == x;
      assert forall i :: 0 <= i < |init| ==> init[i] == pieces[i];
    }
  }

  /** Not blank, nothing left to trim, and free of `c`. */
  predicate Clean(p: string, c: char) {
    p != "" && TrimSpace(p) == p && c !in p
  }

  /** When no piece holds `c`, every kept piece is clean. */
  lemma {:induction false} TrimmedNonBlankClean(pieces: seq<string>, c: char)
    requires forall k :: 0 <= k < |pieces| ==> c !in pieces[k]
    ensures forall k :: 0 <= k < |TrimmedNonBlank(pieces)| ==> Clean(TrimmedNonBlank(pieces)[k], c)
  {
    if pieces != [] {
      var init := pieces[..|pieces| - 1];
      TrimmedNonBlankClean(init, c);
      var raw := pieces[|pieces| - 1];
      CleanPiece(raw, c);
      assert TrimmedNonBlank(pieces)
        == TrimmedNonBlank(init) + (if TrimSpace(raw) == "" then [] else [TrimSpace(raw)]);
    }
  }

  lemma CleanPiece(raw: string, c: char)
    requires c !in raw
    ensures TrimSpace(raw) != "" ==> Clean(TrimSpace(raw), c)
  {
    TrimIdempotent(raw, IsSpace);
    TrimmedKeepsOut(raw, c);
  }

  /** Trimming never introduces a character. */
  lemma TrimmedKeepsOut(s: string, c: char)
    requires c !in s
    ensures c !in TrimSpace(s)
  {
    TrimInfix(s, IsSpace);
  }

  // ---------------------------------------------------------------------
  // Prefixes, suffixes, substrings
  // ---------------------------------------------------------------------

  /** Go's `strings.HasPrefix`. */
  predicate HasPrefix(s: string, p: string) {
    |p| <= |s| && s[..|p|] == p
  }

  /** Go's `strings.HasSuffix`. */
  predicate HasSuffix(s: string, p: string) {
    |p| <= |s| && s[|s| - |p|..] == p
  }

  /** `p` occurs in `s` starting at index `i`. */
  predicate OccursAt(s: string, p: string, i: int) {
    0 <= i && i + |p| <= |s| && s[i..i + |p|] == p
  }

  /** Go's `strings.Contains`. */
  predicate Contains(s: string, p: string) {
    exists i :: 0 <= i <= |s| && OccursAt(s, p, i)
  }

  /** An occurrence inside a slice is an occurrence in the whole string. */
  lemma OccursInSlice(s: string, lo: int, hi: int, p: string, i: int)
    requires 0 <= lo <= hi <= |s|
    requires OccursAt(s[lo..hi], p, i)
    ensures OccursAt(s, p, lo + i)
  {
    assert forall k :: 0 <= k < |p| ==> p[k] == s[lo..hi][i + k] == s[lo + i + k];
    assert s[lo + i..lo + i + |p|] == s[lo..hi][i..i + |p|];
  }

  // ---------------------------------------------------------------------
  // Splitting and joining on one separator character
  // ---------------------------------------------------------------------

  /** The index of the first `c` in `s`. */
  function IndexOf(s: string, c: char): (k: nat)
    requires c in s
    ensures k < |s| && s[k] == c && c !in s[..k]
  {
    if s[0] == c then 0 else 1 + IndexOf(s[1..], c)
  }

  /** Go's `strings.Join` with a one-character separator. */
  function Join(parts: seq<string>, sep: char): string {
    if parts == [] then ""
    else if |parts| == 1 then parts[0]
    else parts[0] + [sep] + Join(parts[1..], sep)
  }

  /** Go's `strings.Split` with a one-character separator: the pieces
      between consecutive separators, in order. */
  function Split(s: string, sep: char): (r: seq<string>)
    ensures |r| >= 1
    decreases |s|
  {
    if sep !in s then [s]
    else
      var k := IndexOf(s, sep);
      [s[..k]] + Split(s[k + 1..], sep)
  }

  /** No piece holds a separator, and joining the pieces with it gives
      back the original string. */
  lemma {:induction false} SplitSpec(s: string, sep: char)
    ensures forall i :: 0 <= i < |Split(s, sep)| ==> sep !in Split(s, sep)[i]
    ensures Join(Split(s, sep), sep) == s
    decreases |s|
  {
    if sep in s {
      var k := IndexOf(s, sep);
      var rest := Split(s[k + 1..], sep);
      SplitSpec(s[k + 1..], sep);
      var r := [s[..k]] + rest;
      assert r[0] == s[..k] && r[1..] == rest;
      assert s == s[..k] + [sep] + s[k + 1..];
    }
  }

  /** A string without the separator is one piece. */
  lemma SplitWhole(s: string, sep: char)
    requires sep !in s
    ensures Split(s, sep) == [s]
  {
  }

  /** A separator after a separator-free prefix is the first one. */
  lemma {:induction false} IndexOfAfter(a: string, sep: char, b: string)
    requires sep !in a
    ensures sep in a + [sep] + b && IndexOf(a + [sep] + b, sep) == |a|
  {
    var s := a + [sep] + b;
    assert s[|a|] == sep;
    if a != [] {
      assert s[1..] == a[1..] + [sep] + b;
      IndexOfAfter(a[1..], sep, b);
    }
  }

  /** Splitting at a first separator peels off the piece before it. */
  lemma SplitAfter(a: string, sep: char, b: string)
    requires sep !in a
    ensures Split(a + [sep] + b, sep) == [a] + Split(b, sep)
  {
    var s := a + [sep] + b;
    IndexOfAfter(a, sep, b);
    assert s[..|a|] == a;
    assert s[|a| + 1..] == b;
  }

  /** Splitting undoes joining pieces that hold no separator. */
  lemma {:induction false} SplitJoin(parts: seq<string>, sep: char)
    requires |parts| >= 1
    requires forall i :: 0 <= i < |parts| ==> sep !in parts[i]
    ensures Split(Join(parts, sep), sep) == parts
  {
    if |parts| == 1 {
      SplitWhole(parts[0], sep);
    } else {
      SplitJoin(parts[1..], sep);
      SplitAfter(parts[0], sep, Join(parts[1..], sep));
    }
  }

  /** An occurrence of a separator-free string does not cover a separator. */
  lemma OccurrenceAvoids(s: string, sep: char, p: string, i: int, k: int)
    requires sep !in p
    requires OccursAt(s, p, i)
    requires 0 <= k < |s| && s[k] == sep
    ensures i + |p| <= k || k < i
  {
  }

  /** An occurrence that ends by `k` is one in the first `k` characters. */
  lemma OccursInPrefix(s: string, p: string, i: int, k: int)
    requires OccursAt(s, p, i) && i + |p| <= k <= |s|
    ensures OccursAt(s[..k], p, i)
  {
    assert s[..k][i..i + |p|] == s[i..i + |p|];
  }

  /** An occurrence that starts at `a` or later is one in `s[a..]`. */
  lemma OccursInSuffix(s: string, p: string, i: int, a: int)
    requires OccursAt(s, p, i) && 0 <= a <= i
    ensures OccursAt(s[a..], p, i - a)
  {
    assert s[a..][i - a..i - a + |p|] == s[i..i + |p|];
  }

  /** Where an occurrence in `s` of a string without separators lies once
      `s` is split: the piece `j`, at offset `q`. */
  lemma {:induction false} PieceOfOccurrence(s: string, sep: char, p: string, i: int) returns (j: nat, q: nat)
    requires sep !in p
    requires OccursAt(s, p, i)
    ensures j < |Split(s, sep)| && OccursAt(Split(s, sep)[j], p, q)
    decreases |s|
  {
    if sep !in s {
      assert Split(s, sep) == [s];
      j, q := 0, i;
    } else {
      var k := IndexOf(s, sep);
      OccurrenceAvoids(s, sep, p, i, k);
      if i + |p| <= k {
        OccursInPrefix(s, p, i, k);
        assert Split(s, sep)[0] == s[..k];
        j, q := 0, i;
      } else {
        OccursInSuffix(s, p, i, k + 1);
        var j', q' := PieceOfOccurrence(s[k + 1..], sep, p, i - k - 1);
        SplitLater(s, sep, j');
        j, q := j' + 1, q';
      }
    }
  }

  /** The pieces after the first separator are the rest's pieces. */
  lemma SplitLater(s: string, sep: char, j: nat)
    requires sep in s && j < |Split(s[IndexOf(s, sep) + 1..], sep)|
    ensures j + 1 < |Split(s, sep)| && Split(s, sep)[j + 1] == Split(s[IndexOf(s, sep) + 1..], sep)[j]
  {
  }

  /** Any occurrence in `s` of a string without separators lies inside one
      of the pieces `Split` cuts `s` into. */
  lemma OccurrenceInSomePiece(s: string, sep: char, p: string, i: int)
    requires sep !in p
    requires OccursAt(s, p, i)
    ensures exists j :: 0 <= j < |Split(s, sep)| && Contains(Split(s, sep)[j], p)
  {
    var j, q := PieceOfOccurrence(s, sep, p, i);
    assert Contains(Split(s, sep)[j], p);
  }

  // ---------------------------------------------------------------------
  // Booleans
  // ---------------------------------------------------------------------

  /** The spelling of a flag value in metadata and on a command line. */
  function BoolString(b: bool): (r: string)
    ensures r == "true" || r == "false"
    ensures (r == "true") == b
  {
    if b then "true" else "false"
  }

  // ---------------------------------------------------------------------
  // Paths (already clean, slash-separated)
  // ---------------------------------------------------------------------

  /** Go's `filepath.Join` of two clean elements: an empty element is
      skipped, otherwise the two are separated by one slash. */
  function JoinPath(a: string, b: string): (r: string)
    ensures a == "" ==> r == b
    ensures b == "" ==> r == a
    ensures a != "" && b != "" ==> HasPrefix(r, a + "/") && r[|a| + 1..] == b
  {
    if a == "" then b else if b == "" then a else a + "/" + b
  }

  /** Everything after the last slash of `s` (all of `s` if it has none). */
  function AfterLastSlash(s: string): (r: string)
    ensures '/' !in r && HasSuffix(s, r)
    ensures |r| < |s| ==> s[|s| - |r| - 1] == '/'
  {
    if s == [] then []
    else if s[|s| - 1] == '/' then []
    else AfterLastSlash(s[..|s| - 1]) + [s[|s| - 1]]
  }

  /** Go's `filepath.Base` on a clean path: "." for the empty path, "/" for
      a path of slashes only, otherwise the last element, trailing slashes
      ignored. */
  function Base(p: string): (r: string)
    ensures r != ""
    ensures r == "/" || '/' !in r
  {
    if p == "" then "."
    else
      var q := TrimRight(p, IsSlash);
      TrimRightFacts(p, IsSlash);
      if q == "" then "/" else AfterLastSlash(q)
  }

  /** A name without slashes is its own base name. */
  lemma BaseOfPlainName(name: string)
    ensures name != "" && '/' !in name ==> Base(name) == name
  {
    if name != "" && '/' !in name {
      assert TrimRight(name, IsSlash) == name by {
        assert !IsSlash(name[|name| - 1]);
      }
      PlainNameAfterLastSlash(name);
    }
  }

  lemma {:induction false} PlainNameAfterLastSlash(s: string)
    requires '/' !in s
    ensures AfterLastSlash(s) == s
  {
    if s != [] {
      PlainNameAfterLastSlash(s[..|s| - 1]);
    }
  }

  // ---------------------------------------------------------------------
  // Sequences
  // ---------------------------------------------------------------------

  function Reverse<T>(s: seq<T>): (r: seq<T>)
    ensures |r| == |s|
    ensures forall k :: 0 <= k < |s| ==> r[k] == s[|s| - 1 - k]
  {
    if s == [] then [] else Reverse(s[1..]) + [s[0]]
  }

  // ---------------------------------------------------------------------
  // Decimal rendering of integers
  // ---------------------------------------------------------------------

  predicate IsDigit(c: char) { '0' <= c <= '9' }

  function DigitChar(d: int): (c: char)
    requires 0 <= d < 10
    ensures IsDigit(c)
  {
    ('0' as int + d) as char
  }

  function DigitValue(c: char): (d: nat)
    requires IsDigit(c)
    ensures d < 10 && DigitChar(d) == c
  {
    (c as int - '0' as int) as nat
  }

  /** The decimal digits of `n`, most significant first. */
  function Digits(n: nat): (r: string)
    ensures |r| >= 1
    ensures forall k :: 0 <= k < |r| ==> IsDigit(r[k])
  {
    if n < 10 then [DigitChar(n)] else Digits(n / 10) + [DigitChar(n % 10)]
  }

  /** The decimal text of `i`: a leading `-` for negatives, then the digits
      of the magnitude. */
  function Decimal(i: int): string {
    if i < 0 then "-" + Digits(-i) else Digits(i)
  }

  /** The value of a non-empty string of decimal digits. */
  function DigitsValue(s: string): nat
    requires forall k :: 0 <= k < |s| ==> IsDigit(s[k])
  {
    if s == [] then 0 else DigitsValue(s[..|s| - 1]) * 10 + DigitValue(s[|s| - 1])
  }

  /** Reads a decimal integer written the way `Decimal` writes one. */
  function ParseDecimal(s: string): Option<int> {
    if s == [] then None
    else if s[0] == '-' then
      if |s| > 1 && forall k :: 1 <= k < |s| ==> IsDigit(s[k]) then Some(-(DigitsValue(s[1..]) as int)) else None
    else if forall k :: 0 <= k < |s| ==> IsDigit(s[k]) then Some(DigitsValue(s))
    else None
  }

  lemma {:induction false} DigitsValueOfDigits(n: nat)
    ensures DigitsValue(Digits(n)) == n
  {
    var d := Digits(n);
    if n >= 10 {
      DigitsValueOfDigits(n / 10);
      assert d[..|d| - 1] == Digits(n / 10);
    }
  }

  /** Only zero is written with a leading zero, and then as "0" alone. */
  lemma {:induction false} DigitsNoLeadingZero(n: nat)
    ensures Digits(n)[0] == '0' <==> n == 0
    ensures n == 0 ==> Digits(n) == "0"
  {
    if n >= 10 {
      DigitsNoLeadingZero(n / 10);
    }
  }

  /** `Decimal` and `ParseDecimal` are inverse on all integers. */
  lemma DecimalRoundTrip(i: int)
    ensures ParseDecimal(Decimal(i)) == Some(i)
  {
    var t := Decimal(i);
    if i < 0 {
      var d := Digits(-i);
      assert t == "-" + d;
      assert t[1..] == d;
      assert forall k :: 1 <= k < |t| ==> IsDigit(t[k]) by {
        forall k | 1 <= k < |t| ensures IsDigit(t[k]) {
          assert t[k] == d[k - 1];
        }
      }
      DigitsValueOfDigits(-i);
    } else {
      assert t == Digits(i);
      assert IsDigit(t[0]);
      DigitsValueOfDigits(i);
    }
  }

  /** Every integer has exactly one decimal text. */
  lemma DecimalInjective(i: int, j: int)
    requires Decimal(i) == Decimal(j)
    ensures i == j
  {
    DecimalRoundTrip(i);
    DecimalRoundTrip(j);
  }

  /** A magnitude below 10^k, k >= 1, has at most k digits. */
  lemma {:induction false} DigitsLength(n: nat, k: nat)
    requires k >= 1 && n < Pow10(k)
    ensures |Digits(n)| <= k
  {
    if n >= 10 {
      assert Pow10(k) == 10 * Pow10(k - 1);
      DigitsLength(n / 10, k - 1);
    }
  }

  function Pow10(k: nat): nat { if k == 0 then 1 else 10 * Pow10(k - 1) }

  lemma Pow10Step(k: nat)
    ensures Pow10(k + 1) == 10 * Pow10(k)
  {
  }

  function Abs(x: int): nat { if x < 0 then -x else x }

  /** 10^19 exceeds every int64 magnitude. */
  lemma Int64MagnitudeBound(x: int64)
    ensures Abs(x as int) < Pow10(19)
  {
    assert Pow10(1) == 10;
    assert Pow10(2) == 100;
    assert Pow10(3) == 1000;
    assert Pow10(4) == 10000;
    assert Pow10(5) == 100000;
    assert Pow10(6) == 1000000;
    assert Pow10(7) == 10000000;
    assert Pow10(8) == 100000000;
    assert Pow10(9) == 1000000000;
    assert Pow10(10) == 10000000000;
    assert Pow10(11) == 100000000000;
    assert Pow10(12) == 1000000000000;
    assert Pow10(13) == 10000000000000;
    assert Pow10(14) == 100000000000000;
    assert Pow10(15) == 1000000000000000;
    assert Pow10(16) == 10000000000000000;
    assert Pow10(17) == 100000000000000000;
    assert Pow10(18) == 1000000000000000000;
    assert Pow10(19) == 10000000000000000000;
  }

  /** The decimal text of an int64, built the way the source builds it:
      digits least significant first into a 24-byte buffer, then the sign,
      then an in-place reversal. Unlike the loop as written (see
      `FormatAsWritten`), a negative value is never negated: each digit is
      taken from the truncated remainder of the negative value itself, so
      the minimum of int64 is rendered too. */
  method FormatDecimal(i: int64) returns (s: string)
    ensures s == Decimal(i as int)
  {
    var b := new char[24];
    var n := PushDigits(i, b);
    ghost var sign := if i < 0 then "-" else "";
    if i < 0 {
      b[n] := '-';
      assert b[..n + 1] == b[..n] + "-";
      n := n + 1;
    }
    assert b[..n] == DigitsLowFirst(i as int) + sign;
    ReverseInPlace(b, n);
    s := b[..n];
    SignedText(i as int);
  }

  /** Reversing the low-first digits followed by the sign gives the
      decimal text. */
  lemma SignedText(i: int)
    ensures Reverse(DigitsLowFirst(i) + (if i < 0 then "-" else "")) == Decimal(i)
  {
    var digits := Digits(Abs(i));
    var sign := if i < 0 then "-" else "";
    DigitsLowFirstReversed(i);
    ReverseAppend(Reverse(digits), sign);
    ReverseReverse(digits);
    assert Reverse(sign) == sign;
  }

  /** The digits of |i|, least significant first, taken the corrected way:
      the magnitude of Go's truncated remainder by ten, then the truncated
      quotient, until that quotient is zero. */
  function DigitsLowFirst(i: int): (r: string)
    ensures |r| >= 1
    decreases Abs(i)
  {
    var c := DigitChar(Abs(GoRem(i, 10)));
    var q := GoQuo(i, 10);
    if q == 0 then [c] else [c] + DigitsLowFirst(q)
  }

  /** Whatever the sign, the corrected digit loop yields the decimal digits
      of the magnitude, least significant first. */
  lemma {:induction false} DigitsLowFirstReversed(i: int)
    ensures DigitsLowFirst(i) == Reverse(Digits(Abs(i)))
    decreases Abs(i)
  {
    var x := Abs(i);
    GoDigit(i);
    var c := DigitChar(x % 10);
    DigitsSplit(x);
    if x >= 10 {
      DigitsLowFirstReversed(GoQuo(i, 10));
      ReversePush(Digits(x / 10), c);
    }
  }

  /** An int64 has at most 19 digits. */
  lemma DigitsLowFirstLength(v: int64)
    ensures |DigitsLowFirst(v as int)| <= 19
  {
    Int64MagnitudeBound(v);
    DigitsLength(Abs(v as int), 19);
    DigitsLowFirstReversed(v as int);
  }

  /** The digit loop: writes the digits of |v|, least significant first,
      to the start of `b` and returns how many it wrote (at most 19, so
      there is always room left for a sign). */
  method PushDigits(v: int64, b: array<char>) returns (n: nat)
    requires b.Length == 24
    modifies b
    ensures n < 24 && b[..n] == DigitsLowFirst(v as int)
  {
    n := 0;
    var w: int := v as int;
    ghost var all := DigitsLowFirst(v as int);
    ghost var acc: string := [];
    DigitsLowFirstLength(v);
    while true
      invariant |all| <= 19 && n == |acc| <= |all|
      invariant b[..n] == acc
      invariant (acc == [] && w == v as int) || (w != 0 && acc + DigitsLowFirst(w) == all)
      decreases Abs(w)
    {
      DigitTurn(acc, w, all);
      GoDigit(w);
      var d := GoRem(w, 10);
      var digit := if d < 0 then -d else d;
      b[n] := DigitChar(digit);
      acc := acc + [b[n]];
      n := n + 1;
      w := GoQuo(w, 10);
      if w == 0 {
        break;
      }
    }
  }

  /** One turn of the digit loop: the written digits plus the digits still
      to come stay the whole digit string. */
  lemma DigitTurn(acc: string, w: int, all: string)
    requires (acc == [] && all == DigitsLowFirst(w)) || (w != 0 && acc + DigitsLowFirst(w) == all)
    ensures |acc| < |all|
    ensures var c := DigitChar(Abs(GoRem(w, 10)));
      if GoQuo(w, 10) == 0 then acc + [c] == all
      else acc + [c] + DigitsLowFirst(GoQuo(w, 10)) == all
  {
    var c := DigitChar(Abs(GoRem(w, 10)));
    assert acc + DigitsLowFirst(w) == all;
    if GoQuo(w, 10) != 0 {
      assert DigitsLowFirst(w) == [c] + DigitsLowFirst(GoQuo(w, 10));
      assert acc + [c] + DigitsLowFirst(GoQuo(w, 10)) == acc + ([c] + DigitsLowFirst(GoQuo(w, 10)));
    }
  }

  /** Go's truncated remainder and quotient by ten give the last digit and
      the tenth of the magnitude, whatever the sign. */
  lemma GoDigit(w: int)
    ensures Abs(GoRem(w, 10)) == Abs(w) % 10
    ensures Abs(GoQuo(w, 10)) == Abs(w) / 10
    ensures (GoQuo(w, 10) == 0) == (Abs(w) < 10)
  {
  }

  /** The digits of a number are the digits of its tenth followed by its
      last digit (for numbers with more than one digit). */
  lemma DigitsSplit(x: nat)
    ensures x >= 10 ==> Digits(x) == Digits(x / 10) + [DigitChar(x % 10)]
    ensures x < 10 ==> Digits(x) == [DigitChar(x % 10)]
  {
  }

  lemma ReversePush<T>(s: seq<T>, x: T)
    ensures Reverse(s + [x]) == [x] + Reverse(s)
  {
    ReverseAppend(s, [x]);
  }

  /** Reverses the first `n` elements of `a` in place, swapping from both
      ends towards the middle. */
  method ReverseInPlace(a: array<char>, n: int)
    requires 0 <= n <= a.Length
    modifies a
    ensures a[..n] == Reverse(old(a[..n]))
    ensures a[n..] == old(a[n..])
  {
    ghost var was := a[..n];
    var l, r := 0, n - 1;
    while l < r
      invariant 0 <= l <= n && r == n - 1 - l
      invariant l <= r + 2
      invariant forall k :: 0 <= k < l ==> a[k] == was[n - 1 - k] && a[n - 1 - k] == was[k]
      invariant forall k :: l <= k < n - l ==> a[k] == was[k]
      invariant a[n..] == old(a[n..])
    {
      a[l], a[r] := a[r], a[l];
      l, r := l + 1, r - 1;
    }
    assert forall k :: 0 <= k < n ==> a[k] == was[n - 1 - k];
  }

  // ---------------------------------------------------------------------
  // The decimal loop of the source, as written, on int64
  // ---------------------------------------------------------------------

  /** Go's `%` on integers: the remainder takes the sign of the dividend. */
  function GoRem(a: int, b: int): int
    requires b > 0
  {
    if a >= 0 then a % b else -((-a) % b)
  }

  /** Go's `/` on integers: the quotient is truncated toward zero. */
  function GoQuo(a: int, b: int): int
    requires b > 0
  {
    if a >= 0 then a / b else -((-a) / b)
  }

  /** Go's `-i` on int64, which wraps around at the minimum. */
  function Neg64(i: int64): int64 {
    if i as int == MinInt64 then i else -i
  }

  /** Go's `byte(x)` conversion, which keeps the low eight bits. */
  function ByteChar(x: int): char {
    (x % 256) as char
  }

  /** The characters the source's digit loop appends, in append order:
      the byte of '0' plus the truncated remainder by ten, then the
      truncated quotient, until that quotient is zero. */
  function DigitLoop(i: int): (r: string)
    ensures |r| >= 1
    decreases if i >= 0 then i else -i
  {
    var c := ByteChar('0' as int + GoRem(i, 10));
    var q := GoQuo(i, 10);
    if q == 0 then [c] else [c] + DigitLoop(q)
  }

  /** The rendering that `int64ToString` and `fmtInt` compute as written:
      negate when negative (wrapping on int64), run the digit loop, append
      the sign, reverse. */
  function FormatAsWritten(i: int64): string {
    var neg := i < 0;
    var m := if neg then Neg64(i) else i;
    Reverse(DigitLoop(m as int) + (if neg then "-" else ""))
  }

  /** On a non-negative value the digit loop appends exactly the decimal
      digits, least significant first. */
  lemma {:induction false} DigitLoopOfNatural(n: nat)
    ensures DigitLoop(n) == Reverse(Digits(n))
  {
    if n >= 10 {
      DigitLoopOfNatural(n / 10);
      var c := DigitChar(n % 10);
      assert Digits(n) == Digits(n / 10) + [c];
      assert Reverse(Digits(n)) == [c] + Reverse(Digits(n / 10)) by {
        ReverseAppend(Digits(n / 10), [c]);
      }
    } else {
      assert DigitLoop(n) == [DigitChar(n)];
    }
  }

  lemma ReverseAppend<T>(a: seq<T>, b: seq<T>)
    ensures Reverse(a + b) == Reverse(b) + Reverse(a)
  {
  }

  lemma ReverseReverse<T>(s: seq<T>)
    ensures Reverse(Reverse(s)) == s
  {
  }

  /** The sign handling of the loop as written, on both signs. */
  lemma FormatAsWrittenBySign(i: int64)
    ensures i >= 0 ==> FormatAsWritten(i) == Reverse(DigitLoop(i as int))
    ensures i < 0 ==> FormatAsWritten(i) == Reverse(DigitLoop(Neg64(i) as int) + "-")
  {
    if i >= 0 {
      assert DigitLoop(i as int) + "" == DigitLoop(i as int);
    }
  }

  /** Everywhere except at the minimum of int64 the loop as written renders
      the decimal text. */
  lemma AsWrittenAgreesAwayFromMin(i: int64)
    requires i as int != MinInt64
    ensures FormatAsWritten(i) == Decimal(i as int)
  {
    var v := i as int;
    FormatAsWrittenBySign(i);
    if v < 0 {
      var d := Digits(-v);
      assert Neg64(i) as int == -v;
      DigitLoopOfNatural(-v);
      ReverseAppend(Reverse(d), "-");
      ReverseReverse(d);
      assert Reverse("-") == "-";
    } else {
      DigitLoopOfNatural(v);
      ReverseReverse(Digits(v));
    }
  }

  lemma DigitLoopHead(i: int)
    ensures DigitLoop(i)[0] == ByteChar('0' as int + GoRem(i, 10))
  {
  }

  lemma LastOfReverse<T>(s: seq<T>)
    requires s != []
    ensures Reverse(s)[|s| - 1] == s[0]
  {
  }

  /** The decimal text of a negative number ends in the last digit of its
      magnitude. */
  lemma DecimalLastDigit(v: int)
    requires v <= -10
    ensures Decimal(v)[|Decimal(v)| - 1] == DigitChar((-v) % 10)
  {
    var n: nat := -v;
    assert Decimal(v) == "-" + Digits(n);
  }

  /** When negation wraps (only at the minimum), the last character of
      the text as written is the byte for the first, negative, remainder. */
  lemma LastCharWhenNegationWraps(i: int64) returns (c: char)
    requires i < 0 && Neg64(i) == i
    ensures c == ByteChar('0' as int + GoRem(i as int, 10))
    ensures FormatAsWritten(i) != [] && FormatAsWritten(i)[|FormatAsWritten(i)| - 1] == c
  {
    var b := DigitLoop(i as int) + "-";
    FormatAsWrittenBySign(i);
    DigitLoopHead(i as int);
    LastOfReverse(b);
    c := b[0];
  }

  lemma MinInt64Facts(i: int64)
    requires i as int == MinInt64
    ensures i < 0 && Neg64(i) == i && GoRem(i as int, 10) == -8
    ensures i as int <= -10 && (-(i as int)) % 10 == 8
  {
  }

  lemma WrappedLastChar(i: int64)
    requires i < 0 && Neg64(i) == i && GoRem(i as int, 10) == -8
    ensures FormatAsWritten(i) != []
    ensures FormatAsWritten(i)[|FormatAsWritten(i)| - 1] == ByteChar('0' as int - 8)
  {
    var c := LastCharWhenNegationWraps(i);
  }

  lemma ByteBelowZero()
    ensures ByteChar('0' as int - 8) == '('
  {
  }

  /** At the minimum of int64 the negation wraps, the remainders are
      negative and the first byte appended is '(' (that is, '0' - 8): the
      text as written ends in '(' where the decimal text ends in '8'. */
  lemma AsWrittenGarblesMin(i: int64)
    requires i as int == MinInt64
    ensures FormatAsWritten(i) != [] && FormatAsWritten(i)[|FormatAsWritten(i)| - 1] == '('
    ensures Decimal(i as int)[|Decimal(i as int)| - 1] == '8'
    ensures FormatAsWritten(i) != Decimal(i as int)
  {
    MinInt64Facts(i);
    WrappedLastChar(i);
    ByteBelowZero();
    DecimalLastDigit(i as int);
  }
}
