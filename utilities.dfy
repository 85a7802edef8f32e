/**
 * The string helpers of src/utilities.hpp: `split`, `strip`, `contains` and
 * `const_string_length`, with the library searches they rely on
 * (`std::string::find`, `std::find`) written out as functions.
 */
module Utilities {
  import opened Wrappers

  /** `std::isspace` in the "C" locale. */
  predicate IsSpace(c: char) {
    c == ' ' || c == '\t' || c == '\n' || c == '\U{0B}' || c == '\U{0C}' || c == '\r'
  }

  predicate IsDigit(c: char) {
    '0' <= c <= '9'
  }

  predicate AllDigits(s: string) {
    forall i :: 0 <= i < |s| ==> IsDigit(s[i])
  }

  /** The number a string of decimal digits spells. */
  function DigitsValue(s: string): nat
    requires AllDigits(s)
  {
    if s == [] then 0 else DigitsValue(s[..|s| - 1]) * 10 + (s[|s| - 1] as int - '0' as int)
  }

  function Pow10(n: nat): nat {
    if n == 0 then 1 else 10 * Pow10(n - 1)
  }

  /** `n` written with exactly `width` decimal digits, zero-padded on the left. */
  function PadDigits(n: nat, width: nat): (s: string)
    ensures |s| == width && AllDigits(s)
  {
    if width == 0 then "" else PadDigits(n / 10, width - 1) + [('0' as int + n % 10) as char]
  }

  lemma {:induction false} PadDigitsValue(n: nat, width: nat)
    requires n < Pow10(width)
    ensures DigitsValue(PadDigits(n, width)) == n
  {
    if width > 0 {
      var s := PadDigits(n, width);
      assert s[..|s| - 1] == PadDigits(n / 10, width - 1);
      PadDigitsValue(n / 10, width - 1);
    }
  }

  lemma {:induction false} DigitsValueBound(s: string)
    requires AllDigits(s)
    ensures DigitsValue(s) < Pow10(|s|)
  {
    if s != [] {
      DigitsValueBound(s[..|s| - 1]);
    }
  }

  lemma {:induction false} PadDigitsOfValue(s: string)
    requires AllDigits(s)
    ensures PadDigits(DigitsValue(s), |s|) == s
  {
    if s != [] {
      var init := s[..|s| - 1];
      var d := s[|s| - 1] as int - '0' as int;
      assert DigitsValue(s) == DigitsValue(init) * 10 + d;
      assert DigitsValue(s) / 10 == DigitsValue(init);
      assert DigitsValue(s) % 10 == d;
      PadDigitsOfValue(init);
      assert s == init + [s[|s| - 1]];
    }
  }

  /** `std::string::starts_with`. */
  predicate StartsWith(s: string, prefix: string) {
    |prefix| <= |s| && s[..|prefix|] == prefix
  }

  /** `d` occurs in `s` at index `i`. */
  predicate OccursAt(s: string, d: string, i: int) {
    0 <= i && i + |d| <= |s| && s[i..i + |d|] == d
  }

  /** `d` occurs somewhere in `s`. */
  predicate ContainsText(s: string, d: string) {
    exists i :: 0 <= i <= |s| && OccursAt(s, d, i)
  }

  /** A slice of a slice is a slice of the whole. */
  lemma SliceOfSlice<T>(s: seq<T>, lo: int, hi: int, i: int, j: int)
    requires 0 <= lo <= hi <= |s| && 0 <= i <= j <= hi - lo
    ensures s[lo..hi][i..j] == s[lo + i..lo + j]
  {
    var a := s[lo..hi];
    var b := a[i..j];
    forall k | 0 <= k < j - i
      ensures b[k] == s[lo + i + k]
    {
      assert b[k] == a[i + k];
    }
  }

  // ---------------------------------------------------------------------------
  // split

  /** `s.find(d, from)`: the first occurrence of `d` at or after `from`, or `npos`. */
  function Find(s: string, d: string, from: nat): (r: Option<nat>)
    requires from <= |s|
    ensures r.Some? ==> from <= r.value && OccursAt(s, d, r.value)
    ensures r.Some? ==> forall j :: from <= j < r.value ==> !OccursAt(s, d, j)
    ensures r.None? ==> forall j :: from <= j ==> !OccursAt(s, d, j)
    decreases |s| - from
  {
    if OccursAt(s, d, from) then Some(from)
    else if from == |s| then None
    else Find(s, d, from + 1)
  }

  /** The pieces `split` produces for the part of `s` from index `start` on. */
  function PiecesFrom(s: string, d: string, start: nat): (r: seq<string>)
    requires |d| > 0 && start <= |s|
    decreases |s| - start
  {
    match Find(s, d, start)
    case None => [s[start..]]
    case Some(e) => [s[start..e]] + PiecesFrom(s, d, e + |d|)
  }

  /** What `split(s, d)` returns: the text between successive leftmost occurrences of `d`. */
  function Pieces(s: string, d: string): seq<string>
    requires |d| > 0
  {
    PiecesFrom(s, d, 0)
  }

  /** The inverse of `Pieces`: the parts with `d` between each two. */
  function Join(parts: seq<string>, d: string): string {
    if |parts| == 0 then ""
    else if |parts| == 1 then parts[0]
    else parts[0] + d + Join(parts[1..], d)
  }

  /** Number of non-overlapping occurrences of `d` in `s[i..]`, counted greedily from the left. */
  function Occurrences(s: string, d: string, i: nat): nat
    requires |d| > 0 && i <= |s|
    decreases |s| - i
  {
    if i + |d| > |s| then 0
    else if OccursAt(s, d, i) then 1 + Occurrences(s, d, i + |d|)
    else Occurrences(s, d, i + 1)
  }

  /**
   * `split` as the source writes it: `find` the delimiter, cut, move past it
   * and search again; what is left after the last delimiter is the last piece.
   */
  method Split(input: string, delimiter: string) returns (result: seq<string>)
    requires |delimiter| > 0
    ensures result == Pieces(input, delimiter)
  {
    result := [];
    var start := 0;
    var end := Find(input, delimiter, 0);
    while end.Some?
      invariant start <= |input|
      invariant end == Find(input, delimiter, start)
      invariant result + PiecesFrom(input, delimiter, start) == Pieces(input, delimiter)
      decreases |input| - start
    {
      result := result + [input[start..end.value]];
      start := end.value + |delimiter|;
      end := Find(input, delimiter, start);
    }
    result := result + [input[start..]];
  }

  /** Around an occurrence found by `Find`, the text is what comes before it, the delimiter and what comes after. */
  lemma FoundSplits(s: string, d: string, start: nat, e: nat)
    requires start <= |s| && Find(s, d, start) == Some(e)
    ensures s[start..] == s[start..e] + d + s[e + |d|..]
  {
    assert s[e..e + |d|] == d;
    assert s[start..] == s[start..e] + s[e..e + |d|] + s[e + |d|..];
  }

  /** Appending is associative. */
  lemma AppendAssociative(a: string, b: string, c: string)
    ensures a + b + c == a + (b + c)
  {
    forall k | 0 <= k < |a| + |b| + |c|
      ensures (a + b + c)[k] == (a + (b + c))[k]
    {
      if k >= |a| {
        assert (a + (b + c))[k] == (b + c)[k - |a|];
      }
    }
  }

  /** `PiecesFrom` past an occurrence found at `e`. */
  lemma PiecesFromFound(s: string, d: string, start: nat, e: nat)
    requires |d| > 0 && start <= |s| && Find(s, d, start) == Some(e)
    ensures PiecesFrom(s, d, start) == [s[start..e]] + PiecesFrom(s, d, e + |d|)
  {
  }

  lemma JoinCons(a: string, rest: seq<string>, d: string)
    requires |rest| >= 1
    ensures Join([a] + rest, d) == a + d + Join(rest, d)
  {
    assert ([a] + rest)[1..] == rest;
  }

  lemma {:induction false} PiecesFromJoin(s: string, d: string, start: nat)
    requires |d| > 0 && start <= |s|
    ensures |PiecesFrom(s, d, start)| >= 1
    ensures Join(PiecesFrom(s, d, start), d) == s[start..]
    decreases |s| - start
  {
    match Find(s, d, start)
    case None =>
    case Some(e) =>
      var rest := PiecesFrom(s, d, e + |d|);
      PiecesFromJoin(s, d, e + |d|);
      assert PiecesFrom(s, d, start) == [s[start..e]] + rest;
      JoinCons(s[start..e], rest, d);
      FoundSplits(s, d, start, e);
  }

  /** `split` loses nothing: joining its pieces with the delimiter gives back the input. */
  lemma PiecesJoin(s: string, d: string)
    requires |d| > 0
    ensures |Pieces(s, d)| >= 1
    ensures Join(Pieces(s, d), d) == s
  {
    PiecesFromJoin(s, d, 0);
  }

  lemma {:induction false} OccurrencesSkip(s: string, d: string, i: nat, e: nat)
    requires |d| > 0 && i <= e <= |s|
    requires forall j :: i <= j < e ==> !OccursAt(s, d, j)
    ensures Occurrences(s, d, i) == Occurrences(s, d, e)
    decreases e - i
  {
    if i < e && i + |d| <= |s| {
      OccurrencesSkip(s, d, i + 1, e);
    }
  }

  /** Counting occurrences from `start` counts the one `Find` reports, then goes on after it. */
  lemma FindCounts(s: string, d: string, start: nat)
    requires |d| > 0 && start <= |s|
    ensures Find(s, d, start).None? ==> Occurrences(s, d, start) == 0
    ensures Find(s, d, start).Some? ==>
              Occurrences(s, d, start) == 1 + Occurrences(s, d, Find(s, d, start).value + |d|)
  {
    match Find(s, d, start)
    case None =>
      OccurrencesSkip(s, d, start, |s|);
    case Some(e) =>
      OccurrencesSkip(s, d, start, e);
  }

  lemma {:induction false} PiecesFromCount(s: string, d: string, start: nat)
    requires |d| > 0 && start <= |s|
    ensures |PiecesFrom(s, d, start)| == Occurrences(s, d, start) + 1
    decreases |s| - start
  {
    FindCounts(s, d, start);
    match Find(s, d, start)
    case None =>
    case Some(e) =>
      PiecesFromCount(s, d, e + |d|);
  }

  /** `split` returns one piece more than there are (non-overlapping) delimiters. */
  lemma PiecesCount(s: string, d: string)
    requires |d| > 0
    ensures |Pieces(s, d)| == Occurrences(s, d, 0) + 1
  {
    PiecesFromCount(s, d, 0);
  }

  /** A slice of `s` avoids `d` when no occurrence of `d` in `s` lies inside the slice. */
  lemma SliceAvoids(s: string, d: string, lo: nat, hi: nat)
    requires lo <= hi <= |s|
    requires forall j :: lo <= j && j + |d| <= hi ==> !OccursAt(s, d, j)
    ensures !ContainsText(s[lo..hi], d)
  {
    forall j | 0 <= j <= |s[lo..hi]|
      ensures !OccursAt(s[lo..hi], d, j)
    {
      if j + |d| <= hi - lo {
        SliceOfSlice(s, lo, hi, j, j + |d|);
        assert !OccursAt(s, d, lo + j);
      }
    }
  }

  lemma {:induction false} PiecesFromAvoidDelimiter(s: string, d: string, start: nat)
    requires |d| > 0 && start <= |s|
    ensures forall k :: 0 <= k < |PiecesFrom(s, d, start)| ==> !ContainsText(PiecesFrom(s, d, start)[k], d)
    decreases |s| - start
  {
    var parts := PiecesFrom(s, d, start);
    match Find(s, d, start)
    case None =>
      SliceAvoids(s, d, start, |s|);
      assert s[start..|s|] == s[start..];
    case Some(e) =>
      PiecesFromAvoidDelimiter(s, d, e + |d|);
      SliceAvoids(s, d, start, e);
      forall k | 0 <= k < |parts|
        ensures !ContainsText(parts[k], d)
      {
        if k > 0 {
          assert parts[k] == PiecesFrom(s, d, e + |d|)[k - 1];
        }
      }
  }

  /** No piece of `split` contains the delimiter. */
  lemma PiecesAvoidDelimiter(s: string, d: string)
    requires |d| > 0
    ensures forall k :: 0 <= k < |Pieces(s, d)| ==> !ContainsText(Pieces(s, d)[k], d)
  {
    PiecesFromAvoidDelimiter(s, d, 0);
  }

  /** Input without the delimiter comes back as its only piece. */
  lemma PiecesWithoutDelimiter(s: string, d: string)
    requires |d| > 0 && !ContainsText(s, d)
    ensures Pieces(s, d) == [s]
  {
  }

  // ---------------------------------------------------------------------------
  // strip

  /** How many `isspace` characters open `s`. */
  function LeadingSpaces(s: string): (n: nat)
    ensures n <= |s|
    ensures forall i :: 0 <= i < n ==> IsSpace(s[i])
    ensures n < |s| ==> !IsSpace(s[n])
  {
    if |s| > 0 && IsSpace(s[0]) then 1 + LeadingSpaces(s[1..]) else 0
  }

  /** How many `isspace` characters close `s`. */
  function TrailingSpaces(s: string): (n: nat)
    ensures n <= |s|
    ensures forall i :: |s| - n <= i < |s| ==> IsSpace(s[i])
    ensures n < |s| ==> !IsSpace(s[|s| - 1 - n])
  {
    if |s| > 0 && IsSpace(s[|s| - 1]) then 1 + TrailingSpaces(s[..|s| - 1]) else 0
  }

  /** Neither end of `s` is whitespace. */
  predicate IsStripped(s: string) {
    s == [] || (!IsSpace(s[0]) && !IsSpace(s[|s| - 1]))
  }

  /** Everything in `s` before `lo` and from `hi` on is whitespace. */
  predicate OnlySpaceOutside(s: string, lo: int, hi: int) {
    && 0 <= lo <= hi <= |s|
    && (forall i :: 0 <= i < lo ==> IsSpace(s[i]))
    && (forall i :: hi <= i < |s| ==> IsSpace(s[i]))
  }

  /** `s` holds whitespace only. */
  predicate AllSpace(s: string) {
    forall i :: 0 <= i < |s| ==> IsSpace(s[i])
  }

  /** `r` is a slice of `s` with nothing but whitespace cut away around it. */
  ghost predicate CutFrom(s: string, r: string) {
    exists lo, hi :: OnlySpaceOutside(s, lo, hi) && r == s[lo..hi]
  }

  /**
   * What `strip(s)` returns: `s` without its leading and trailing whitespace.
   * It is a contiguous slice of `s`, everything cut away is whitespace, and it
   * is empty exactly when `s` is all whitespace.
   */
  function Stripped(s: string): (r: string)
    ensures IsStripped(r)
    ensures r == [] <==> AllSpace(s)
    ensures CutFrom(s, r)
  {
    var lo := LeadingSpaces(s);
    var t := s[lo..];
    var r := t[..|t| - TrailingSpaces(t)];
    assert r == s[lo..lo + |r|];
    assert forall i :: lo + |r| <= i < |s| ==> s[i] == t[i - lo];
    assert OnlySpaceOutside(s, lo, lo + |r|);
    r
  }

  /** A string without whitespace at its ends is its own `strip`. */
  lemma StrippedFixpoint(s: string)
    requires IsStripped(s)
    ensures Stripped(s) == s
  {
    assert LeadingSpaces(s) == 0;
    assert TrailingSpaces(s) == 0;
  }

  /** `strip` is idempotent. */
  lemma StripIdempotent(s: string)
    ensures Stripped(Stripped(s)) == Stripped(s)
  {
    StrippedFixpoint(Stripped(s));
  }

  /**
   * `strip` as the source writes it: move `start` forward and `end` back over
   * whitespace, then take what lies between.
   */
  method Strip(input: string) returns (r: string)
    ensures r == Stripped(input)
  {
    var start := 0;
    var end := |input|;
    while start < end && IsSpace(input[start])
      invariant start <= end == |input|
      invariant forall i :: 0 <= i < start ==> IsSpace(input[i])
    {
      start := start + 1;
    }
    assert start == LeadingSpaces(input);
    ghost var t := input[start..];
    while end > start && IsSpace(input[end - 1])
      invariant start <= end <= |input|
      invariant forall i :: end <= i < |input| ==> IsSpace(input[i])
    {
      end := end - 1;
    }
    assert |t| - (end - start) == TrailingSpaces(t) by {
      assert forall i :: end - start <= i < |t| ==> IsSpace(t[i]);
    }
    assert t[..end - start] == input[start..end];
    r := input[start..end];
  }

  // ---------------------------------------------------------------------------
  // contains, const_string_length

  /** `std::find`: the index of the first element equal to `v`, or `|s|`. */
  function IndexOf<T(==)>(s: seq<T>, v: T): (k: nat)
    ensures k <= |s|
    ensures k < |s| ==> s[k] == v
    ensures forall i :: 0 <= i < k ==> s[i] != v
  {
    if |s| == 0 then 0
    else if s[0] == v then 0
    else 1 + IndexOf(s[1..], v)
  }

  /** `contains(container, value)`: `std::find` stopped before the end. */
  function Contains<T(==)>(container: seq<T>, value: T): (r: bool)
    ensures r <==> exists i :: 0 <= i < |container| && container[i] == value
  {
    IndexOf(container, value) != |container|
  }

  /**
   * `const_string_length` of a string literal, given as its character array
   * with the terminating NUL: the array size less one, which is where the NUL is.
   */
  function ConstStringLength(literal: seq<char>): (n: nat)
    requires |literal| >= 1 && literal[|literal| - 1] == '\0'
    ensures n + 1 == |literal| && literal[n] == '\0'
  {
    |literal| - 1
  }
}
