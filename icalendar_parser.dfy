/**
 * src/icalendar/parser.hpp: from feed text to a `Calendar`.
 *
 * `preprocess` cuts the text into lines and unfolds continuation lines
 * (a simplification of section 3.1 of RFC 5545: every line is stripped of
 * surrounding whitespace), `fix_escapes` turns the escapes backslash-n and
 * backslash-comma of section 3.3.11 into a newline and a comma,
 * `get_property` finds a property by name prefix, and `parse` checks the
 * BEGIN:VCALENDAR framing, builds an event from each BEGIN:VEVENT ..
 * END:VEVENT record (sections 3.4 and 3.6.1), skips records that raise
 * unless none built an event, and reads the calendar's metadata.
 */
module ICalendarParser {
  import opened Wrappers
  import opened Exceptions
  import opened Utilities
  import opened Events
  import opened Calendars

  const BeginCalendar := "BEGIN:VCALENDAR"
  const EndCalendar := "END:VCALENDAR"
  const BeginEvent := "BEGIN:VEVENT"
  const EndEvent := "END:VEVENT"

  /** A text line that `strip` leaves as it is and that is not empty. */
  predicate IsLogicalLine(line: string) {
    line != [] && IsStripped(line)
  }

  // ---------------------------------------------------------------------------
  // preprocess

  const FoldBeforeFirstLine := "undefined behaviour: continuation line before any line (iter - 1 at begin)"

  /**
   * The logical lines `preprocess` makes of the raw lines `raw`, after the
   * ones already made, `done`. A line that is blank once stripped is
   * dropped; a line starting with a space is stripped and appended to the
   * previous logical line; any other line is stripped and kept. A
   * continuation line with no logical line before it makes the source step
   * its iterator before the start of the vector: `Fatal`.
   */
  function Unfold(done: seq<string>, raw: seq<string>): Result<seq<string>, Failure>
    decreases |raw|
  {
    if raw == [] then Ok(done)
    else
      var current := Stripped(raw[0]);
      if current == [] then Unfold(done, raw[1..])
      else if StartsWith(raw[0], " ") then
        if done == [] then Err(Fatal(FoldBeforeFirstLine))
        else Unfold(done[..|done| - 1] + [done[|done| - 1] + current], raw[1..])
      else Unfold(done + [current], raw[1..])
  }

  /** The logical lines of a feed's text. */
  function LogicalLines(text: string): Result<seq<string>, Failure> {
    Unfold([], Pieces(text, "\n"))
  }

  /** One step of `Unfold` over a blank line. */
  lemma UnfoldDropStep(done: seq<string>, line: string, more: seq<string>)
    requires Stripped(line) == []
    ensures Unfold(done, [line] + more) == Unfold(done, more)
  {
    assert ([line] + more)[0] == line && ([line] + more)[1..] == more;
  }

  /** One step of `Unfold` over a continuation line. */
  lemma UnfoldJoinStep(done: seq<string>, line: string, more: seq<string>)
    requires done != [] && Stripped(line) != [] && StartsWith(line, " ")
    ensures Unfold(done, [line] + more) == Unfold(done[..|done| - 1] + [done[|done| - 1] + Stripped(line)], more)
  {
    assert ([line] + more)[0] == line && ([line] + more)[1..] == more;
  }

  /** One step of `Unfold` over any other line. */
  lemma UnfoldKeepStep(done: seq<string>, line: string, more: seq<string>)
    requires Stripped(line) != [] && !StartsWith(line, " ")
    ensures Unfold(done, [line] + more) == Unfold(done + [Stripped(line)], more)
  {
    assert ([line] + more)[0] == line && ([line] + more)[1..] == more;
  }

  lemma SliceAtIndex(s: seq<string>, i: nat)
    requires i < |s|
    ensures s[i..] == [s[i]] + s[i + 1..]
  {
  }

  /** Erasing the line at `i` leaves the lines before it and moves up the ones after it. */
  lemma EraseAt(s: seq<string>, i: nat)
    requires i < |s|
    ensures (s[..i] + s[i + 1..])[..i] == s[..i]
    ensures (s[..i] + s[i + 1..])[i..] == s[i + 1..]
  {
  }

  /** Appending `c` to the line before `i` and erasing the line at `i`. */
  lemma MergeAt(s: seq<string>, i: nat, c: string)
    requires 0 < i < |s|
    ensures (s[..i - 1] + [s[i - 1] + c] + s[i + 1..])[..i] == s[..i][..i - 1] + [s[..i][i - 1] + c]
    ensures (s[..i - 1] + [s[i - 1] + c] + s[i + 1..])[i..] == s[i + 1..]
  {
  }

  /** Replacing the line at `i` by `c`. */
  lemma ReplaceAt(s: seq<string>, i: nat, c: string)
    requires i < |s|
    ensures (s[..i] + [c] + s[i + 1..])[..i + 1] == s[..i] + [c]
    ensures (s[..i] + [c] + s[i + 1..])[i + 1..] == s[i + 1..]
  {
  }

  /**
   * `preprocess` as the source writes it: walk the vector of lines, erasing
   * blank lines and continuation lines (after appending the latter to the
   * line before) and replacing every other line by its stripped form.
   */
  method Preprocess(text: string) returns (r: Result<seq<string>, Failure>)
    ensures r == LogicalLines(text)
  {
    var lines := Split(text, "\n");
    var i := 0;
    while i < |lines|
      invariant i <= |lines|
      invariant Unfold(lines[..i], lines[i..]) == LogicalLines(text)
      decreases |lines| - i
    {
      var current := Strip(lines[i]);
      ghost var done, more := lines[..i], lines[i + 1..];
      SliceAtIndex(lines, i);
      if current == [] {
        UnfoldDropStep(done, lines[i], more);
        EraseAt(lines, i);
        lines := lines[..i] + lines[i + 1..];
      } else if StartsWith(lines[i], " ") {
        if i == 0 {
          assert ([lines[i]] + more)[0] == lines[i];
          return Err(Fatal(FoldBeforeFirstLine));
        }
        UnfoldJoinStep(done, lines[i], more);
        MergeAt(lines, i, current);
        lines := lines[..i - 1] + [lines[i - 1] + current] + lines[i + 1..];
      } else {
        UnfoldKeepStep(done, lines[i], more);
        ReplaceAt(lines, i, current);
        lines := lines[..i] + [current] + lines[i + 1..];
        i := i + 1;
      }
    }
    assert lines[..i] == lines;
    r := Ok(lines);
  }

  lemma ConcatLogical(a: string, b: string)
    requires IsLogicalLine(a) && IsLogicalLine(b)
    ensures IsLogicalLine(a + b)
  {
  }

  /** Every line `preprocess` returns is non-empty and has no whitespace at either end. */
  lemma {:induction false} UnfoldMakesLogicalLines(done: seq<string>, raw: seq<string>)
    requires forall k :: 0 <= k < |done| ==> IsLogicalLine(done[k])
    ensures Unfold(done, raw).Ok? ==>
              forall k :: 0 <= k < |Unfold(done, raw).value| ==> IsLogicalLine(Unfold(done, raw).value[k])
    decreases |raw|
  {
    if raw != [] {
      var current := Stripped(raw[0]);
      if current == [] {
        UnfoldMakesLogicalLines(done, raw[1..]);
      } else if StartsWith(raw[0], " ") {
        if done != [] {
          var next := done[..|done| - 1] + [done[|done| - 1] + current];
          ConcatLogical(done[|done| - 1], current);
          UnfoldMakesLogicalLines(next, raw[1..]);
        }
      } else {
        UnfoldMakesLogicalLines(done + [current], raw[1..]);
      }
    }
  }

  /** Raw lines that continue the line before them: each starts with one space. */
  function Continuations(parts: seq<string>): (r: seq<string>)
    ensures |r| == |parts|
  {
    if parts == [] then [] else [" " + parts[0]] + Continuations(parts[1..])
  }

  function Concat(parts: seq<string>): string {
    if parts == [] then "" else parts[0] + Concat(parts[1..])
  }

  lemma ConcatHead(p: string, parts: seq<string>)
    requires parts != []
    ensures p + parts[0] + Concat(parts[1..]) == p + Concat(parts)
  {
    var a, b := parts[0], Concat(parts[1..]);
    assert Concat(parts) == a + b;
    assert |p + a + b| == |p + (a + b)|;
    forall k | 0 <= k < |p + a + b|
      ensures (p + a + b)[k] == (p + (a + b))[k]
    {
      if k >= |p| {
        assert (p + (a + b))[k] == (a + b)[k - |p|];
      }
    }
  }

  lemma StripLeadingSpace(q: string)
    requires IsLogicalLine(q)
    ensures Stripped(" " + q) == q
  {
    var s := " " + q;
    assert s[1..] == q;
    assert LeadingSpaces(s) == 1;
    assert TrailingSpaces(s[1..]) == 0;
  }

  lemma {:induction false} UnfoldContinuations(done: seq<string>, p: string, parts: seq<string>, rest: seq<string>)
    requires IsLogicalLine(p)
    requires forall k :: 0 <= k < |parts| ==> IsLogicalLine(parts[k])
    ensures Unfold(done + [p], Continuations(parts) + rest) == Unfold(done + [p + Concat(parts)], rest)
    decreases |parts|
  {
    if parts == [] {
      assert p + Concat(parts) == p;
      assert Continuations(parts) + rest == rest;
    } else {
      var q := parts[0];
      var more := Continuations(parts[1..]) + rest;
      var done' := done + [p];
      assert Continuations(parts) + rest == [" " + q] + more;
      assert Unfold(done', [" " + q] + more) == Unfold(done + [p + q], more) by {
        StripLeadingSpace(q);
        UnfoldJoinStep(done', " " + q, more);
        assert done'[..|done'| - 1] + [done'[|done'| - 1] + q] == done + [p + q];
      }
      assert Unfold(done + [p + q], more) == Unfold(done + [p + Concat(parts)], rest) by {
        ConcatLogical(p, q);
        UnfoldContinuations(done, p + q, parts[1..], rest);
        ConcatHead(p, parts);
      }
    }
  }

  /**
   * Unfolding: a property line followed by continuation lines (each a
   * space and a piece) yields the same logical lines as the property
   * written on one line, whatever comes before and after.
   */
  lemma FoldedEqualsUnfolded(done: seq<string>, p: string, parts: seq<string>, rest: seq<string>)
    requires IsLogicalLine(p)
    requires forall k :: 0 <= k < |parts| ==> IsLogicalLine(parts[k])
    ensures Unfold(done, [p] + Continuations(parts) + rest) == Unfold(done, [p + Concat(parts)] + rest)
  {
    StrippedFixpoint(p);
    var raw := [p] + Continuations(parts) + rest;
    assert raw[0] == p && raw[1..] == Continuations(parts) + rest;
    UnfoldContinuations(done, p, parts, rest);
    var whole := p + Concat(parts);
    ConcatAllLogical(p, parts);
    StrippedFixpoint(whole);
    var raw' := [whole] + rest;
    assert raw'[0] == whole && raw'[1..] == rest;
  }

  lemma {:induction false} ConcatAllLogical(p: string, parts: seq<string>)
    requires IsLogicalLine(p)
    requires forall k :: 0 <= k < |parts| ==> IsLogicalLine(parts[k])
    ensures IsLogicalLine(p + Concat(parts))
    decreases |parts|
  {
    if parts != [] {
      ConcatLogical(p, parts[0]);
      ConcatAllLogical(p + parts[0], parts[1..]);
      ConcatHead(p, parts);
    }
  }

  /** The stripped, non-blank lines of `raw`, in their order. */
  function NonBlank(raw: seq<string>): seq<string> {
    if raw == [] then []
    else if Stripped(raw[0]) == [] then NonBlank(raw[1..])
    else [Stripped(raw[0])] + NonBlank(raw[1..])
  }

  /** With no continuation lines, `preprocess` keeps every non-blank line, stripped, in order. */
  lemma {:induction false} UnfoldKeepsOrder(done: seq<string>, raw: seq<string>)
    requires forall k :: 0 <= k < |raw| ==> !StartsWith(raw[k], " ")
    ensures Unfold(done, raw) == Ok(done + NonBlank(raw))
    decreases |raw|
  {
    if raw == [] {
      assert done + NonBlank(raw) == done;
    } else {
      var line := raw[0];
      var more := raw[1..];
      assert raw == [line] + more;
      assert forall k :: 0 <= k < |more| ==> more[k] == raw[k + 1];
      UnfoldKeepsOrder(done + [Stripped(line)], more);
      UnfoldKeepsOrder(done, more);
      if Stripped(line) == [] {
        UnfoldDropStep(done, line, more);
      } else {
        UnfoldKeepStep(done, line, more);
        assert done + [Stripped(line)] + NonBlank(more) == done + NonBlank(raw);
      }
    }
  }

  // ---------------------------------------------------------------------------
  // fix_escapes

  const EscapedNewline := "\\n"
  const EscapedComma := "\\,"

  /**
   * `std::regex_replace` with a pattern that matches one fixed text: every
   * occurrence, found left to right without overlaps, is replaced.
   */
  function ReplaceAll(s: string, pattern: string, replacement: string): string
    requires |pattern| > 0
    decreases |s|
  {
    if s == [] then []
    else if StartsWith(s, pattern) then replacement + ReplaceAll(s[|pattern|..], pattern, replacement)
    else [s[0]] + ReplaceAll(s[1..], pattern, replacement)
  }

  /** What `fix_escapes` makes of one line: backslash-n becomes a newline, then backslash-comma a comma. */
  function Unescape(line: string): string {
    ReplaceAll(ReplaceAll(line, EscapedNewline, "\n"), EscapedComma, ",")
  }

  function UnescapeAll(lines: seq<string>): (r: seq<string>)
    ensures |r| == |lines| && forall k :: 0 <= k < |lines| ==> r[k] == Unescape(lines[k])
  {
    seq(|lines|, k requires 0 <= k < |lines| => Unescape(lines[k]))
  }

  /** `fix_escapes` as written: each line of the vector rewritten in place. */
  method FixEscapes(lines: array<string>)
    modifies lines
    ensures lines[..] == UnescapeAll(old(lines[..]))
  {
    for i := 0 to lines.Length
      invariant forall k :: 0 <= k < i ==> lines[k] == Unescape(old(lines[k]))
      invariant forall k :: i <= k < lines.Length ==> lines[k] == old(lines[k])
    {
      lines[i] := Unescape(lines[i]);
    }
  }

  lemma {:induction false} ReplaceAllSkip(s: string, pattern: string, replacement: string, i: nat, e: nat)
    requires |pattern| > 0 && i <= e <= |s|
    requires forall j :: i <= j < e ==> !OccursAt(s, pattern, j)
    ensures ReplaceAll(s[i..], pattern, replacement) == s[i..e] + ReplaceAll(s[e..], pattern, replacement)
    decreases e - i
  {
    if i < e {
      assert !OccursAt(s, pattern, i);
      assert !StartsWith(s[i..], pattern) by {
        if StartsWith(s[i..], pattern) {
          SliceOfSlice(s, i, |s|, 0, |pattern|);
        }
      }
      assert s[i..][1..] == s[i + 1..];
      ReplaceAllSkip(s, pattern, replacement, i + 1, e);
      assert s[i..e] == [s[i]] + s[i + 1..e];
    }
  }

  lemma {:induction false} ReplaceAllFrom(s: string, pattern: string, replacement: string, i: nat)
    requires |pattern| > 0 && i <= |s|
    ensures ReplaceAll(s[i..], pattern, replacement) == Join(PiecesFrom(s, pattern, i), replacement)
    decreases |s| - i
  {
    match Find(s, pattern, i)
    case None =>
      ReplaceAllSkip(s, pattern, replacement, i, |s|);
    case Some(e) =>
      var rest := PiecesFrom(s, pattern, e + |pattern|);
      calc {
        ReplaceAll(s[i..], pattern, replacement);
      == { ReplaceAllSkip(s, pattern, replacement, i, e); }
        s[i..e] + ReplaceAll(s[e..], pattern, replacement);
      == { ReplaceAllAtMatch(s, pattern, replacement, e); }
        s[i..e] + (replacement + ReplaceAll(s[e + |pattern|..], pattern, replacement));
      == { ReplaceAllFrom(s, pattern, replacement, e + |pattern|); }
        s[i..e] + (replacement + Join(rest, replacement));
      == { AppendAssociative(s[i..e], replacement, Join(rest, replacement));
           PiecesFromJoin(s, pattern, e + |pattern|);
           JoinCons(s[i..e], rest, replacement); }
        Join([s[i..e]] + rest, replacement);
      == { PiecesFromFound(s, pattern, i, e); }
        Join(PiecesFrom(s, pattern, i), replacement);
      }
  }

  lemma ReplaceAllAtMatch(s: string, pattern: string, replacement: string, e: nat)
    requires |pattern| > 0 && OccursAt(s, pattern, e)
    ensures ReplaceAll(s[e..], pattern, replacement) == replacement + ReplaceAll(s[e + |pattern|..], pattern, replacement)
  {
    assert s[e..][..|pattern|] == s[e..e + |pattern|];
    assert s[e..][|pattern|..] == s[e + |pattern|..];
  }

  /** Replacing a fixed pattern is splitting on it and joining with the replacement. */
  lemma ReplaceAllIsJoinOfPieces(s: string, pattern: string, replacement: string)
    requires |pattern| > 0
    ensures ReplaceAll(s, pattern, replacement) == Join(Pieces(s, pattern), replacement)
  {
    assert s[0..] == s;
    ReplaceAllFrom(s, pattern, replacement, 0);
  }

  /** No backslash in `s` is followed by `n`. */
  predicate NoEscapedNewline(s: string) {
    forall i :: 0 <= i < |s| - 1 ==> !(s[i] == '\\' && s[i + 1] == 'n')
  }

  lemma NoEscapedNewlineIsNotContained(s: string)
    requires NoEscapedNewline(s)
    ensures !ContainsText(s, EscapedNewline)
  {
    forall j | 0 <= j <= |s|
      ensures !OccursAt(s, EscapedNewline, j)
    {
      if j + 2 <= |s| {
        assert s[j..j + 2][0] == s[j] && s[j..j + 2][1] == s[j + 1];
      }
    }
  }

  lemma {:induction false} FirstPassLeavesNoEscapedNewline(s: string)
    ensures var r := ReplaceAll(s, EscapedNewline, "\n");
            && NoEscapedNewline(r)
            && (r != [] ==> s != [] && (r[0] == s[0] || r[0] == '\n'))
    decreases |s|
  {
    var r := ReplaceAll(s, EscapedNewline, "\n");
    if s != [] {
      if StartsWith(s, EscapedNewline) {
        assert |EscapedNewline| == 2 && s[|EscapedNewline|..] == s[2..];
        FirstPassLeavesNoEscapedNewline(s[2..]);
        assert r == "\n" + ReplaceAll(s[2..], EscapedNewline, "\n");
      } else {
        var r' := ReplaceAll(s[1..], EscapedNewline, "\n");
        FirstPassLeavesNoEscapedNewline(s[1..]);
        assert r == [s[0]] + r';
      }
    }
  }

  lemma {:induction false} SecondPassLeavesNoEscapedNewline(t: string)
    requires NoEscapedNewline(t)
    ensures var r := ReplaceAll(t, EscapedComma, ",");
            && NoEscapedNewline(r)
            && (r != [] ==> t != [] && (r[0] == t[0] || r[0] == ','))
    decreases |t|
  {
    var r := ReplaceAll(t, EscapedComma, ",");
    if t != [] {
      if StartsWith(t, EscapedComma) {
        assert |EscapedComma| == 2 && t[|EscapedComma|..] == t[2..];
        SecondPassLeavesNoEscapedNewline(t[2..]);
        assert r == "," + ReplaceAll(t[2..], EscapedComma, ",");
      } else {
        var r' := ReplaceAll(t[1..], EscapedComma, ",");
        SecondPassLeavesNoEscapedNewline(t[1..]);
        assert r == [t[0]] + r';
      }
    }
  }

  /**
   * After `fix_escapes` no line holds the two characters backslash and `n`:
   * each was replaced, and neither replacement can make a new one.
   */
  lemma UnescapeLeavesNoEscapedNewline(line: string)
    ensures NoEscapedNewline(Unescape(line)) && !ContainsText(Unescape(line), EscapedNewline)
  {
    FirstPassLeavesNoEscapedNewline(line);
    SecondPassLeavesNoEscapedNewline(ReplaceAll(line, EscapedNewline, "\n"));
    NoEscapedNewlineIsNotContained(Unescape(line));
  }

  // ---------------------------------------------------------------------------
  // get_property

  /** Line `k` is the first line from `begin` on that starts with `name`. */
  predicate FirstWith(lines: seq<string>, begin: int, k: int, name: string) {
    && 0 <= begin <= k < |lines|
    && StartsWith(lines[k], name)
    && forall j :: begin <= j < k ==> !StartsWith(lines[j], name)
  }

  /** `std::find_if` over `[begin, end)` for a line starting with `name`; `end` when there is none. */
  function FindStartingWith(lines: seq<string>, begin: nat, end: nat, name: string): (k: nat)
    requires begin <= end <= |lines|
    ensures begin <= k <= end
    ensures k < end ==> FirstWith(lines, begin, k, name)
    ensures k == end ==> forall j :: begin <= j < end ==> !StartsWith(lines[j], name)
    decreases end - begin
  {
    if begin == end then end
    else if StartsWith(lines[begin], name) then begin
    else FindStartingWith(lines, begin + 1, end, name)
  }

  /** `std::string::substr(pos)`: throws `std::out_of_range` when `pos` is past the end. */
  function Substr(s: string, pos: nat): (r: Result<string, Failure>)
    ensures r.Ok? <==> pos <= |s|
    ensures r.Ok? ==> r.value == s[pos..]
    ensures r.Err? ==> r.error.Fatal?
  {
    if pos <= |s| then Ok(s[pos..]) else Err(Fatal("std::out_of_range: substr"))
  }

  function MissingProperty(name: string): Failure {
    Raised(Exception(ICalendar, "Missing property: " + name))
  }

  /**
   * `get_property(begin, end, name)`: the text after `name` and one more
   * character (the `:` or `;`), from the first line in `[begin, end)` that
   * starts with `name`. No such line: "Missing property". A line that is
   * exactly `name` makes `substr` throw `std::out_of_range`. The only
   * exception it throws is "Missing property"; the lemma below says which
   * line the value comes from.
   */
  function GetPropertyIn(lines: seq<string>, begin: nat, end: nat, name: string): (r: Result<string, Failure>)
    requires begin <= end <= |lines|
    ensures r.Err? ==> r.error.Fatal? || r == Err(MissingProperty(name))
  {
    var k := FindStartingWith(lines, begin, end, name);
    if k == end then Err(MissingProperty(name))
    else Substr(lines[k], |name| + 1)
  }

  /**
   * `get_property` finds the first line of the range that starts with the
   * name: its value is the rest of that line after one separator character,
   * a line that is the bare name is `Fatal`, and "Missing property" is
   * thrown exactly when no line of the range starts with the name.
   */
  lemma GetPropertyFindsFirstLine(lines: seq<string>, begin: nat, end: nat, name: string)
    requires begin <= end <= |lines|
    ensures var r := GetPropertyIn(lines, begin, end, name);
            && (r == Err(MissingProperty(name)) <==> forall j :: begin <= j < end ==> !StartsWith(lines[j], name))
            && (r.Ok? ==> exists k :: k < end && FirstWith(lines, begin, k, name) && |name| + 1 <= |lines[k]|
                                       && r.value == lines[k][|name| + 1..])
            && (r.Err? && r.error.Fatal? ==> exists k :: k < end && FirstWith(lines, begin, k, name) && lines[k] == name)
  {
    var k := FindStartingWith(lines, begin, end, name);
    if k < end {
      assert FirstWith(lines, begin, k, name);
      if |lines[k]| < |name| + 1 {
        assert lines[k] == lines[k][..|name|] == name;
      }
    }
  }

  /** `get_property(lines, name)`: the same search over every line. */
  function GetProperty(lines: seq<string>, name: string): (r: Result<string, Failure>)
    ensures r.Err? ==> r.error.Fatal? || r == Err(MissingProperty(name))
  {
    GetPropertyIn(lines, 0, |lines|, name)
  }

  // ---------------------------------------------------------------------------
  // parse

  /** The literal `"VALUE=DATE-TIME:"` as the character array `const_string_length` sees. */
  const DateTimeLiteral: seq<char> := "VALUE=DATE-TIME:\0"

  /** The six values the `try` block reads, DTSTART and DTEND already cut. */
  datatype RecordProperties = RecordProperties(summary: string, dtstart: string, dtend: string, uid: string,
                                               description: string, location: string)

  /**
   * The reads of the `try` block of `parse` for the record `[begin, end)`:
   * DTSTART and DTEND without their first 16 characters, then SUMMARY, UID,
   * DESCRIPTION and LOCATION. A missing property is a `Raised` failure,
   * which `parse` catches; `substr` past the end is `Fatal`, which it does not.
   */
  function ReadRecord(lines: seq<string>, begin: nat, end: nat): (r: Result<RecordProperties, Failure>)
    requires begin <= end <= |lines|
    ensures r.Err? && r.error.Raised? ==>
              r.error in {MissingProperty("DTSTART"), MissingProperty("DTEND"), MissingProperty("SUMMARY"),
                          MissingProperty("UID"), MissingProperty("DESCRIPTION"), MissingProperty("LOCATION")}
  {
    var cut := ConstStringLength(DateTimeLiteral);
    var dtstartValue :- GetPropertyIn(lines, begin, end, "DTSTART");
    var dtstart :- Substr(dtstartValue, cut);
    var dtendValue :- GetPropertyIn(lines, begin, end, "DTEND");
    var dtend :- Substr(dtendValue, cut);
    var summary :- GetPropertyIn(lines, begin, end, "SUMMARY");
    var uid :- GetPropertyIn(lines, begin, end, "UID");
    var description :- GetPropertyIn(lines, begin, end, "DESCRIPTION");
    var location :- GetPropertyIn(lines, begin, end, "LOCATION");
    Ok(RecordProperties(summary, dtstart, dtend, uid, description, location))
  }

  /**
   * The `try` block of `parse` for the record `[begin, end)` with the
   * intended `Event` constructor: the values, then the event, whose
   * timestamp exception `parse` catches like a missing property.
   */
  function BuildRecord(lines: seq<string>, begin: nat, end: nat): (r: Result<Event, Failure>)
    requires begin <= end <= |lines|
    ensures r.Err? && r.error.Raised? ==>
              r.error in {MissingProperty("DTSTART"), MissingProperty("DTEND"), MissingProperty("SUMMARY"),
                          MissingProperty("UID"), MissingProperty("DESCRIPTION"), MissingProperty("LOCATION"),
                          Raised(TimestampError)}
  {
    var p :- ReadRecord(lines, begin, end);
    match NewEvent(p.summary, p.dtstart, p.dtend, p.uid, p.description, p.location)
    case Ok(event) => Ok(event)
    case Err(e) => Err(Raised(e))
  }

  /** The `try` block with the `Event` constructor as written, which never throws. */
  function BuildRecordAsWritten(lines: seq<string>, begin: nat, end: nat): (r: Result<Event, Failure>)
    requires begin <= end <= |lines|
    ensures r.Err? && r.error.Raised? ==>
              r.error in {MissingProperty("DTSTART"), MissingProperty("DTEND"), MissingProperty("SUMMARY"),
                          MissingProperty("UID"), MissingProperty("DESCRIPTION"), MissingProperty("LOCATION")}
  {
    var p :- ReadRecord(lines, begin, end);
    Ok(EventAsWritten(p.summary, p.dtstart, p.dtend, p.uid, p.description, p.location))
  }

  /** `std::find(from, to, target)` over lines: the first line equal to `target`, or `to`. */
  function FindLine(lines: seq<string>, from: nat, to: nat, target: string): (k: nat)
    requires from <= to <= |lines|
    ensures from <= k <= to
    ensures k < to ==> lines[k] == target
    ensures forall j :: from <= j < k ==> lines[j] != target
  {
    var i := IndexOf(lines[from..to], target);
    assert forall j :: from <= j < from + i ==> lines[j] == lines[from..to][j - from];
    from + i
  }

  /** The end of the record that starts at line `b`: its first END:VEVENT line, or the last line. */
  function RecordEnd(lines: seq<string>, b: nat): nat
    requires b < |lines|
  {
    FindLine(lines, b, |lines| - 1, EndEvent)
  }

  /** What the scan of `parse` carries: the event set so far and the `event_fail` flag. */
  datatype Scan = Scan(events: seq<Event>, failed: bool)

  const RunPastEnd := "undefined behaviour: BEGIN:VEVENT without END:VEVENT moves the scan past the last line"

  /** What the `try` block yields for a record opening at each line. */
  function RecordResults(lines: seq<string>): (r: seq<Result<Event, Failure>>)
    ensures |r| == |lines|
  {
    seq(|lines|, b requires 0 <= b < |lines| => BuildRecord(lines, b, RecordEnd(lines, b)))
  }

  /** `records[b]` is what the `try` block yields for a record opening at line `b`. */
  ghost predicate IsRecordAt(lines: seq<string>, records: seq<Result<Event, Failure>>, b: nat) {
    b < |lines| == |records| && records[b] == BuildRecord(lines, b, RecordEnd(lines, b))
  }

  /** `records` holds, for every line, what the `try` block yields for a record opening there. */
  ghost predicate RecordsOf(lines: seq<string>, records: seq<Result<Event, Failure>>) {
    |records| == |lines| && forall b :: 0 <= b < |lines| ==> IsRecordAt(lines, records, b)
  }

  lemma RecordResultsAreRecords(lines: seq<string>)
    ensures RecordsOf(lines, RecordResults(lines))
  {
    forall b | 0 <= b < |lines|
      ensures IsRecordAt(lines, RecordResults(lines), b)
    {
      RecordResultsAt(lines, b);
    }
  }

  /** The record opening at line `k` runs from `k` to its END:VEVENT line. */
  lemma RecordResultsAt(lines: seq<string>, k: nat)
    requires k < |lines|
    ensures RecordResults(lines)[k] == BuildRecord(lines, k, RecordEnd(lines, k))
  {
  }

  /**
   * What the scan makes of the record opening at line `i`, given what its
   * `try` block yields: a failure that escapes, or the scan state it resumes with.
   */
  function RecordOutcome(lines: seq<string>, records: seq<Result<Event, Failure>>, i: nat, acc: Scan)
    : (r: Result<Scan, Failure>)
    requires i < |lines| == |records| && StrictlySorted(acc.events)
    ensures r.Ok? ==> StrictlySorted(r.value.events) && RecordEnd(lines, i) < |lines| - 1
    ensures r.Err? ==> r.error.Fatal?
  {
    var record := records[i];
    if record.Err? && record.error.Fatal? then Err(record.error)
    else if RecordEnd(lines, i) == |lines| - 1 then Err(Fatal(RunPastEnd))
    else if record.Ok? then Ok(Scan(Insert(acc.events, record.value), acc.failed))
    else Ok(Scan(acc.events, true))
  }

  /**
   * The loop of `parse` from line `i` on: a BEGIN:VEVENT line starts a record
   * ending at the first END:VEVENT line; the event it builds goes into the
   * set, a `Raised` failure sets the flag, and the scan resumes after the
   * record. Any other line is skipped. The scan stops at the last line.
   */
  function ScanRecords(lines: seq<string>, records: seq<Result<Event, Failure>>, i: nat, acc: Scan)
    : (r: Result<Scan, Failure>)
    requires 1 <= i <= |lines| - 1 && |records| == |lines|
    requires StrictlySorted(acc.events)
    ensures r.Ok? ==> StrictlySorted(r.value.events)
    ensures r.Err? ==> r.error.Fatal?
    decreases |lines| - i
  {
    if i == |lines| - 1 then Ok(acc)
    else if StartsWith(lines[i], BeginEvent) then
      match RecordOutcome(lines, records, i, acc)
      case Err(f) => Err(f)
      case Ok(next) => ScanRecords(lines, records, RecordEnd(lines, i) + 1, next)
    else ScanRecords(lines, records, i + 1, acc)
  }

  const InvalidFile := Raised(Exception(ICalendar, "Invalid iCalendar file!"))
  const NoEvents := Raised(Exception(ICalendar, "Could not parse events!"))

  /** The first line opens the calendar and the last closes it. */
  predicate Framed(lines: seq<string>) {
    |lines| > 0 && StartsWith(lines[0], BeginCalendar) && StartsWith(lines[|lines| - 1], EndCalendar)
  }

  lemma FramedHasTwoLines(lines: seq<string>)
    requires Framed(lines)
    ensures |lines| >= 2
  {
    assert lines[0][0] == BeginCalendar[0];
    assert lines[|lines| - 1][0] == EndCalendar[0];
  }

  /** `parse` once the lines are preprocessed and unescaped. */
  function ParseLines(lines: seq<string>, zones: set<string>): (r: Result<Calendar, Failure>)
    ensures !Framed(lines) ==> r == Err(InvalidFile)
    ensures r.Ok? ==> Framed(lines) && StrictlySorted(r.value.events)
    ensures r.Ok? ==> && GetProperty(lines, "PRODID") == Ok(r.value.productId)
                      && GetProperty(lines, "X-WR-CALNAME") == Ok(r.value.name)
                      && GetProperty(lines, "X-WR-TIMEZONE").Ok?
                      && GetProperty(lines, "X-WR-TIMEZONE").value in zones
                      && r.value.timeZone == TimeZone(GetProperty(lines, "X-WR-TIMEZONE").value)
    ensures r == Err(NoEvents) ==>
              && Framed(lines) && |lines| >= 2
              && ScanRecords(lines, RecordResults(lines), 1, Scan([], false)).Ok?
              && ScanRecords(lines, RecordResults(lines), 1, Scan([], false)).value.failed
              && ScanRecords(lines, RecordResults(lines), 1, Scan([], false)).value.events == []
    ensures && Framed(lines) && |lines| >= 2
            && ScanRecords(lines, RecordResults(lines), 1, Scan([], false)).Ok?
            && ScanRecords(lines, RecordResults(lines), 1, Scan([], false)).value.failed
            && ScanRecords(lines, RecordResults(lines), 1, Scan([], false)).value.events == [] ==>
              r == Err(NoEvents)
    ensures r.Err? && r.error.Raised? ==>
              r.error in {InvalidFile, NoEvents, MissingProperty("PRODID"),
                          MissingProperty("X-WR-CALNAME"), MissingProperty("X-WR-TIMEZONE")}
  {
    if !Framed(lines) then Err(InvalidFile)
    else
      FramedHasTwoLines(lines);
      match ScanRecords(lines, RecordResults(lines), 1, Scan([], false))
      case Err(f) => Err(f)
      case Ok(scan) =>
        if scan.failed && scan.events == [] then Err(NoEvents)
        else
          var prodid :- GetProperty(lines, "PRODID");
          var calname :- GetProperty(lines, "X-WR-CALNAME");
          var timezone :- GetProperty(lines, "X-WR-TIMEZONE");
          NewCalendar(calname, prodid, timezone, scan.events, zones)
  }

  /** `parse(text)`: preprocess, unescape, then parse the lines. */
  function ParseText(text: string, zones: set<string>): Result<Calendar, Failure> {
    match LogicalLines(text)
    case Err(f) => Err(f)
    case Ok(lines) => ParseLines(UnescapeAll(lines), zones)
  }

  lemma ScanRecordStep(lines: seq<string>, records: seq<Result<Event, Failure>>, i: nat, acc: Scan)
    requires 1 <= i < |lines| - 1 && |records| == |lines| && StrictlySorted(acc.events)
    requires StartsWith(lines[i], BeginEvent)
    ensures RecordOutcome(lines, records, i, acc).Err? ==> ScanRecords(lines, records, i, acc) == RecordOutcome(lines, records, i, acc)
    ensures RecordOutcome(lines, records, i, acc).Ok? ==>
              ScanRecords(lines, records, i, acc) == ScanRecords(lines, records, RecordEnd(lines, i) + 1, RecordOutcome(lines, records, i, acc).value)
  {
  }

  lemma ScanSkipStep(lines: seq<string>, records: seq<Result<Event, Failure>>, i: nat, acc: Scan)
    requires 1 <= i < |lines| - 1 && |records| == |lines| && StrictlySorted(acc.events)
    requires !StartsWith(lines[i], BeginEvent)
    ensures ScanRecords(lines, records, i, acc) == ScanRecords(lines, records, i + 1, acc)
  {
  }

  /** The preprocessed lines copied into a vector and unescaped by `fix_escapes`. */
  method UnescapeLines(lines: seq<string>) returns (r: seq<string>)
    ensures r == UnescapeAll(lines)
  {
    var buffer := new string[|lines|](k requires 0 <= k < |lines| => lines[k]);
    assert buffer[..] == lines;
    FixEscapes(buffer);
    r := buffer[..];
  }

  /**
   * One pass of the loop of `parse` over a record opening at line `i`: find
   * its END:VEVENT line, run the `try` block, then stop on an uncaught
   * failure or on a record that runs to the last line, or insert the event
   * or set the `event_fail` flag.
   */
  method ScanRecord(lines: seq<string>, ghost records: seq<Result<Event, Failure>>, i: nat, acc: Scan)
    returns (outcome: Result<Scan, Failure>, end: nat)
    requires i < |lines| && RecordsOf(lines, records) && StrictlySorted(acc.events)
    ensures end == RecordEnd(lines, i)
    ensures outcome == RecordOutcome(lines, records, i, acc)
  {
    end := FindLine(lines, i, |lines| - 1, EndEvent);
    var record := BuildRecord(lines, i, end);
    assert IsRecordAt(lines, records, i);
    if record.Err? && record.error.Fatal? {
      return Err(record.error), end;
    }
    if end == |lines| - 1 {
      return Err(Fatal(RunPastEnd)), end;
    }
    if record.Ok? {
      outcome := Ok(Scan(Insert(acc.events, record.value), acc.failed));
    } else {
      outcome := Ok(Scan(acc.events, true));
    }
  }

  /**
   * The loop of `parse` as the source writes it: an iterator from the
   * second line to the last, the `event_fail` flag and the event set.
   */
  method ScanLines(lines: seq<string>, ghost records: seq<Result<Event, Failure>>) returns (r: Result<Scan, Failure>)
    requires |lines| >= 2 && RecordsOf(lines, records)
    ensures r == ScanRecords(lines, records, 1, Scan([], false))
  {
    var failed := false;
    var events: seq<Event> := [];
    var iter := 1;
    while iter != |lines| - 1
      invariant 1 <= iter <= |lines| - 1
      invariant StrictlySorted(events)
      invariant ScanRecords(lines, records, iter, Scan(events, failed)) == ScanRecords(lines, records, 1, Scan([], false))
      decreases |lines| - iter
    {
      if StartsWith(lines[iter], BeginEvent) {
        ScanRecordStep(lines, records, iter, Scan(events, failed));
        var outcome, end := ScanRecord(lines, records, iter, Scan(events, failed));
        if outcome.Err? {
          return Err(outcome.error);
        }
        events, failed := outcome.value.events, outcome.value.failed;
        iter := end + 1;
      } else {
        ScanSkipStep(lines, records, iter, Scan(events, failed));
        iter := iter + 1;
      }
    }
    r := Ok(Scan(events, failed));
  }

  /** `parse` as the source writes it, step by step. */
  method Parse(text: string, zones: set<string>) returns (r: Result<Calendar, Failure>)
    ensures r == ParseText(text, zones)
  {
    var pre := Preprocess(text);
    if pre.Err? {
      return Err(pre.error);
    }
    var lines := UnescapeLines(pre.value);
    if !Framed(lines) {
      return Err(InvalidFile);
    }
    FramedHasTwoLines(lines);
    RecordResultsAreRecords(lines);
    var scan := ScanLines(lines, RecordResults(lines));
    if scan.Err? {
      return Err(scan.error);
    }
    if scan.value.failed && scan.value.events == [] {
      return Err(NoEvents);
    }
    var prodid := GetProperty(lines, "PRODID");
    if prodid.Err? {
      return Err(prodid.error);
    }
    var calname := GetProperty(lines, "X-WR-CALNAME");
    if calname.Err? {
      return Err(calname.error);
    }
    var timezone := GetProperty(lines, "X-WR-TIMEZONE");
    if timezone.Err? {
      return Err(timezone.error);
    }
    r := NewCalendar(calname.value, prodid.value, timezone.value, scan.value.events, zones);
  }

  // ---------------------------------------------------------------------------
  // What a parse yields

  /** The event the record opening at line `b` builds, if one opens there and builds one. */
  function RecordEvent(lines: seq<string>, records: seq<Result<Event, Failure>>, b: nat): Option<Event>
    requires b < |lines| == |records|
  {
    if StartsWith(lines[b], BeginEvent) && records[b].Ok? then Some(records[b].value) else None
  }

  /** The record opening at line `b` fails with an exception `parse` catches. */
  predicate RecordRaises(lines: seq<string>, records: seq<Result<Event, Failure>>, b: nat)
    requires b < |lines| == |records|
  {
    StartsWith(lines[b], BeginEvent) && records[b].Err? && records[b].error.Raised?
  }

  /** The events built by records opening at lines `i` .. the one before last. */
  ghost function BuiltEvents(lines: seq<string>, records: seq<Result<Event, Failure>>, i: nat): set<Event>
    requires i <= |lines| == |records|
    decreases |lines| - i
  {
    if i + 1 >= |lines| then {}
    else (match RecordEvent(lines, records, i) case Some(ev) => {ev} case None => {})
         + BuiltEvents(lines, records, i + 1)
  }

  /** Some record opening at lines `i` .. the one before last fails with a caught exception. */
  ghost predicate HasFailingRecord(lines: seq<string>, records: seq<Result<Event, Failure>>, i: nat)
    requires i <= |lines| == |records|
    decreases |lines| - i
  {
    i + 1 < |lines| && (RecordRaises(lines, records, i) || HasFailingRecord(lines, records, i + 1))
  }

  lemma {:induction false} BuiltEventsShrink(lines: seq<string>, records: seq<Result<Event, Failure>>, i: nat, j: nat)
    requires i <= j <= |lines| == |records|
    ensures BuiltEvents(lines, records, j) <= BuiltEvents(lines, records, i)
    ensures HasFailingRecord(lines, records, j) ==> HasFailingRecord(lines, records, i)
    decreases j - i
  {
    if i < j {
      BuiltEventsShrink(lines, records, i + 1, j);
    }
  }

  /** An event in `BuiltEvents` names the line whose record built it. */
  lemma {:induction false} BuiltEventOrigin(lines: seq<string>, records: seq<Result<Event, Failure>>, i: nat, ev: Event)
    returns (b: nat)
    requires i <= |lines| == |records| && ev in BuiltEvents(lines, records, i)
    ensures i <= b < |lines| - 1 && RecordEvent(lines, records, b) == Some(ev)
    decreases |lines| - i
  {
    if RecordEvent(lines, records, i) == Some(ev) {
      b := i;
    } else {
      b := BuiltEventOrigin(lines, records, i + 1, ev);
    }
  }

  /** With no BEGIN:VEVENT line left, the scan ends with what it has. */
  lemma {:induction false} ScanWithoutRecords(lines: seq<string>, records: seq<Result<Event, Failure>>, i: nat, acc: Scan)
    requires 1 <= i <= |lines| - 1 && |records| == |lines| && StrictlySorted(acc.events)
    requires forall k :: i <= k < |lines| - 1 ==> !StartsWith(lines[k], BeginEvent)
    ensures ScanRecords(lines, records, i, acc) == Ok(acc)
    decreases |lines| - i
  {
    if i < |lines| - 1 {
      ScanWithoutRecords(lines, records, i + 1, acc);
    }
  }

  /** Every event the scan collects was already collected or was built from a record. */
  lemma {:induction false} ScanEventsComeFromRecords(lines: seq<string>, records: seq<Result<Event, Failure>>,
                                                     i: nat, acc: Scan)
    requires 1 <= i <= |lines| - 1 && |records| == |lines| && StrictlySorted(acc.events)
    ensures ScanRecords(lines, records, i, acc).Ok? ==>
              forall ev :: ev in ScanRecords(lines, records, i, acc).value.events ==>
                             ev in acc.events || ev in BuiltEvents(lines, records, i)
    decreases |lines| - i
  {
    if i < |lines| - 1 && ScanRecords(lines, records, i, acc).Ok? {
      if StartsWith(lines[i], BeginEvent) {
        var e := RecordEnd(lines, i);
        var next := RecordOutcome(lines, records, i, acc).value;
        ScanEventsComeFromRecords(lines, records, e + 1, next);
        BuiltEventsShrink(lines, records, i, e + 1);
        assert forall ev :: ev in next.events ==> ev in acc.events || ev in BuiltEvents(lines, records, i);
      } else {
        ScanEventsComeFromRecords(lines, records, i + 1, acc);
      }
    }
  }

  /** The scan sets its flag only when some record fails with a caught exception. */
  lemma {:induction false} ScanFailureComesFromRecord(lines: seq<string>, records: seq<Result<Event, Failure>>,
                                                      i: nat, acc: Scan)
    requires 1 <= i <= |lines| - 1 && |records| == |lines| && StrictlySorted(acc.events)
    ensures ScanRecords(lines, records, i, acc).Ok? && ScanRecords(lines, records, i, acc).value.failed ==>
              acc.failed || HasFailingRecord(lines, records, i)
    decreases |lines| - i
  {
    if i < |lines| - 1 && ScanRecords(lines, records, i, acc).Ok? {
      if StartsWith(lines[i], BeginEvent) {
        var e := RecordEnd(lines, i);
        ScanFailureComesFromRecord(lines, records, e + 1, RecordOutcome(lines, records, i, acc).value);
        BuiltEventsShrink(lines, records, i, e + 1);
      } else {
        ScanFailureComesFromRecord(lines, records, i + 1, acc);
      }
    }
  }

  /**
   * The events built by the records the scan visits from line `i` on: a
   * record opening at a visited line, after which the scan resumes past its
   * END:VEVENT line. A record that fails adds nothing.
   */
  ghost function ScannedEvents(lines: seq<string>, records: seq<Result<Event, Failure>>, i: nat): set<Event>
    requires i <= |lines| == |records|
    decreases |lines| - i
  {
    if i + 1 >= |lines| then {}
    else if StartsWith(lines[i], BeginEvent) then
      (if records[i].Ok? then {records[i].value} else {}) + ScannedEvents(lines, records, RecordEnd(lines, i) + 1)
    else ScannedEvents(lines, records, i + 1)
  }

  /** `std::set::insert` keeps what the set held and holds an element with the key of `e` afterwards. */
  lemma InsertKeeps(s: seq<Event>, e: Event)
    requires StrictlySorted(s)
    ensures forall x :: x in s ==> x in Insert(s, e)
    ensures HasKey(Insert(s, e), e)
  {
    InsertContents(s, e);
    if !HasKey(s, e) {
      assert e in multiset(Insert(s, e));
      assert SameKey(e, e);
      forall x | x in s
        ensures x in Insert(s, e)
      {
        assert x in multiset(Insert(s, e));
      }
    }
  }

  /** A record the scan visits keeps what the scan had and adds at most its own event, by key. */
  lemma OutcomeKeeps(lines: seq<string>, records: seq<Result<Event, Failure>>, i: nat, acc: Scan)
    requires i < |lines| == |records| && StrictlySorted(acc.events)
    requires RecordOutcome(lines, records, i, acc).Ok?
    ensures var next := RecordOutcome(lines, records, i, acc).value.events;
            && (forall x :: x in acc.events ==> x in next)
            && (records[i].Ok? ==> HasKey(next, records[i].value))
            && (forall x :: x in next ==> x in acc.events || (records[i].Ok? && x == records[i].value))
  {
    if records[i].Ok? {
      InsertKeeps(acc.events, records[i].value);
    }
  }

  /** Keeping and provenance facts compose over two steps of the scan. */
  lemma KeepsThrough(acc: seq<Event>, next: seq<Event>, result: seq<Event>, added: set<Event>, later: set<Event>)
    requires forall x :: x in acc ==> x in next
    requires forall ev :: ev in added ==> HasKey(next, ev)
    requires forall x :: x in next ==> x in acc || x in added
    requires forall x :: x in next ==> x in result
    requires forall ev :: ev in later ==> HasKey(result, ev)
    requires forall x :: x in result ==> x in next || x in later
    ensures forall x :: x in acc ==> x in result
    ensures forall ev :: ev in added + later ==> HasKey(result, ev)
    ensures forall x :: x in result ==> x in acc || x in added + later
  {
    forall ev | ev in added
      ensures HasKey(result, ev)
    {
      var x :| x in next && SameKey(x, ev);
      assert x in result;
    }
  }

  /**
   * The scan from line `i` keeps what it had, holds an event with the key
   * of every event a visited record builds, and holds nothing else.
   */
  lemma {:induction false} ScanKeepsVisitedRecords(lines: seq<string>, records: seq<Result<Event, Failure>>,
                                                   i: nat, acc: Scan)
    requires 1 <= i <= |lines| - 1 && |records| == |lines| && StrictlySorted(acc.events)
    ensures ScanRecords(lines, records, i, acc).Ok? ==>
              var result := ScanRecords(lines, records, i, acc).value.events;
              && (forall ev :: ev in acc.events ==> ev in result)
              && (forall ev :: ev in ScannedEvents(lines, records, i) ==> HasKey(result, ev))
              && (forall ev :: ev in result ==> ev in acc.events || ev in ScannedEvents(lines, records, i))
    decreases |lines| - i
  {
    if i < |lines| - 1 && ScanRecords(lines, records, i, acc).Ok? {
      var result := ScanRecords(lines, records, i, acc).value.events;
      if StartsWith(lines[i], BeginEvent) {
        var e := RecordEnd(lines, i);
        var next := RecordOutcome(lines, records, i, acc).value;
        var added: set<Event> := if records[i].Ok? then {records[i].value} else {};
        ScanRecordStep(lines, records, i, acc);
        OutcomeKeeps(lines, records, i, acc);
        ScanKeepsVisitedRecords(lines, records, e + 1, next);
        assert ScannedEvents(lines, records, i) == added + ScannedEvents(lines, records, e + 1);
        KeepsThrough(acc.events, next.events, result, added, ScannedEvents(lines, records, e + 1));
      } else {
        ScanKeepsVisitedRecords(lines, records, i + 1, acc);
      }
    }
  }

  /**
   * The events of a parsed calendar are the events built by the records the
   * scan visits, one per key: every event comes from such a record, and every
   * such record that builds an event has its key in the calendar. A record
   * that fails with a caught exception is skipped and the others are kept.
   */
  lemma ParsedEventsAreVisitedRecords(lines: seq<string>, zones: set<string>)
    ensures ParseLines(lines, zones).Ok? ==>
              && (forall ev :: ev in ParseLines(lines, zones).value.events ==>
                                 ev in ScannedEvents(lines, RecordResults(lines), 1))
              && (forall ev :: ev in ScannedEvents(lines, RecordResults(lines), 1) ==>
                                 HasKey(ParseLines(lines, zones).value.events, ev))
  {
    if Framed(lines) {
      FramedHasTwoLines(lines);
      ScanKeepsVisitedRecords(lines, RecordResults(lines), 1, Scan([], false));
    }
  }

  /** Some record the scan visits from line `i` on fails with a caught exception. */
  ghost predicate ScannedFailure(lines: seq<string>, records: seq<Result<Event, Failure>>, i: nat)
    requires i <= |lines| == |records|
    decreases |lines| - i
  {
    && i + 1 < |lines|
    && if StartsWith(lines[i], BeginEvent) then
         RecordRaises(lines, records, i) || ScannedFailure(lines, records, RecordEnd(lines, i) + 1)
       else ScannedFailure(lines, records, i + 1)
  }

  /** The scan's flag ends up set exactly when it was set or a visited record raised. */
  lemma {:induction false} ScanFailureIff(lines: seq<string>, records: seq<Result<Event, Failure>>, i: nat, acc: Scan)
    requires 1 <= i <= |lines| - 1 && |records| == |lines| && StrictlySorted(acc.events)
    ensures ScanRecords(lines, records, i, acc).Ok? ==>
              (ScanRecords(lines, records, i, acc).value.failed <==> acc.failed || ScannedFailure(lines, records, i))
    decreases |lines| - i
  {
    if i < |lines| - 1 && ScanRecords(lines, records, i, acc).Ok? {
      if StartsWith(lines[i], BeginEvent) {
        var next := RecordOutcome(lines, records, i, acc).value;
        assert next.failed == (acc.failed || RecordRaises(lines, records, i));
        ScanRecordStep(lines, records, i, acc);
        ScanFailureIff(lines, records, RecordEnd(lines, i) + 1, next);
      } else {
        ScanFailureIff(lines, records, i + 1, acc);
      }
    }
  }

  /**
   * "Could not parse events!" is raised exactly when the scan passes, no
   * record it visits builds an event, and at least one of them raises.
   */
  lemma NoEventsIffVisitedRecordsFail(lines: seq<string>, zones: set<string>)
    requires Framed(lines) && |lines| >= 2
    ensures ParseLines(lines, zones) == Err(NoEvents) <==>
              && ScanRecords(lines, RecordResults(lines), 1, Scan([], false)).Ok?
              && ScannedEvents(lines, RecordResults(lines), 1) == {}
              && ScannedFailure(lines, RecordResults(lines), 1)
  {
    var records := RecordResults(lines);
    ScanKeepsVisitedRecords(lines, records, 1, Scan([], false));
    ScanFailureIff(lines, records, 1, Scan([], false));
    var scan := ScanRecords(lines, records, 1, Scan([], false));
    if scan.Ok? {
      EmptyExactlyWhenNoneVisited(scan.value.events, ScannedEvents(lines, records, 1));
    }
  }

  /** A scan result holding exactly the visited events is empty exactly when none were visited. */
  lemma EmptyExactlyWhenNoneVisited(result: seq<Event>, visited: set<Event>)
    requires forall ev :: ev in visited ==> HasKey(result, ev)
    requires forall ev :: ev in result ==> ev in visited
    ensures result == [] <==> visited == {}
  {
    if result != [] {
      assert result[0] in visited;
    }
  }

  /**
   * Every event of a parsed calendar was built by one of its records, and
   * "Could not parse events!" means some record failed with a caught exception.
   */
  lemma ParsedEventsComeFromRecords(lines: seq<string>, zones: set<string>)
    ensures ParseLines(lines, zones).Ok? ==>
              forall ev :: ev in ParseLines(lines, zones).value.events ==> ev in BuiltEvents(lines, RecordResults(lines), 1)
    ensures ParseLines(lines, zones) == Err(NoEvents) ==> HasFailingRecord(lines, RecordResults(lines), 1)
  {
    if Framed(lines) {
      FramedHasTwoLines(lines);
      ScanEventsComeFromRecords(lines, RecordResults(lines), 1, Scan([], false));
      ScanFailureComesFromRecord(lines, RecordResults(lines), 1, Scan([], false));
    }
  }

  /** A framed feed without any BEGIN:VEVENT line parses to a calendar with no events. */
  lemma FeedWithoutRecordsIsEmpty(lines: seq<string>, zones: set<string>)
    requires Framed(lines)
    requires forall k :: 0 < k < |lines| - 1 ==> !StartsWith(lines[k], BeginEvent)
    requires GetProperty(lines, "PRODID").Ok? && GetProperty(lines, "X-WR-CALNAME").Ok?
    requires GetProperty(lines, "X-WR-TIMEZONE").Ok? && GetProperty(lines, "X-WR-TIMEZONE").value in zones
    ensures ParseLines(lines, zones).Ok?
    ensures ParseLines(lines, zones).value.events == []
    ensures ParseLines(lines, zones).value.name == GetProperty(lines, "X-WR-CALNAME").value
  {
    FramedHasTwoLines(lines);
    ScanWithoutRecords(lines, RecordResults(lines), 1, Scan([], false));
  }

  /**
   * Once the records are read without "Could not parse events!", the
   * metadata is read in the order PRODID, X-WR-CALNAME, X-WR-TIMEZONE, and
   * the first one with no line is reported as missing: these three lemmas.
   */
  lemma MissingProductIdIsReported(lines: seq<string>, zones: set<string>)
    requires Framed(lines) && |lines| >= 2
    requires ScanRecords(lines, RecordResults(lines), 1, Scan([], false)).Ok?
    requires !ScanRecords(lines, RecordResults(lines), 1, Scan([], false)).value.failed || ScanRecords(lines, RecordResults(lines), 1, Scan([], false)).value.events != []
    requires forall k :: 0 <= k < |lines| ==> !StartsWith(lines[k], "PRODID")
    ensures ParseLines(lines, zones) == Err(MissingProperty("PRODID"))
  {
    MissingIsReported(lines, "PRODID");
  }

  lemma MissingCalendarNameIsReported(lines: seq<string>, zones: set<string>)
    requires Framed(lines) && |lines| >= 2
    requires ScanRecords(lines, RecordResults(lines), 1, Scan([], false)).Ok?
    requires !ScanRecords(lines, RecordResults(lines), 1, Scan([], false)).value.failed || ScanRecords(lines, RecordResults(lines), 1, Scan([], false)).value.events != []
    requires GetProperty(lines, "PRODID").Ok?
    requires forall k :: 0 <= k < |lines| ==> !StartsWith(lines[k], "X-WR-CALNAME")
    ensures ParseLines(lines, zones) == Err(MissingProperty("X-WR-CALNAME"))
  {
    MissingIsReported(lines, "X-WR-CALNAME");
  }

  lemma MissingTimeZoneIsReported(lines: seq<string>, zones: set<string>)
    requires Framed(lines) && |lines| >= 2
    requires ScanRecords(lines, RecordResults(lines), 1, Scan([], false)).Ok?
    requires !ScanRecords(lines, RecordResults(lines), 1, Scan([], false)).value.failed || ScanRecords(lines, RecordResults(lines), 1, Scan([], false)).value.events != []
    requires GetProperty(lines, "PRODID").Ok? && GetProperty(lines, "X-WR-CALNAME").Ok?
    requires forall k :: 0 <= k < |lines| ==> !StartsWith(lines[k], "X-WR-TIMEZONE")
    ensures ParseLines(lines, zones) == Err(MissingProperty("X-WR-TIMEZONE"))
  {
    MissingIsReported(lines, "X-WR-TIMEZONE");
  }

  /** A name no line starts with is reported missing. */
  lemma MissingIsReported(lines: seq<string>, name: string)
    requires forall k :: 0 <= k < |lines| ==> !StartsWith(lines[k], name)
    ensures GetProperty(lines, name) == Err(MissingProperty(name))
  {
    GetPropertyFindsFirstLine(lines, 0, |lines|, name);
  }

  /** No line holding backslash-n in `[begin, end)` means the record's event has only an address. */
  lemma RecordWithoutEscapesHasOnlyAddress(lines: seq<string>, begin: nat, end: nat)
    requires begin <= end <= |lines|
    requires forall k :: begin <= k < end ==> NoEscapedNewline(lines[k])
    ensures BuildRecord(lines, begin, end).Ok? ==>
              var ev := BuildRecord(lines, begin, end).value;
              ev.url.None? && ev.location.room.None? && ev.location.building.None?
  {
    if BuildRecord(lines, begin, end).Ok? {
      BuiltRecordFields(lines, begin, end);
      ReadRecordFields(lines, begin, end);
      DescriptionWithoutEscapes(lines, begin, end);
    }
  }

  /**
   * The reads succeed exactly when all six properties are present and the
   * DTSTART and DTEND values are at least 16 characters long; the values are
   * those of the properties, with the first 16 characters of DTSTART and
   * DTEND cut.
   */
  lemma ReadRecordFields(lines: seq<string>, begin: nat, end: nat)
    requires begin <= end <= |lines|
    ensures var cut := ConstStringLength(DateTimeLiteral);
            var start := GetPropertyIn(lines, begin, end, "DTSTART");
            var finish := GetPropertyIn(lines, begin, end, "DTEND");
            var summary := GetPropertyIn(lines, begin, end, "SUMMARY");
            var uid := GetPropertyIn(lines, begin, end, "UID");
            var description := GetPropertyIn(lines, begin, end, "DESCRIPTION");
            var location := GetPropertyIn(lines, begin, end, "LOCATION");
            var read := ReadRecord(lines, begin, end);
            && (read.Ok? <==> && start.Ok? && cut <= |start.value| && finish.Ok? && cut <= |finish.value|
                              && summary.Ok? && uid.Ok? && description.Ok? && location.Ok?)
            && (read.Ok? ==> read.value == RecordProperties(summary.value, start.value[cut..], finish.value[cut..],
                                                            uid.value, description.value, location.value))
  {
  }

  /**
   * A record builds an event exactly when its reads succeed and both
   * timestamps parse. The event's UID is the UID value, its start and end
   * are the parsed DTSTART and DTEND, its subject and type the split
   * SUMMARY, and its place what `ClassifyLocation` makes of DESCRIPTION and
   * LOCATION. Once the reads succeed, the only failure is the timestamp one.
   */
  lemma BuiltRecordFields(lines: seq<string>, begin: nat, end: nat)
    requires begin <= end <= |lines|
    ensures var read := ReadRecord(lines, begin, end);
            var r := BuildRecord(lines, begin, end);
            && (r.Ok? <==> read.Ok? && ParseTimestamp(read.value.dtstart).Some? && ParseTimestamp(read.value.dtend).Some?)
            && (r.Ok? ==> && r.value.uid == read.value.uid
                          && ParseTimestamp(read.value.dtstart) == Some(r.value.start)
                          && ParseTimestamp(read.value.dtend) == Some(r.value.end)
                          && SplitSummary(read.value.summary) == Summary(r.value.subject, r.value.kind)
                          && ClassifyLocation(read.value.description, read.value.location)
                             == Placement(r.value.location, r.value.url))
            && (read.Ok? && r.Err? ==> r.error == Raised(TimestampError))
            && (read.Err? ==> r == Err(read.error))
  {
  }

  /**
   * The discrepancy at the level of a record: the code as written builds an
   * event whenever the reads succeed, and where the intended constructor
   * rejects a timestamp it builds one that starts or ends at the epoch.
   * Otherwise the two agree.
   */
  lemma RecordAsWrittenAdmitsMalformedTimestamps(lines: seq<string>, begin: nat, end: nat)
    requires begin <= end <= |lines|
    ensures BuildRecordAsWritten(lines, begin, end).Ok? <==> ReadRecord(lines, begin, end).Ok?
    ensures BuildRecord(lines, begin, end) != Err(Raised(TimestampError)) ==>
              BuildRecordAsWritten(lines, begin, end) == BuildRecord(lines, begin, end)
    ensures BuildRecord(lines, begin, end) == Err(Raised(TimestampError)) ==>
              && BuildRecordAsWritten(lines, begin, end).Ok?
              && (BuildRecordAsWritten(lines, begin, end).value.start == Epoch
                  || BuildRecordAsWritten(lines, begin, end).value.end == Epoch)
  {
  }

  /** A DESCRIPTION value read from lines without backslash-n holds no separator. */
  lemma DescriptionWithoutEscapes(lines: seq<string>, begin: nat, end: nat)
    requires begin <= end <= |lines|
    requires forall k :: begin <= k < end ==> NoEscapedNewline(lines[k])
    ensures GetPropertyIn(lines, begin, end, "DESCRIPTION").Ok? ==>
              Occurrences(GetPropertyIn(lines, begin, end, "DESCRIPTION").value, DescriptionSeparator, 0) == 0
  {
    var description := GetPropertyIn(lines, begin, end, "DESCRIPTION");
    if description.Ok? {
      GetPropertyFindsFirstLine(lines, begin, end, "DESCRIPTION");
      var k :| k < end && FirstWith(lines, begin, k, "DESCRIPTION") && |"DESCRIPTION"| + 1 <= |lines[k]|
               && description.value == lines[k][|"DESCRIPTION"| + 1..];
      NoEscapedNewlineInSuffix(lines[k], |"DESCRIPTION"| + 1);
      NoEscapedNewlineIsNotContained(description.value);
      PiecesWithoutDelimiter(description.value, DescriptionSeparator);
      PiecesCount(description.value, DescriptionSeparator);
    }
  }

  lemma NoEscapedNewlineInSuffix(s: string, k: nat)
    requires k <= |s| && NoEscapedNewline(s)
    ensures NoEscapedNewline(s[k..])
  {
    assert forall i :: 0 <= i < |s[k..]| ==> s[k..][i] == s[k + i];
  }

  /**
   * `fix_escapes` runs before the records are read, so no DESCRIPTION value
   * still holds the backslash-n that the event constructor splits on: every
   * parsed event has an address but no room, building or URL.
   */
  lemma ParsedEventsHaveOnlyAddress(text: string, zones: set<string>)
    ensures ParseText(text, zones).Ok? ==>
              forall ev :: ev in ParseText(text, zones).value.events ==>
                             ev.url.None? && ev.location.room.None? && ev.location.building.None?
  {
    if ParseText(text, zones).Ok? {
      var lines := UnescapeAll(LogicalLines(text).value);
      forall k | 0 <= k < |lines|
        ensures NoEscapedNewline(lines[k])
      {
        UnescapeLeavesNoEscapedNewline(LogicalLines(text).value[k]);
      }
      ParsedEventsComeFromRecords(lines, zones);
      forall ev | ev in ParseText(text, zones).value.events
        ensures ev.url.None? && ev.location.room.None? && ev.location.building.None?
      {
        var b := BuiltEventOrigin(lines, RecordResults(lines), 1, ev);
        RecordResultsAt(lines, b);
        RecordWithoutEscapesHasOnlyAddress(lines, b, RecordEnd(lines, b));
      }
    }
  }
}
