/**
 * One timetable occurrence, as built by the `Event` constructor of
 * src/icalendar/event.hpp: the SUMMARY split into type and subject, the two
 * DATE-TIME timestamps (section 3.3.5 of RFC 5545), the DESCRIPTION-driven
 * location, and the `(start, end, uid)` order the event set is kept in.
 * An `Event` never changes once built, so it is a value.
 */
module Events {
  import opened Wrappers
  import opened Exceptions
  import opened Utilities

  // ---------------------------------------------------------------------------
  // Timestamps

  /** A naive local date and time (`std::chrono::local_seconds`), kept as its fields. */
  datatype LocalTime = LocalTime(year: nat, month: nat, day: nat, hour: nat, minute: nat, second: nat)

  /** What a default-constructed `local_seconds` holds: 1970-01-01 00:00:00. */
  const Epoch := LocalTime(1970, 1, 1, 0, 0, 0)

  /** The field ranges `%Y%m%dT%H%M%S` accepts (days are not checked against the month). */
  predicate ValidTime(t: LocalTime) {
    t.year < 10000 && 1 <= t.month <= 12 && 1 <= t.day <= 31 && t.hour < 24 && t.minute < 60 && t.second < 60
  }

  /** A number that orders local times field by field, most significant first. */
  function Ordinal(t: LocalTime): int {
    ((((t.year * 100 + t.month) * 100 + t.day) * 100 + t.hour) * 100 + t.minute) * 100 + t.second
  }

  /**
   * `std::chrono::parse("%Y%m%dT%H%M%S", ...)` read from the start of `s`:
   * eight digits, `T`, six digits. What follows (a `Z`, say) is left unread.
   */
  function ParseTimestamp(s: string): (r: Option<LocalTime>)
    ensures r.Some? ==> ValidTime(r.value)
  {
    if && |s| >= 15
       && AllDigits(s[0..4]) && AllDigits(s[4..6]) && AllDigits(s[6..8]) && s[8] == 'T'
       && AllDigits(s[9..11]) && AllDigits(s[11..13]) && AllDigits(s[13..15])
    then
      var t := LocalTime(DigitsValue(s[0..4]), DigitsValue(s[4..6]), DigitsValue(s[6..8]),
                         DigitsValue(s[9..11]), DigitsValue(s[11..13]), DigitsValue(s[13..15]));
      if ValidTime(t) then Some(t) else None
    else None
  }

  /** The DATE-TIME text of a local time, `YYYYMMDDTHHMMSS`: the inverse of `ParseTimestamp`. */
  function FormatTimestamp(t: LocalTime): string {
    PadDigits(t.year, 4) + PadDigits(t.month, 2) + PadDigits(t.day, 2) + "T"
    + PadDigits(t.hour, 2) + PadDigits(t.minute, 2) + PadDigits(t.second, 2)
  }

  /** Every valid local time, written out and followed by anything, parses back to itself. */
  lemma FormatThenParse(t: LocalTime, rest: string)
    requires ValidTime(t)
    ensures ParseTimestamp(FormatTimestamp(t) + rest) == Some(t)
  {
    var s := FormatTimestamp(t) + rest;
    assert s[0..4] == PadDigits(t.year, 4);
    assert s[4..6] == PadDigits(t.month, 2);
    assert s[6..8] == PadDigits(t.day, 2);
    assert s[9..11] == PadDigits(t.hour, 2);
    assert s[11..13] == PadDigits(t.minute, 2);
    assert s[13..15] == PadDigits(t.second, 2);
    PadDigitsValue(t.year, 4);
    PadDigitsValue(t.month, 2);
    PadDigitsValue(t.day, 2);
    PadDigitsValue(t.hour, 2);
    PadDigitsValue(t.minute, 2);
    PadDigitsValue(t.second, 2);
  }

  /** A timestamp that parses is exactly the first fifteen characters of its text. */
  lemma ParseThenFormat(s: string)
    requires ParseTimestamp(s).Some?
    ensures FormatTimestamp(ParseTimestamp(s).value) == s[..15]
  {
    PadDigitsOfValue(s[0..4]);
    PadDigitsOfValue(s[4..6]);
    PadDigitsOfValue(s[6..8]);
    PadDigitsOfValue(s[9..11]);
    PadDigitsOfValue(s[11..13]);
    PadDigitsOfValue(s[13..15]);
    assert s[..15] == s[0..4] + s[4..6] + s[6..8] + "T" + s[9..11] + s[11..13] + s[13..15];
  }

  // ---------------------------------------------------------------------------
  // Summary: type and subject

  const SummarySeparator := " - "

  datatype Summary = Summary(subject: string, kind: Option<string>)

  /**
   * The SUMMARY split on `" - "`: with exactly one separator the part before
   * it is the type and the part after it the subject; otherwise the whole
   * summary is the subject and there is no type. The type ends where the
   * first separator starts.
   */
  function SplitSummary(summary: string): (r: Summary)
    ensures r.kind.Some? <==> Occurrences(summary, SummarySeparator, 0) == 1
    ensures r.kind.Some? ==> summary == r.kind.value + SummarySeparator + r.subject
    ensures r.kind.Some? ==> Find(summary, SummarySeparator, 0) == Some(|r.kind.value|)
    ensures r.kind.Some? ==> !ContainsText(r.kind.value, SummarySeparator) && !ContainsText(r.subject, SummarySeparator)
    ensures r.kind.None? ==> r.subject == summary
  {
    var parts := Pieces(summary, SummarySeparator);
    PiecesJoin(summary, SummarySeparator);
    PiecesCount(summary, SummarySeparator);
    PiecesAvoidDelimiter(summary, SummarySeparator);
    if |parts| == 2 then
      assert parts[1..] == [parts[1]];
      assert Find(summary, SummarySeparator, 0).Some?;
      PiecesFromFound(summary, SummarySeparator, 0, Find(summary, SummarySeparator, 0).value);
      Summary(parts[1], Some(parts[0]))
    else if |parts| == 1 then
      Summary(parts[0], None)
    else
      Summary(summary, None)
  }

  // ---------------------------------------------------------------------------
  // Location

  /** The two characters backslash and `n` that the constructor splits DESCRIPTION on. */
  const DescriptionSeparator := "\\n"
  const RoomSeparator := ": "

  /** The event's place: room and building when known, and always the address. */
  datatype Location = Location(room: Option<string>, building: Option<string>, address: string)

  /** Location and web link, the two things the constructor takes from DESCRIPTION. */
  datatype Placement = Placement(location: Location, url: Option<string>)

  predicate EndsWith(s: string, suffix: string) {
    |suffix| <= |s| && s[|s| - |suffix|..] == suffix
  }

  /**
   * The room named by the first DESCRIPTION line: the text after `": "` when
   * the line holds exactly one `": "`, and the whole line otherwise.
   */
  function RoomOf(line: string): (room: string)
    ensures Occurrences(line, RoomSeparator, 0) == 1 ==>
              EndsWith(line, RoomSeparator + room) && !ContainsText(room, RoomSeparator)
    ensures Occurrences(line, RoomSeparator, 0) != 1 ==> room == line
  {
    var parts := Pieces(line, RoomSeparator);
    PiecesJoin(line, RoomSeparator);
    PiecesCount(line, RoomSeparator);
    PiecesAvoidDelimiter(line, RoomSeparator);
    if |parts| == 2 then
      assert parts[1..] == [parts[1]];
      assert line == parts[0] + (RoomSeparator + parts[1]);
      parts[1]
    else line
  }

  /**
   * The location taken from DESCRIPTION and LOCATION. A description of
   * exactly three backslash-n separated parts gives room (from the first),
   * building (the second) and web link (the third); any other description
   * gives the address alone. The address is LOCATION either way.
   */
  function ClassifyLocation(description: string, address: string): (r: Placement)
    ensures r.location.address == address
    ensures r.url.Some? <==> Occurrences(description, DescriptionSeparator, 0) == 2
    ensures r.location.room.Some? == r.url.Some? && r.location.building.Some? == r.url.Some?
    ensures r.url.Some? ==>
              var tail := DescriptionSeparator + r.location.building.value + DescriptionSeparator + r.url.value;
              && EndsWith(description, tail)
              && r.location.room.value == RoomOf(description[..|description| - |tail|])
              && !ContainsText(r.location.building.value, DescriptionSeparator)
              && !ContainsText(r.url.value, DescriptionSeparator)
  {
    var parts := Pieces(description, DescriptionSeparator);
    PiecesCount(description, DescriptionSeparator);
    if |parts| == 3 then
      DescriptionTail(description);
      Placement(Location(Some(RoomOf(parts[0])), Some(parts[1]), address), Some(parts[2]))
    else
      Placement(Location(None, None, address), None)
  }

  /** A description of three parts ends with the last two, each after a separator, and none holds one. */
  lemma DescriptionTail(description: string)
    requires |Pieces(description, DescriptionSeparator)| == 3
    ensures var parts := Pieces(description, DescriptionSeparator);
            var tail := DescriptionSeparator + parts[1] + DescriptionSeparator + parts[2];
            && EndsWith(description, tail)
            && description[..|description| - |tail|] == parts[0]
            && !ContainsText(parts[1], DescriptionSeparator)
            && !ContainsText(parts[2], DescriptionSeparator)
  {
    var parts := Pieces(description, DescriptionSeparator);
    var tail := DescriptionSeparator + parts[1] + DescriptionSeparator + parts[2];
    PiecesJoin(description, DescriptionSeparator);
    JoinThree(parts, DescriptionSeparator);
    SplitConcat(parts[0], tail);
    PiecesAvoidDelimiter(description, DescriptionSeparator);
  }

  /** Three parts joined: the first, then each of the others after a separator. */
  lemma JoinThree(parts: seq<string>, d: string)
    requires |parts| == 3
    ensures Join(parts, d) == parts[0] + (d + parts[1] + d + parts[2])
  {
    assert parts[1..][1..] == [parts[2]];
    var rest := parts[1] + d + parts[2];
    calc {
      Join(parts, d);
      parts[0] + d + Join(parts[1..], d);
      parts[0] + d + rest;
      { AppendAssociative(parts[0], d, rest); }
      parts[0] + (d + rest);
      { AppendAssociative(d, parts[1] + d, parts[2]); }
      parts[0] + (d + parts[1] + d + parts[2]);
    }
  }

  /** The two halves of a concatenation, cut where the first ends. */
  lemma SplitConcat(a: string, b: string)
    ensures (a + b)[..|a|] == a && (a + b)[|a|..] == b
  {
  }

  // ---------------------------------------------------------------------------
  // The event

  datatype Event = Event(
    uid: string,
    subject: string,
    kind: Option<string>,
    url: Option<string>,
    location: Location,
    start: LocalTime,
    end: LocalTime)

  const TimestampError := Exception(ParseError, "Could not parse event timestamp!")

  /**
   * The `Event` constructor as its authors intended it (see the finding in
   * README.md): a DTSTART or DTEND that does not parse fails the whole event
   * with a PARSE_ERROR; otherwise the event holds the UID verbatim, the split
   * summary, both timestamps and the classified location.
   */
  function NewEvent(summary: string, dtstart: string, dtend: string, uid: string,
                    description: string, location: string): (r: Result<Event, Exception>)
    ensures r.Err? <==> ParseTimestamp(dtstart).None? || ParseTimestamp(dtend).None?
    ensures r.Err? ==> r.error == TimestampError
    ensures r.Ok? ==> r.value.uid == uid
    ensures r.Ok? ==> ParseTimestamp(dtstart) == Some(r.value.start) && ParseTimestamp(dtend) == Some(r.value.end)
    ensures r.Ok? ==> SplitSummary(summary) == Summary(r.value.subject, r.value.kind)
    ensures r.Ok? ==> ClassifyLocation(description, location) == Placement(r.value.location, r.value.url)
  {
    var s := SplitSummary(summary);
    match (ParseTimestamp(dtstart), ParseTimestamp(dtend))
    case (Some(start), Some(end)) =>
      var p := ClassifyLocation(description, location);
      Ok(Event(uid, s.subject, s.kind, p.url, p.location, start, end))
    case _ => Err(TimestampError)
  }

  /**
   * The `Event` constructor as written. Its streams throw only on `badbit`,
   * and a failed `std::chrono::parse` sets `failbit`, so nothing is thrown:
   * a timestamp that does not parse leaves its field at the epoch.
   */
  function EventAsWritten(summary: string, dtstart: string, dtend: string, uid: string,
                          description: string, location: string): (e: Event)
    ensures e.start == ParseTimestamp(dtstart).GetOr(Epoch) && e.end == ParseTimestamp(dtend).GetOr(Epoch)
    ensures e.uid == uid && SplitSummary(summary) == Summary(e.subject, e.kind)
    ensures ClassifyLocation(description, location) == Placement(e.location, e.url)
    ensures NewEvent(summary, dtstart, dtend, uid, description, location).Ok? ==>
              NewEvent(summary, dtstart, dtend, uid, description, location).value == e
  {
    var s := SplitSummary(summary);
    var p := ClassifyLocation(description, location);
    Event(uid, s.subject, s.kind, p.url, p.location,
          ParseTimestamp(dtstart).GetOr(Epoch), ParseTimestamp(dtend).GetOr(Epoch))
  }

  /**
   * The discrepancy: a record whose DTSTART is not a timestamp is admitted
   * by the code as written, starting at the epoch, where the intended
   * constructor rejects it.
   */
  lemma MalformedStartAdmittedAsWritten()
    ensures EventAsWritten("WYK - Algorithms", "tomorrow", "20240101T100000", "u1", "", "Main St 1").start == Epoch
    ensures NewEvent("WYK - Algorithms", "tomorrow", "20240101T100000", "u1", "", "Main St 1") == Err(TimestampError)
  {
  }

  // ---------------------------------------------------------------------------
  // Equality and order

  /** `operator==`: two events are equal when their UIDs are. */
  predicate SameEvent(a: Event, b: Event) {
    a.uid == b.uid
  }

  function CompareInts(x: int, y: int): int {
    if x < y then -1 else if x > y then 1 else 0
  }

  /** `std::string`'s three-way comparison: character by character, a proper prefix first. */
  function CompareStrings(a: string, b: string): (c: int)
    ensures -1 <= c <= 1
  {
    if a == [] && b == [] then 0
    else if a == [] then -1
    else if b == [] then 1
    else if a[0] < b[0] then -1
    else if a[0] > b[0] then 1
    else CompareStrings(a[1..], b[1..])
  }

  lemma {:induction false} CompareStringsZero(a: string, b: string)
    ensures CompareStrings(a, b) == 0 <==> a == b
  {
    if a != [] && b != [] && a[0] == b[0] {
      CompareStringsZero(a[1..], b[1..]);
      assert a == [a[0]] + a[1..] && b == [b[0]] + b[1..];
    }
  }

  lemma {:induction false} CompareStringsAntisymmetric(a: string, b: string)
    ensures CompareStrings(a, b) == -CompareStrings(b, a)
  {
    if a != [] && b != [] && a[0] == b[0] {
      CompareStringsAntisymmetric(a[1..], b[1..]);
    }
  }

  lemma {:induction false} CompareStringsTransitive(a: string, b: string, c: string)
    requires CompareStrings(a, b) < 0 && CompareStrings(b, c) < 0
    ensures CompareStrings(a, c) < 0
  {
    if a != [] && b != [] && c != [] && a[0] == b[0] && b[0] == c[0] {
      CompareStringsTransitive(a[1..], b[1..], c[1..]);
    }
  }

  /** The events agree on the whole sort key `(start, end, uid)`. */
  predicate SameKey(a: Event, b: Event) {
    Ordinal(a.start) == Ordinal(b.start) && Ordinal(a.end) == Ordinal(b.end) && a.uid == b.uid
  }

  /** `operator<=>`: lexicographic on `(start, end, uid)`. */
  function Compare(a: Event, b: Event): (c: int)
    ensures -1 <= c <= 1
  {
    var byStart := CompareInts(Ordinal(a.start), Ordinal(b.start));
    if byStart != 0 then byStart
    else
      var byEnd := CompareInts(Ordinal(a.end), Ordinal(b.end));
      if byEnd != 0 then byEnd else CompareStrings(a.uid, b.uid)
  }

  predicate Less(a: Event, b: Event) {
    Compare(a, b) < 0
  }

  /** Two events compare equal exactly when their whole keys agree. */
  lemma CompareZero(a: Event, b: Event)
    ensures Compare(a, b) == 0 <==> SameKey(a, b)
  {
    CompareStringsZero(a.uid, b.uid);
  }

  lemma CompareAntisymmetric(a: Event, b: Event)
    ensures Compare(a, b) == -Compare(b, a)
  {
    CompareStringsAntisymmetric(a.uid, b.uid);
  }

  lemma LessTransitive(a: Event, b: Event, c: Event)
    requires Less(a, b) && Less(b, c)
    ensures Less(a, c)
  {
    if Ordinal(a.start) == Ordinal(b.start) == Ordinal(c.start) && Ordinal(a.end) == Ordinal(b.end) == Ordinal(c.end) {
      CompareStringsTransitive(a.uid, b.uid, c.uid);
    }
  }

  /** Exactly one of `a < b`, `a` and `b` share their key, `b < a`. */
  lemma Trichotomy(a: Event, b: Event)
    ensures Less(a, b) || SameKey(a, b) || Less(b, a)
    ensures !(Less(a, b) && Less(b, a))
    ensures SameKey(a, b) ==> !Less(a, b) && !Less(b, a)
  {
    CompareZero(a, b);
    CompareAntisymmetric(a, b);
  }

  /** Events ordered by the same key compare equal with `==` too; the converse fails. */
  lemma SameKeyIsSameEvent(a: Event, b: Event)
    requires SameKey(a, b)
    ensures SameEvent(a, b)
  {
  }

  // ---------------------------------------------------------------------------
  // The ordered event set

  /** The sequence is in increasing `<=>` order with no two keys equal: an ordered set. */
  predicate StrictlySorted(s: seq<Event>) {
    forall i, j :: 0 <= i < j < |s| ==> Less(s[i], s[j])
  }

  predicate HasKey(s: seq<Event>, e: Event) {
    exists x :: x in s && SameKey(x, e)
  }

  /**
   * `std::set<Event>::insert`: `e` goes in at its place in the order, unless
   * an element with the same key is there already. The result stays an
   * ordered set and holds nothing but the old elements and `e`;
   * `InsertContents` says exactly what it holds.
   */
  function Insert(s: seq<Event>, e: Event): (r: seq<Event>)
    requires StrictlySorted(s)
    ensures StrictlySorted(r)
    ensures forall y :: y in r ==> y in s || y == e
  {
    if s == [] then [e]
    else
      var c := Compare(e, s[0]);
      if c < 0 then
        PrependSmallest(e, s);
        [e] + s
      else if c == 0 then
        s
      else
        var rest := Insert(s[1..], e);
        CompareAntisymmetric(e, s[0]);
        HeadBelowInsertion(s, e, rest);
        [s[0]] + rest
  }

  /** The first element of an ordered set stays in front when `e`, above it, goes into the tail. */
  lemma HeadBelowInsertion(s: seq<Event>, e: Event, rest: seq<Event>)
    requires StrictlySorted(s) && s != [] && Less(s[0], e)
    requires StrictlySorted(rest) && forall y :: y in rest ==> y in s[1..] || y == e
    ensures StrictlySorted([s[0]] + rest)
    ensures forall y :: y in [s[0]] + rest ==> y in s || y == e
  {
    forall y | y in rest
      ensures Less(s[0], y)
    {
      if y in s[1..] {
        var j :| 0 <= j < |s[1..]| && s[1..][j] == y;
        assert s[j + 1] == y;
      }
    }
    ConsSorted(s[0], rest);
  }

  /** An event above the first element shares its key with the set exactly when it shares it with the tail. */
  lemma HasKeyBehindHead(s: seq<Event>, e: Event)
    requires s != [] && Less(s[0], e)
    ensures HasKey(s, e) <==> HasKey(s[1..], e)
  {
    Trichotomy(s[0], e);
    assert s == [s[0]] + s[1..];
    if HasKey(s, e) {
      var x :| x in s && SameKey(x, e);
      assert x in s[1..];
    }
  }

  /**
   * What `insert` leaves in the set: the set unchanged when an element with
   * the same `(start, end, uid)` key is there, and otherwise the set with
   * `e` added.
   */
  lemma {:induction false} InsertContents(s: seq<Event>, e: Event)
    requires StrictlySorted(s)
    ensures HasKey(s, e) ==> Insert(s, e) == s
    ensures !HasKey(s, e) ==> multiset(Insert(s, e)) == multiset(s) + multiset{e}
    decreases |s|, 1
  {
    if s != [] {
      var c := Compare(e, s[0]);
      CompareZero(e, s[0]);
      CompareAntisymmetric(e, s[0]);
      if c < 0 {
        PrependSmallest(e, s);
      } else if c == 0 {
        assert SameKey(s[0], e) && s[0] in s;
      } else {
        InsertContentsBehindHead(s, e);
      }
    }
  }

  /** `InsertContents` where `e` goes behind the first element. */
  lemma {:induction false} InsertContentsBehindHead(s: seq<Event>, e: Event)
    requires StrictlySorted(s) && s != [] && Compare(e, s[0]) > 0
    ensures HasKey(s, e) ==> Insert(s, e) == s
    ensures !HasKey(s, e) ==> multiset(Insert(s, e)) == multiset(s) + multiset{e}
    decreases |s|, 0
  {
    var rest := Insert(s[1..], e);
    assert Insert(s, e) == [s[0]] + rest;
    assert s == [s[0]] + s[1..];
    CompareAntisymmetric(e, s[0]);
    InsertContents(s[1..], e);
    HasKeyBehindHead(s, e);
    if !HasKey(s, e) {
      calc {
        multiset(Insert(s, e));
        multiset([s[0]]) + multiset(rest);
        multiset([s[0]]) + multiset(s[1..]) + multiset{e};
        multiset(s) + multiset{e};
      }
    }
  }

  /** An event below the first of an ordered set is below all of them, and its key is new. */
  lemma PrependSmallest(e: Event, s: seq<Event>)
    requires StrictlySorted(s) && s != [] && Less(e, s[0])
    ensures StrictlySorted([e] + s)
    ensures !HasKey(s, e)
  {
    forall j | 0 < j < |s|
      ensures Less(e, s[j])
    {
      LessTransitive(e, s[0], s[j]);
    }
    forall x | x in s
      ensures !SameKey(x, e)
    {
      Trichotomy(x, e);
    }
  }

  /** An event below every element of an ordered set can be put in front of it. */
  lemma ConsSorted(x: Event, s: seq<Event>)
    requires StrictlySorted(s)
    requires forall y :: y in s ==> Less(x, y)
    ensures StrictlySorted([x] + s)
  {
    var r := [x] + s;
    forall i, j | 0 <= i < j < |r|
      ensures Less(r[i], r[j])
    {
      if i > 0 {
        assert r[i] == s[i - 1] && r[j] == s[j - 1];
      } else {
        assert r[j] in s;
      }
    }
  }

  /**
   * Because `==` and the set's order disagree, two events with the same UID
   * but different times are both kept by the event set.
   */
  lemma SameUidDifferentTimesBothKept(a: Event, b: Event)
    requires SameEvent(a, b) && Ordinal(a.start) < Ordinal(b.start)
    ensures Insert(Insert([], a), b) == [a, b]
  {
    assert !HasKey([a], b);
  }
}
