/**
 * src/config.hpp: the `Config` object built from config.toml, its
 * change-detecting calendar refresh and the texts it shows in the presence.
 */
module Configuration {
  import opened Wrappers
  import opened Exceptions
  import opened Utilities
  import opened Events
  import opened Calendars
  import opened ICalendarParser

  // ---------------------------------------------------------------------------
  // The parsed TOML table

  type Int64 = x: int | -0x8000_0000_0000_0000 <= x < 0x8000_0000_0000_0000

  /** A TOML value as the constructor tells them apart: string, 64-bit integer, anything else. */
  datatype TomlValue = TomlString(text: string) | TomlInteger(value: Int64) | TomlOther

  type Table = map<string, TomlValue>

  /** `table.get_as<std::string>(key)` holds a non-empty string. */
  predicate HasText(table: Table, key: string) {
    key in table && table[key].TomlString? && |table[key].text| > 0
  }

  // ---------------------------------------------------------------------------
  // Discord application identifiers

  /** What `std::regex_match` with `\d{1,20}` accepts. */
  predicate IsDiscordId(s: string) {
    1 <= |s| <= 20 && AllDigits(s)
  }

  /** `std::to_string` of a non-negative integer: its decimal digits, no leading zero. */
  function DecimalString(n: nat): (s: string)
    ensures 1 <= |s| && AllDigits(s)
    ensures n > 0 ==> s[0] != '0'
    decreases n
  {
    if n < 10 then [('0' as int + n) as char]
    else DecimalString(n / 10) + [('0' as int + n % 10) as char]
  }

  /** `std::to_string` round-trips: the digits spell the number back. */
  lemma {:induction false} DecimalStringValue(n: nat)
    ensures DigitsValue(DecimalString(n)) == n
    decreases n
  {
    if n >= 10 {
      var s := DecimalString(n);
      assert s[..|s| - 1] == DecimalString(n / 10);
      DecimalStringValue(n / 10);
    }
  }

  lemma {:induction false} DecimalStringLength(n: nat, width: nat)
    requires 1 <= width && n < Pow10(width)
    ensures |DecimalString(n)| <= width
    decreases width
  {
    if n >= 10 {
      assert n / 10 < Pow10(width - 1);
      DecimalStringLength(n / 10, width - 1);
    }
  }

  lemma {:induction false} Pow10Add(a: nat, b: nat)
    ensures Pow10(a + b) == Pow10(a) * Pow10(b)
    decreases a
  {
    if a > 0 {
      Pow10Add(a - 1, b);
      assert Pow10(a + b) == 10 * Pow10(a - 1 + b);
    }
  }

  /** Every positive 64-bit integer id, written out, is an id string the string branch also accepts. */
  lemma IntegerIdIsDiscordId(id: Int64)
    requires id > 0
    ensures IsDiscordId(DecimalString(id))
  {
    assert Pow10(3) == 1000;
    Pow10Add(3, 3);
    Pow10Add(6, 6);
    Pow10Add(12, 6);
    Pow10Add(18, 1);
    assert Pow10(19) == 10_000_000_000_000_000_000;
    DecimalStringLength(id, 19);
  }

  // ---------------------------------------------------------------------------
  // Constructor validation

  const EmptyCalendar := Exception(ConfigError, "Empty 'calendar' property! Please fix the config file.")
  const EmptyAppId := Exception(ConfigError, "Empty 'discord_app_id' property! Please fix the config file.")
  const InvalidAppId := Exception(ConfigError, "Invalid 'discord_app_id' property! Please fix the config file.")
  const WrongAppIdType :=
    Exception(ConfigError, "Wrong type of 'discord_app_id' property! Please change it to a string or an integer.")

  /** The idle refresh rate, in minutes, when the table gives none. */
  const DefaultIdleRefreshRate := 30

  /** The four settings the constructor keeps. */
  datatype Settings = Settings(calendarLocation: string, discordAppId: string, idleRefreshRate: int,
                               imageKey: Option<string>)

  predicate SettingsValid(s: Settings) {
    && |s.calendarLocation| > 0
    && IsDiscordId(s.discordAppId)
    && s.idleRefreshRate > 0
    && (s.imageKey.Some? ==> |s.imageKey.value| > 0)
  }

  /**
   * The checks of the `Config` constructor, in its order: `calendar` must be
   * a non-empty string; `discord_app_id` must be present, and a positive
   * integer (kept as its decimal text) or a string of 1 to 20 digits;
   * `idle_refresh_rate` replaces 30 only when it is a positive integer;
   * `image_key` is kept only when it is a non-empty string.
   */
  function ValidateSettings(table: Table): (r: Result<Settings, Exception>)
    ensures r.Ok? ==> SettingsValid(r.value)
    ensures !HasText(table, "calendar") ==> r == Err(EmptyCalendar)
    ensures HasText(table, "calendar") && "discord_app_id" !in table ==> r == Err(EmptyAppId)
    ensures HasText(table, "calendar") && "discord_app_id" in table && table["discord_app_id"].TomlOther? ==>
              r == Err(WrongAppIdType)
    ensures r.Err? ==> r.error in {EmptyCalendar, EmptyAppId, InvalidAppId, WrongAppIdType}
    ensures r.Ok? ==> HasText(table, "calendar") && r.value.calendarLocation == table["calendar"].text
    ensures r.Ok? ==>
              && "discord_app_id" in table
              && (match table["discord_app_id"]
                  case TomlInteger(id) => id > 0 && r.value.discordAppId == DecimalString(id)
                  case TomlString(text) => r.value.discordAppId == text
                  case TomlOther => false)
    ensures r.Ok? ==> if "idle_refresh_rate" in table && table["idle_refresh_rate"].TomlInteger?
                         && table["idle_refresh_rate"].value > 0
                      then r.value.idleRefreshRate == table["idle_refresh_rate"].value
                      else r.value.idleRefreshRate == DefaultIdleRefreshRate
    ensures r.Ok? ==> if HasText(table, "image_key") then r.value.imageKey == Some(table["image_key"].text)
                      else r.value.imageKey == None
  {
    if !HasText(table, "calendar") then Err(EmptyCalendar)
    else if "discord_app_id" !in table then Err(EmptyAppId)
    else
      var appId :- (match table["discord_app_id"]
        case TomlInteger(id) =>
          if id <= 0 then Err(InvalidAppId)
          else
            IntegerIdIsDiscordId(id);
            Ok(DecimalString(id))
        case TomlString(text) => if |text| == 0 || !IsDiscordId(text) then Err(InvalidAppId) else Ok(text)
        case TomlOther => Err(WrongAppIdType));
      var refresh :=
        if "idle_refresh_rate" in table && table["idle_refresh_rate"].TomlInteger?
           && table["idle_refresh_rate"].value > 0
        then table["idle_refresh_rate"].value as int
        else DefaultIdleRefreshRate;
      var key := if HasText(table, "image_key") then Some(table["image_key"].text) else None;
      Ok(Settings(table["calendar"].text, appId, refresh, key))
  }

  /** An id given as a string is accepted exactly when it is 1 to 20 decimal digits. */
  lemma StringIdAcceptedIffDigits(table: Table, text: string)
    requires HasText(table, "calendar") && "discord_app_id" in table && table["discord_app_id"] == TomlString(text)
    ensures ValidateSettings(table).Ok? <==> IsDiscordId(text)
    ensures !IsDiscordId(text) ==> ValidateSettings(table) == Err(InvalidAppId)
  {
  }

  /** An id given as an integer is accepted exactly when it is positive, and kept as its decimal text. */
  lemma IntegerIdAcceptedIffPositive(table: Table, id: Int64)
    requires HasText(table, "calendar") && "discord_app_id" in table && table["discord_app_id"] == TomlInteger(id)
    ensures ValidateSettings(table).Ok? <==> id > 0
    ensures id > 0 ==> DigitsValue(ValidateSettings(table).value.discordAppId) == id
    ensures id <= 0 ==> ValidateSettings(table) == Err(InvalidAppId)
  {
    if id > 0 {
      DecimalStringValue(id);
    }
  }

  // ---------------------------------------------------------------------------
  // DTSTAMP normalisation

  /** The fixed start of the DTSTAMP pattern: a line break, then the property name and value type. */
  const StampName := "DTSTAMP;VALUE=DATE-TIME:"
  const StampHead := "\n" + StampName

  /**
   * The length of the match of the DTSTAMP pattern at the start of `s`: the
   * head, 8 digits, `T`, 6 digits, an optional `Z`, an optional carriage
   * return and a line feed. The optional parts are greedy, and giving one
   * back never helps the rest match, so the match is unique.
   */
  function StampLength(s: string): (r: Option<nat>)
    ensures r.Some? ==> |StampHead| + 16 <= r.value <= |s| && s[r.value - 1] == '\n'
  {
    var h := |StampHead|;
    if !(StartsWith(s, StampHead) && h + 15 <= |s|) then None
    else if !(AllDigits(s[h..h + 8]) && s[h + 8] == 'T' && AllDigits(s[h + 9..h + 15])) then None
    else
      var z := if h + 15 < |s| && s[h + 15] == 'Z' then h + 16 else h + 15;
      var c := if z < |s| && s[z] == '\r' then z + 1 else z;
      if c < |s| && s[c] == '\n' then Some(c + 1) else None
  }

  /** A match holds one line: its only line feeds are the first and the last character. */
  lemma StampMatchIsOneLine(s: string)
    requires StampLength(s).Some?
    ensures forall i :: 0 < i < StampLength(s).value - 1 ==> s[i] != '\n'
  {
    var h := |StampHead|;
    assert s[..h] == StampHead;
    assert '\n' !in StampName;
    forall i | 0 < i < StampLength(s).value - 1
      ensures s[i] != '\n'
    {
      if i < h {
        assert s[i] == s[..h][i] == StampName[i - 1];
      } else if i < h + 8 {
        assert s[i] == s[h..h + 8][i - h];
      } else if h + 8 < i < h + 15 {
        assert s[i] == s[h + 9..h + 15][i - h - 9];
      }
    }
  }

  /** The match depends only on the characters it covers. */
  lemma StampLengthOfPrefix(s: string, u: string, n: nat)
    requires StampLength(s) == Some(n) && n <= |u| && s[..n] == u[..n]
    ensures StampLength(u) == Some(n)
  {
    var h := |StampHead|;
    assert forall i :: 0 <= i < n ==> s[i] == s[..n][i] == u[..n][i] == u[i];
    assert u[..h] == s[..h];
    assert u[h..h + 8] == s[h..h + 8];
    assert u[h + 9..h + 15] == s[h + 9..h + 15];
  }

  /**
   * What `std::regex_replace(text, DTSTAMP, "\n")` makes of `s`: scanning
   * from the left, each match is replaced by one line feed and the scan
   * resumes after it.
   */
  function Normalize(s: string): string
    decreases |s|
  {
    if s == [] then []
    else match StampLength(s)
      case Some(n) => "\n" + Normalize(s[n..])
      case None => [s[0]] + Normalize(s[1..])
  }

  /** The pattern matches from index `j` of `p` to the end of `p` plus one more line feed. */
  predicate StampLineEndsAt(p: string, j: int) {
    0 <= j < |p| && StampLength(p[j..] + "\n") == Some(|p| - j + 1)
  }

  /** `p` ends with a DTSTAMP line whose terminating line feed is still to come. */
  predicate EndsWithStampLine(p: string) {
    exists j :: 0 <= j < |p| && StampLineEndsAt(p, j)
  }

  lemma EndsWithStampLineSuffix(p: string, k: nat)
    requires k <= |p|
    ensures EndsWithStampLine(p[k..]) ==> EndsWithStampLine(p)
  {
    if EndsWithStampLine(p[k..]) {
      var j :| 0 <= j < |p[k..]| && StampLineEndsAt(p[k..], j);
      assert p[k..][j..] == p[k + j..];
      assert StampLineEndsAt(p, k + j);
    }
  }

  /**
   * A match at the start of `p + t`, with `t` starting a new line, is the
   * match at the start of `p`, unless `p` ends with an unterminated
   * DTSTAMP line that the line feed of `t` completes.
   */
  lemma MatchStaysInside(p: string, t: string)
    requires p != [] && (t == [] || t[0] == '\n')
    ensures StampLength(p + t) == StampLength(p) || EndsWithStampLine(p)
  {
    var s := p + t;
    if StampLength(s).Some? {
      var n := StampLength(s).value;
      if n > |p| {
        StampMatchIsOneLine(s);
        assert s[|p|] == '\n';
        assert n == |p| + 1;
        assert (p + "\n")[..n] == s[..n];
        StampLengthOfPrefix(s, p + "\n", n);
        assert p[0..] == p;
        assert StampLineEndsAt(p, 0);
      } else {
        assert p[..n] == s[..n];
        StampLengthOfPrefix(s, p, n);
      }
    } else if StampLength(p).Some? {
      var n := StampLength(p).value;
      assert p[..n] == s[..n];
      StampLengthOfPrefix(p, s, n);
    }
  }

  /** How many characters one step of the scan consumes: a whole match, or one character. */
  function Consumed(s: string): (k: nat)
    requires s != []
    ensures 1 <= k <= |s|
  {
    match StampLength(s)
    case Some(n) => n
    case None => 1
  }

  /** What one step of the scan emits: a line feed for a match, the character otherwise. */
  function Emitted(s: string): string
    requires s != []
  {
    if StampLength(s).Some? then "\n" else [s[0]]
  }

  lemma NormalizeStep(s: string)
    requires s != []
    ensures Normalize(s) == Emitted(s) + Normalize(s[Consumed(s)..])
  {
  }

  /** One scan step over `p + t` takes the same step as over `p` alone. */
  lemma StepAgrees(p: string, t: string)
    requires p != [] && (t == [] || t[0] == '\n')
    requires !EndsWithStampLine(p)
    ensures Consumed(p + t) == Consumed(p) && Emitted(p + t) == Emitted(p)
  {
    MatchStaysInside(p, t);
    assert (p + t)[0] == p[0];
  }

  lemma ConcatStep(p: string, t: string)
    requires p != [] && (t == [] || t[0] == '\n')
    requires !EndsWithStampLine(p)
    ensures Normalize(p + t) == Emitted(p) + Normalize(p[Consumed(p)..] + t)
  {
    var k := Consumed(p);
    StepAgrees(p, t);
    NormalizeStep(p + t);
    assert (p + t)[k..] == p[k..] + t;
  }

  /** Normalising a concatenation at a line start normalises the parts, unless a DTSTAMP line straddles the cut. */
  lemma {:induction false} NormalizeConcat(p: string, t: string)
    requires t == [] || t[0] == '\n'
    requires !EndsWithStampLine(p)
    ensures Normalize(p + t) == Normalize(p) + Normalize(t)
    decreases |p|
  {
    if p == [] {
      assert p + t == t;
    } else {
      var k := Consumed(p);
      var e := Emitted(p);
      EndsWithStampLineSuffix(p, k);
      calc {
        Normalize(p + t);
        { ConcatStep(p, t); }
        e + Normalize(p[k..] + t);
        { NormalizeConcat(p[k..], t); }
        e + (Normalize(p[k..]) + Normalize(t));
        { AppendAssociative(e, Normalize(p[k..]), Normalize(t)); }
        e + Normalize(p[k..]) + Normalize(t);
        { NormalizeStep(p); }
        Normalize(p) + Normalize(t);
      }
    }
  }

  /** The text a DTSTAMP line may hold after its head: 8 digits, `T`, 6 digits, then `Z`, a carriage return, both or neither. */
  predicate IsStampValue(v: string) {
    && |v| >= 15
    && AllDigits(v[..8]) && v[8] == 'T' && AllDigits(v[9..15])
    && v[15..] in {"", "Z", "\r", "Z\r"}
  }

  function StampLine(value: string): string {
    StampHead + value + "\n"
  }

  lemma StampLineMatches(v: string, q: string)
    requires IsStampValue(v)
    ensures StampLength(StampLine(v) + q) == Some(|StampLine(v)|)
  {
    var s := StampLine(v) + q;
    var h := |StampHead|;
    assert s[..h] == StampHead;
    assert s[h..h + 8] == v[..8];
    assert s[h + 8] == v[8];
    assert s[h + 9..h + 15] == v[9..15];
    assert forall i :: h + 15 <= i < h + |v| ==> s[i] == v[i - h];
    assert s[h + |v|] == '\n';
  }

  /** A DTSTAMP line at the start of a text is replaced by one line feed. */
  lemma NormalizeStampLine(v: string, q: string)
    requires IsStampValue(v)
    ensures Normalize(StampLine(v) + q) == "\n" + Normalize(q)
  {
    var t := StampLine(v) + q;
    StampLineMatches(v, q);
    NormalizeStep(t);
    assert t[|StampLine(v)|..] == q;
  }

  /** A DTSTAMP line at a line start is replaced by one line feed, and the text on either side is normalised on its own. */
  lemma StampLineNormalizes(p: string, v: string, q: string)
    requires IsStampValue(v) && !EndsWithStampLine(p)
    ensures Normalize(p + StampLine(v) + q) == Normalize(p) + "\n" + Normalize(q)
  {
    var t := StampLine(v) + q;
    assert p + StampLine(v) + q == p + t;
    assert t[0] == '\n';
    NormalizeConcat(p, t);
    NormalizeStampLine(v, q);
  }

  /**
   * Two fetches that differ only in the value of one DTSTAMP line normalise
   * to the same text, so they hash alike and the second refresh reports no change.
   */
  lemma StampInsensitive(p: string, v1: string, v2: string, q: string)
    requires IsStampValue(v1) && IsStampValue(v2) && !EndsWithStampLine(p)
    ensures Normalize(p + StampLine(v1) + q) == Normalize(p + StampLine(v2) + q)
  {
    StampLineNormalizes(p, v1, q);
    StampLineNormalizes(p, v2, q);
  }

  /** A text in which the pattern matches nowhere is left as it is. */
  lemma {:induction false} NormalizeWithoutStamps(s: string)
    requires forall j :: 0 <= j < |s| ==> StampLength(s[j..]).None?
    ensures Normalize(s) == s
    decreases |s|
  {
    if s != [] {
      assert s[0..] == s;
      forall j | 0 <= j < |s[1..]|
        ensures StampLength(s[1..][j..]).None?
      {
        assert s[1..][j..] == s[j + 1..];
      }
      NormalizeWithoutStamps(s[1..]);
    }
  }

  // ---------------------------------------------------------------------------
  // Presence texts

  /** The details line of the presence: the subject, then the type after " - " when there is one. */
  function Details(ev: Event): (d: string)
    ensures ev.kind.None? ==> d == ev.subject
    ensures ev.kind.Some? ==> d == ev.subject + SummarySeparator + ev.kind.value
  {
    match ev.kind
    case None => ev.subject
    case Some(kind) => ev.subject + SummarySeparator + kind
  }

  /**
   * `has_full_location`: a room and a building. For an event the
   * constructor built the two are present together (see `ClassifyLocation`),
   * so the room alone decides.
   */
  predicate HasFullLocation(ev: Event) {
    ev.location.room.Some? && ev.location.building.Some?
  }

  /** The state line: "room - building" for an event with a full location, none otherwise. */
  function State(ev: Event): (s: Option<string>)
    ensures s.Some? <==> HasFullLocation(ev)
    ensures s.Some? ==> s.value == ev.location.room.value + SummarySeparator + ev.location.building.value
  {
    if HasFullLocation(ev) then Some(ev.location.room.value + SummarySeparator + ev.location.building.value)
    else None
  }

  /**
   * The details line shows the event's summary with its two parts swapped:
   * a summary "type - subject" is shown as "subject - type", any other
   * summary as it is.
   */
  lemma DetailsSwapSummary(summary: string, dtstart: string, dtend: string, uid: string,
                           description: string, location: string)
    requires NewEvent(summary, dtstart, dtend, uid, description, location).Ok?
    ensures var ev := NewEvent(summary, dtstart, dtend, uid, description, location).value;
            && (Occurrences(summary, SummarySeparator, 0) != 1 ==> Details(ev) == summary)
            && (Occurrences(summary, SummarySeparator, 0) == 1 ==>
                  summary == ev.kind.value + SummarySeparator + ev.subject
                  && Details(ev) == ev.subject + SummarySeparator + ev.kind.value)
  {
  }

  /** Parsed events carry no room, so the presence built from them never has a state line. */
  lemma ParsedEventsHaveNoState(text: string, zones: set<string>, calendar: Calendar)
    requires ParseText(text, zones) == Ok(calendar)
    ensures forall ev :: ev in calendar.events ==> ev.location.room.None? && State(ev) == None
  {
    ParsedEventsHaveOnlyAddress(text, zones);
  }

  // ---------------------------------------------------------------------------
  // The Config object

  class Config {
    var calendarLocation: string
    var discordAppId: string
    var idleRefreshRate: int
    var imageKey: Option<string>
    /** The hash of the last normalised feed parsed; 0 before the first refresh. */
    var calendarHash: nat
    /** The cached calendar; none until a refresh has parsed one. */
    var calendar: Option<Calendar>

    function CurrentSettings(): Settings
      reads this
    {
      Settings(calendarLocation, discordAppId, idleRefreshRate, imageKey)
    }

    ghost predicate Valid()
      reads this
    {
      SettingsValid(CurrentSettings())
    }

    constructor(settings: Settings)
      ensures CurrentSettings() == settings
      ensures calendarHash == 0 && calendar == None
    {
      calendarLocation := settings.calendarLocation;
      discordAppId := settings.discordAppId;
      idleRefreshRate := settings.idleRefreshRate;
      imageKey := settings.imageKey;
      calendarHash := 0;
      calendar := None;
    }

    /** `Config(parsed_file)`: validate the table, then keep what it gives. */
    static method FromTable(table: Table) returns (r: Result<Config, Exception>)
      ensures r.Err? ==> ValidateSettings(table) == Err(r.error)
      ensures r.Ok? ==> fresh(r.value) && ValidateSettings(table) == Ok(r.value.CurrentSettings())
      ensures r.Ok? ==> r.value.Valid() && r.value.calendarHash == 0 && r.value.calendar == None
    {
      var settings := ValidateSettings(table);
      if settings.Err? {
        return Err(settings.error);
      }
      var config := new Config(settings.value);
      r := Ok(config);
    }

    /** `idle_refresh_rate()`: the idle refresh rate in minutes. */
    function IdleRefreshMinutes(): (minutes: int)
      reads this
      requires Valid()
      ensures minutes > 0
    {
      idleRefreshRate
    }

    /**
     * `refresh_calendar`, given what `fetch_content` returned and the string
     * hash: normalise the DTSTAMP lines away and hash; on an unchanged hash
     * return false and change nothing; otherwise parse, and only once the
     * parse succeeded store the calendar and the hash and return true.
     */
    method RefreshCalendar(fetched: Result<string, Exception>, hash: string -> nat, zones: set<string>)
      returns (r: Result<bool, Failure>)
      modifies this
      ensures CurrentSettings() == old(CurrentSettings())
      ensures fetched.Err? ==>
                r == Err(Raised(fetched.error)) && calendarHash == old(calendarHash) && calendar == old(calendar)
      ensures fetched.Ok? && hash(Normalize(fetched.value)) == old(calendarHash) ==>
                r == Ok(false) && calendarHash == old(calendarHash) && calendar == old(calendar)
      ensures fetched.Ok? && hash(Normalize(fetched.value)) != old(calendarHash) ==>
                match ParseText(Normalize(fetched.value), zones)
                case Ok(parsed) => r == Ok(true) && calendar == Some(parsed)
                                   && calendarHash == hash(Normalize(fetched.value))
                case Err(f) => r == Err(f) && calendarHash == old(calendarHash) && calendar == old(calendar)
    {
      if fetched.Err? {
        return Err(Raised(fetched.error));
      }
      var text := Normalize(fetched.value);
      var newHash := hash(text);
      if newHash != calendarHash {
        var parsed := Parse(text, zones);
        if parsed.Err? {
          return Err(parsed.error);
        }
        calendar := Some(parsed.value);
        calendarHash := newHash;
        return Ok(true);
      }
      return Ok(false);
    }
  }
}
