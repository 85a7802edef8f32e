/**
 * src/commands/default.hpp: `update_presence`, one turn of the service loop.
 * When the deadline has passed it refreshes the calendar, picks what the
 * presence shows and moves the deadline on.
 */
module DefaultCommand {
  import opened Wrappers
  import opened Exceptions
  import opened Events
  import opened Calendars
  import opened ICalendarParser
  import opened Configuration

  /** Instants and durations are counted in seconds. */
  const SecondsPerMinute := 60

  /** What happens to the Discord presence: left alone, set to an event, or cleared. */
  datatype PresenceAction = Keep | Show(details: string, state: Option<string>) | Clear

  /** The presence change and the new deadline. */
  datatype Update = Update(action: PresenceAction, next: int)

  function MinDuration(a: int, b: int): (m: int)
    ensures m <= a && m <= b && (m == a || m == b)
  {
    if b < a then b else a
  }

  const NoCalendar := "the calendar is used before any refresh has parsed one"

  /** `std::chrono::nonexistent_local_time` or `ambiguous_local_time`, thrown by `zoned_seconds`. */
  const NoSingleInstant := "a local time that the zone skips or repeats has no single instant"

  /**
   * A zone conversion the selection performs fails: the start of the next
   * event, or its end when it has started. The code converts the start
   * first and the end only for an event under way.
   */
  predicate ConversionFails(cal: Calendar, now: int, nextEvent: Calendar -> Option<Event>,
                            zoned: (TimeZone, LocalTime) -> Option<int>)
  {
    && nextEvent(cal).Some?
    && var ev := nextEvent(cal).value;
       || zoned(cal.timeZone, ev.start).None?
       || (zoned(cal.timeZone, ev.start).value < now && zoned(cal.timeZone, ev.end).None?)
  }

  /**
   * The selection after the refresh, given the stored calendar, the idle
   * interval, what `next_event` returns for a calendar, and the zone
   * conversion of a local time to an instant, which has none for a local
   * time that a daylight-saving change skips or repeats. An event that
   * started before `now` is shown, and the deadline moves by the idle
   * interval or the time left until its end, whichever is shorter; an event
   * yet to start clears the presence, and the deadline moves by the idle
   * interval or the time until it starts; with no event the presence is
   * cleared and the deadline moves by exactly the idle interval. Each step is
   * added to the old deadline, not to `now`. A missing calendar or a failed
   * conversion is fatal.
   */
  function Select(next: int, now: int, idle: int, calendar: Option<Calendar>,
                  nextEvent: Calendar -> Option<Event>, zoned: (TimeZone, LocalTime) -> Option<int>)
    : (r: Result<Update, Failure>)
    ensures r.Err? <==> calendar.None? || ConversionFails(calendar.value, now, nextEvent, zoned)
    ensures r.Err? ==> r.error.Fatal?
    ensures r.Ok? ==> r.value.action != Keep && r.value.next <= next + idle
    ensures r.Ok? ==>
              (r.value.action.Show? <==>
                 && nextEvent(calendar.value).Some?
                 && zoned(calendar.value.timeZone, nextEvent(calendar.value).value.start).Some?
                 && zoned(calendar.value.timeZone, nextEvent(calendar.value).value.start).value < now)
    ensures r.Ok? && nextEvent(calendar.value).None? ==> r.value == Update(Clear, next + idle)
    ensures r.Ok? && nextEvent(calendar.value).Some? ==>
              var ev := nextEvent(calendar.value).value;
              var tz := calendar.value.timeZone;
              && zoned(tz, ev.start).Some?
              && if zoned(tz, ev.start).value < now then
                   && zoned(tz, ev.end).Some?
                   && r.value.action == Show(Details(ev), State(ev))
                   && r.value.next <= next + (zoned(tz, ev.end).value - now)
                   && (r.value.next == next + idle || r.value.next == next + (zoned(tz, ev.end).value - now))
                 else
                   && r.value.action == Clear
                   && r.value.next <= next + (zoned(tz, ev.start).value - now)
                   && (r.value.next == next + idle || r.value.next == next + (zoned(tz, ev.start).value - now))
  {
    match calendar
    case None => Err(Fatal(NoCalendar))
    case Some(cal) =>
      match nextEvent(cal)
      case None => Ok(Update(Clear, next + idle))
      case Some(ev) =>
        match zoned(cal.timeZone, ev.start)
        case None => Err(Fatal(NoSingleInstant))
        case Some(start) =>
          if start < now then
            match zoned(cal.timeZone, ev.end)
            case None => Err(Fatal(NoSingleInstant))
            case Some(end) => Ok(Update(Show(Details(ev), State(ev)), next + MinDuration(idle, end - now)))
          else
            Ok(Update(Clear, next + MinDuration(idle, start - now)))
  }

  /** The refresh inside `update_presence` fails with something its `catch (const Exception&)` does not handle. */
  predicate FatalRefresh(fetched: Result<string, Exception>, hash: string -> nat, zones: set<string>, lastHash: nat) {
    && fetched.Ok?
    && hash(Normalize(fetched.value)) != lastHash
    && ParseText(Normalize(fetched.value), zones).Err?
    && ParseText(Normalize(fetched.value), zones).error.Fatal?
  }

  /**
   * `update_presence(next, config)` at instant `now`, with `fetched` standing
   * for what `fetch_content` returns. Before the deadline nothing happens.
   * After it, the calendar is refreshed; a `usos_rpc::Exception` from the
   * refresh is caught and the selection uses the calendar stored before.
   */
  method UpdatePresence(next: int, now: int, config: Config, fetched: Result<string, Exception>,
                        hash: string -> nat, zones: set<string>,
                        nextEvent: Calendar -> Option<Event>, zoned: (TimeZone, LocalTime) -> Option<int>)
    returns (r: Result<Update, Failure>)
    requires config.Valid()
    modifies config
    ensures config.Valid() && config.CurrentSettings() == old(config.CurrentSettings())
    ensures next >= now ==> r == Ok(Update(Keep, next)) && unchanged(config)
    ensures next < now && (fetched.Err? || hash(Normalize(fetched.value)) == old(config.calendarHash)) ==>
              config.calendar == old(config.calendar) && config.calendarHash == old(config.calendarHash)
    ensures next < now && fetched.Ok? && hash(Normalize(fetched.value)) != old(config.calendarHash) ==>
              match ParseText(Normalize(fetched.value), zones)
              case Ok(parsed) => config.calendar == Some(parsed) && config.calendarHash == hash(Normalize(fetched.value))
              case Err(_) => config.calendar == old(config.calendar) && config.calendarHash == old(config.calendarHash)
    ensures next < now && fetched.Err? ==>
              && r == Select(next, now, config.IdleRefreshMinutes() * SecondsPerMinute, old(config.calendar),
                             nextEvent, zoned)
    ensures next < now && !FatalRefresh(fetched, hash, zones, old(config.calendarHash)) ==>
              r == Select(next, now, config.IdleRefreshMinutes() * SecondsPerMinute, config.calendar, nextEvent, zoned)
    ensures next < now && FatalRefresh(fetched, hash, zones, old(config.calendarHash)) ==>
              && r == Err(ParseText(Normalize(fetched.value), zones).error)
              && config.calendar == old(config.calendar)
    ensures r.Err? ==> r.error.Fatal?
  {
    if next >= now {
      return Ok(Update(Keep, next));
    }
    var refreshed := config.RefreshCalendar(fetched, hash, zones);
    if refreshed.Err? && refreshed.error.Fatal? {
      return Err(refreshed.error);
    }
    var idle := config.idleRefreshRate * SecondsPerMinute;
    r := Select(next, now, idle, config.calendar, nextEvent, zoned);
  }
}
