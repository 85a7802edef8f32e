/**
 * One parsed feed snapshot, the `Calendar` of src/icalendar/calendar.hpp.
 * It has no default constructor and only const accessors, so it is a value:
 * nothing changes it after it is built.
 */
module Calendars {
  import opened Wrappers
  import opened Exceptions
  import opened Events

  /**
   * A resolved zone. The zone database is not modelled: a zone is known by
   * its name, and the names the database holds are a parameter.
   */
  datatype TimeZone = TimeZone(name: string)

  datatype Calendar = Calendar(name: string, productId: string, timeZone: TimeZone, events: seq<Event>)

  /**
   * The constructor: it keeps name, product identifier and events as given
   * and resolves the zone name once with `std::chrono::locate_zone`, whose
   * `std::runtime_error` for an unknown name no caller catches.
   */
  function NewCalendar(calname: string, prodid: string, timezone: string, events: seq<Event>,
                       zones: set<string>): (r: Result<Calendar, Failure>)
    ensures r.Ok? <==> timezone in zones
    ensures r.Ok? ==> r.value.name == calname && r.value.productId == prodid
    ensures r.Ok? ==> r.value.timeZone == TimeZone(timezone) && r.value.events == events
    ensures r.Err? ==> r.error.Fatal?
  {
    if timezone in zones then Ok(Calendar(calname, prodid, TimeZone(timezone), events))
    else Err(Fatal("std::runtime_error: unknown time zone " + timezone))
  }
}
