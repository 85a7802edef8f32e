/**
 * The program's exception kinds and the two ways an operation can fail.
 *
 * `ExceptionType` in src/exceptions.hpp lists only the first three kinds;
 * the other source files also throw ICALENDAR, CONFIG and DISCORD, so all
 * six are here.
 */
module Exceptions {

  datatype ExceptionType =
    | IoError
    | CurlError
    | ParseError
    | ICalendar
    | ConfigError
    | Discord

  /** `usos_rpc::Exception`: a kind and a message. */
  datatype Exception = Exception(kind: ExceptionType, message: string)

  /**
   * How an operation fails. `Raised` is a `usos_rpc::Exception`, which the
   * program's `catch (const Exception&)` blocks handle. `Fatal` is anything
   * those blocks do not catch: a `std::out_of_range` from `substr`, a
   * `std::runtime_error` from `locate_zone`, or undefined behaviour such as
   * stepping an iterator outside its vector. Nothing in the program recovers
   * from a `Fatal` failure.
   */
  datatype Failure = Raised(exception: Exception) | Fatal(reason: string)
}
