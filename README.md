# usos-rpc core in Dafny

usos-rpc shows a student's current USOS timetable event as a Discord Rich
Presence. This project models its core: the iCalendar subset parser, the
configuration object, and the loop step that picks what the presence shows.
It covers these parts:

- **Text utilities** (`Utilities`, src/utilities.hpp): `split`, `strip`, `contains` and `const_string_length`.
  - `split` and `strip` are methods with loops.
  - Each method is proved equal to a specification function: `Pieces` and `Stripped`.
  - Join, count, idempotence and absence facts are proved about those functions.
- **Events** (`Events`, src/icalendar/event.hpp):
  - The `Event` constructor: the SUMMARY split into type and subject, the two timestamps, and the DESCRIPTION/LOCATION classification.
  - The `(start, end, uid)` ordering and the `std::set` insertion that `parse` relies on.
- **Calendars** (`Calendars`, src/icalendar/calendar.hpp): an immutable value. Its constructor resolves the zone name.
- **Parser** (`ICalendarParser`, src/icalendar/parser.hpp):
  - `preprocess` walks and edits the line vector; it is modelled as `Preprocess`.
  - `fix_escapes` rewrites an array in place; it is modelled as `FixEscapes`.
  - `get_property` is modelled in both overloads.
  - `parse` frames the feed, scans the records, builds and inserts events, and reads the calendar metadata.
  - Each method is proved equal to a recursive specification. Ordering, provenance and failure facts are proved about that specification.
  - The scan loop `ScanLines` takes what each record's `try` block yields as a ghost sequence, tied to `BuildRecord` line by line by `RecordsOf`. `Parse` passes `RecordResults`.
  - A record's `try` block is `ReadRecord` (the six property reads) followed by the event constructor. `BuildRecord` uses the intended constructor, `Events.NewEvent`, and the scan uses `BuildRecord`. `BuildRecordAsWritten` uses the constructor as written (see "Findings").
- **Configuration** (`Configuration`, src/config.hpp):
  - Validation of the TOML table.
  - The DTSTAMP normalisation and the hash gate of `refresh_calendar`. `Config` is a class whose refresh method updates the hash and the cached calendar.
  - The details and state texts of the presence object.
- **Default command** (`DefaultCommand`, src/commands/default.hpp): `update_presence`'s refresh, presence decision and deadline update.
- **Command line** (`CommandLine`, src/commands/parser.hpp):
  - The reversed argument vector is reversed in place in an array.
  - `check_command` pops the last argument when it is one of the command's spellings.

Failures are a datatype, `Failure`, with two cases:

- `Raised(Exception)` is a `usos_rpc::Exception`. The program's `catch (const Exception&)` blocks handle these.
- `Fatal(reason)` is everything those blocks do not catch:
  - `std::out_of_range` from `substr`;
  - `std::runtime_error` from `locate_zone`;
  - `std::chrono::nonexistent_local_time` and `ambiguous_local_time` from `zoned_seconds`, for an event time that a daylight-saving change skips or repeats;
  - undefined behaviour, such as stepping an iterator outside its vector.

Inputs from outside the core are parameters:

- the text `fetch_content` returns, as a `Result`;
- `std::hash<std::string>`, as a function from strings to naturals;
- the set of zone names the time-zone database knows;
- `Calendar::next_event`, as a function from a calendar to an optional event;
- the conversion of a local time in a zone to an instant, as a function that gives none where the zone skips or repeats that local time;
- the current instant.

Some behaviours of the code are easy to misread, and the model states them as
the code has them:

- `update_presence` adds each step to the old deadline `next`, not to `now`. A late wake-up therefore keeps its lateness: see `DefaultCommand.Select`.
- An event counts as started only when its start is strictly before `now` (default.hpp:84).
- `std::set<Event>` removes duplicates by the whole `(start, end, uid)` key, not by uid alone. Two records with the same UID and different times are both kept: see `Events.SameUidDifferentTimesBothKept`.
- `fix_escapes` turns every backslash-n into a line feed before the event constructor splits DESCRIPTION on backslash-n. No parsed event ever has a room, building or URL, so the presence never has a state line: see `ICalendarParser.ParsedEventsHaveOnlyAddress` and `Configuration.ParsedEventsHaveNoState`.
- No pruning of past events appears in the code that is modelled.

## Model

| member | source | states |
|---|---|---|
| Utilities.Find | src/utilities.hpp:27-31 | `std::string::find` from a position: the first occurrence at or after it, or none anywhere after it |
| Utilities.Split | src/utilities.hpp:24-35 | the loop cuts at each first occurrence from `start` and pushes the remainder, giving exactly `Pieces(input, delimiter)` |
| Utilities.PiecesJoin | src/utilities.hpp:27-33 | `split` never returns an empty vector, and joining its pieces with the delimiter gives back the input |
| Utilities.PiecesCount | src/utilities.hpp:25-34 | the number of pieces is the number of non-overlapping delimiter occurrences plus one |
| Utilities.PiecesAvoidDelimiter | src/utilities.hpp:27-31 | no piece contains the delimiter |
| Utilities.PiecesWithoutDelimiter | src/utilities.hpp:27-33 | an input without the delimiter splits into exactly itself |
| Utilities.Stripped | src/utilities.hpp:41-51 | the result is a contiguous slice with only whitespace cut from either end; it has no leading or trailing whitespace, and it is empty exactly when the input is all whitespace |
| Utilities.Strip | src/utilities.hpp:41-51 | the two index loops compute `Stripped(input)` |
| Utilities.StrippedFixpoint | src/utilities.hpp:44-50 | a string with no whitespace at either end is returned unchanged |
| Utilities.StripIdempotent | src/utilities.hpp:44-50 | stripping twice is stripping once |
| Utilities.Contains | src/utilities.hpp:60-63 | true exactly when some element equals the value |
| Utilities.IndexOf | src/utilities.hpp:62 | `std::find`: the first position holding the value, or the end |
| Utilities.ConstStringLength | src/utilities.hpp:15-17 | the length of a NUL-terminated literal, counting the characters before the NUL |
| Utilities.PadDigitsValue | src/icalendar/event.hpp:73 | a zero-padded digit field reads back as the number it was written from |
| Utilities.PadDigitsOfValue | src/icalendar/event.hpp:73 | a digit field is the zero-padded rendering of its value |
| Utilities.DigitsValueBound | src/icalendar/event.hpp:73 | a field of `w` digits is below 10 to the `w` |
| Events.ParseTimestamp | src/icalendar/event.hpp:73-76 | `%Y%m%dT%H%M%S` accepts only field values in range |
| Events.FormatThenParse | src/icalendar/event.hpp:73-76 | every valid local time, written as `YYYYMMDDTHHMMSS` and followed by anything, parses back to itself |
| Events.ParseThenFormat | src/icalendar/event.hpp:73-76 | a parsed timestamp rendered again is the 15 characters it was read from |
| Events.SplitSummary | src/icalendar/event.hpp:56-68 | a type exists exactly when " - " occurs once; then the summary is type, separator and subject, the type ends at the first separator, and neither part holds the separator; otherwise the subject is the whole summary |
| Events.RoomOf | src/icalendar/event.hpp:83-84 | the room is the text after the one ": " when there is exactly one, and the whole line otherwise |
| Events.ClassifyLocation | src/icalendar/event.hpp:81-89 | room, building and URL exist together, exactly when DESCRIPTION splits into three parts; they are the parts in order, and the address is always LOCATION |
| Events.NewEvent | src/icalendar/event.hpp:47-90 | the constructor fails, with the timestamp exception, exactly when a timestamp does not parse; otherwise it keeps the uid and the parsed times and ties subject, type, location and URL to `SplitSummary` and `ClassifyLocation` |
| Events.EventAsWritten | src/icalendar/event.hpp:55-89 | as written, a timestamp that fails to parse leaves the field at the epoch, while the UID, the split summary and the classified location are set whatever the timestamps do; on valid input it agrees with `NewEvent` |
| Events.MalformedStartAdmittedAsWritten | src/icalendar/event.hpp:72-73 | a DTSTART of "tomorrow" yields an event at the epoch as written, and an error in the corrected constructor |
| Events.CompareStrings | src/icalendar/event.hpp:157 | `std::string`'s three-way comparison returns less, equal or greater |
| Events.CompareStringsZero | src/icalendar/event.hpp:157 | strings compare equal exactly when they are equal |
| Events.CompareStringsAntisymmetric | src/icalendar/event.hpp:157 | swapping the operands flips the string comparison |
| Events.CompareStringsTransitive | src/icalendar/event.hpp:157 | the string order is transitive |
| Events.Compare | src/icalendar/event.hpp:156-158 | `operator<=>` returns less, equal or greater |
| Events.CompareZero | src/icalendar/event.hpp:156-158 | two events compare equal exactly when start, end and uid all agree |
| Events.CompareAntisymmetric | src/icalendar/event.hpp:156-158 | swapping the operands flips the event comparison |
| Events.LessTransitive | src/icalendar/event.hpp:156-158 | the event order is transitive |
| Events.Trichotomy | src/icalendar/event.hpp:156-158 | exactly one of less, same key or greater holds |
| Events.SameKeyIsSameEvent | src/icalendar/event.hpp:149-151 | events equal under `<=>` are also equal under `operator==` (same uid) |
| Events.Insert | src/icalendar/parser.hpp:120 | `std::set::insert` keeps the sequence strictly sorted, and every element afterwards was there before or is the new one |
| Events.InsertContents | src/icalendar/parser.hpp:120 | an element whose key is already present leaves the set unchanged; otherwise the result holds exactly the old elements and the new one, each once |
| Events.PrependSmallest | src/icalendar/parser.hpp:120 | an event below the first element extends the sorted sequence at the front and is not in it yet |
| Events.ConsSorted | src/icalendar/parser.hpp:120 | an event below every element keeps the sequence sorted when put in front |
| Events.SameUidDifferentTimesBothKept | src/icalendar/parser.hpp:103-120 | two events with the same uid and different starts are both kept in the set |
| Calendars.NewCalendar | src/icalendar/calendar.hpp:28-38 | a calendar is built exactly when the zone name is known; it keeps name, product id and events; an unknown zone is an uncaught `runtime_error` |
| ICalendarParser.Preprocess | src/icalendar/parser.hpp:20-40 | the erase-and-advance loop computes `LogicalLines(text)`, the line unfolding, including the undefined step before the first line |
| ICalendarParser.UnfoldMakesLogicalLines | src/icalendar/parser.hpp:24-36 | every line `preprocess` returns is non-empty and has no whitespace at either end |
| ICalendarParser.ConcatLogical | src/icalendar/parser.hpp:30-33 | appending one logical line to another gives a logical line |
| ICalendarParser.StripLeadingSpace | src/icalendar/parser.hpp:24-32 | a continuation line is its text after the leading space, stripped |
| ICalendarParser.UnfoldContinuations | src/icalendar/parser.hpp:30-33 | continuation lines after a line are appended to it and removed |
| ICalendarParser.FoldedEqualsUnfolded | src/icalendar/parser.hpp:30-33 | a property folded across continuation lines unfolds to the same lines as the property written on one line |
| ICalendarParser.ConcatAllLogical | src/icalendar/parser.hpp:30-33 | a line with all its continuations appended is a logical line |
| ICalendarParser.UnfoldKeepsOrder | src/icalendar/parser.hpp:24-36 | with no continuation lines, `preprocess` keeps every non-blank line, stripped, in its original order |
| ICalendarParser.UnescapeAll | src/icalendar/parser.hpp:49-54 | the line count is kept and each line is unescaped in place |
| ICalendarParser.FixEscapes | src/icalendar/parser.hpp:49-54 | the array afterwards holds `UnescapeAll` of its old contents |
| ICalendarParser.UnescapeLines | src/icalendar/parser.hpp:96 | `fix_escapes` applied to the preprocessed lines gives `UnescapeAll` of them |
| ICalendarParser.ReplaceAllSkip | src/icalendar/parser.hpp:51-52 | `regex_replace` copies the text before the first match unchanged |
| ICalendarParser.ReplaceAllFrom | src/icalendar/parser.hpp:51-52 | from any position, replacing every match is joining the split pieces with the replacement |
| ICalendarParser.ReplaceAllIsJoinOfPieces | src/icalendar/parser.hpp:51-52 | `regex_replace` of a literal pattern is split-then-join with the replacement |
| ICalendarParser.NoEscapedNewlineIsNotContained | src/icalendar/parser.hpp:51 | a text with no backslash followed by `n` does not contain the escape |
| ICalendarParser.FirstPassLeavesNoEscapedNewline | src/icalendar/parser.hpp:51 | after the first pass no backslash-n is left, not even one formed across a replacement |
| ICalendarParser.SecondPassLeavesNoEscapedNewline | src/icalendar/parser.hpp:52 | the comma pass does not create a backslash-n |
| ICalendarParser.UnescapeLeavesNoEscapedNewline | src/icalendar/parser.hpp:49-54 | no line `fix_escapes` returns contains backslash-n |
| ICalendarParser.FindStartingWith | src/icalendar/parser.hpp:66-68 | `find_if` returns the first line in the range starting with the name, or the range end when there is none |
| ICalendarParser.Substr | src/icalendar/parser.hpp:72 | `substr(pos)` succeeds exactly when `pos` is at most the length and throws `out_of_range` otherwise |
| ICalendarParser.GetPropertyIn | src/icalendar/parser.hpp:65-73 | the only exception raised is "Missing property: " and the name; anything else is fatal |
| ICalendarParser.GetPropertyFindsFirstLine | src/icalendar/parser.hpp:65-73 | "Missing property" exactly when no line in the range starts with the name; otherwise the value is the text after the name and one more character on the first such line; a line equal to the name is fatal |
| ICalendarParser.GetProperty | src/icalendar/parser.hpp:81-83 | the whole-vector overload raises only "Missing property" |
| ICalendarParser.ReadRecord | src/icalendar/parser.hpp:110-119 | the six reads of a record raise only one of the six missing-property exceptions |
| ICalendarParser.ReadRecordFields | src/icalendar/parser.hpp:110-119 | the reads succeed exactly when all six properties are present and DTSTART and DTEND are at least 16 characters long; the values are those of the properties, DTSTART and DTEND without their first 16 characters |
| ICalendarParser.BuildRecord | src/icalendar/parser.hpp:110-119 | with the intended constructor, a record raises only one of the six missing-property exceptions or the timestamp exception |
| ICalendarParser.BuiltRecordFields | src/icalendar/parser.hpp:110-119 | a record builds an event exactly when its reads succeed and both timestamps parse; the event's UID, start, end, subject, type, location and URL come from the UID, DTSTART, DTEND, SUMMARY, DESCRIPTION and LOCATION values; after successful reads the only failure is the timestamp exception |
| ICalendarParser.BuildRecordAsWritten | src/icalendar/parser.hpp:110-119 | with the constructor as written, a record raises only one of the six missing-property exceptions |
| ICalendarParser.RecordAsWrittenAdmitsMalformedTimestamps | src/icalendar/parser.hpp:110-119 | as written, a record builds an event exactly when its reads succeed; where the intended constructor rejects a timestamp, the code's event starts or ends at the epoch; otherwise both agree |
| ICalendarParser.FindLine | src/icalendar/parser.hpp:107 | `std::find` returns the first line equal to END:VEVENT before the last line, or the last line |
| ICalendarParser.RecordResultsAt | src/icalendar/parser.hpp:106-119 | the record opening at line `k` is built from the lines from `k` up to its first END:VEVENT |
| ICalendarParser.RecordOutcome | src/icalendar/parser.hpp:106-125 | a record keeps the event sequence sorted, and the scan resumes inside the vector; a record without END:VEVENT runs past the end, which is fatal |
| ICalendarParser.ScanRecords | src/icalendar/parser.hpp:102-129 | the scan keeps the events strictly sorted and fails only fatally |
| ICalendarParser.ScanRecordStep | src/icalendar/parser.hpp:106-125 | a BEGIN:VEVENT line processes its record, and the scan resumes after END:VEVENT |
| ICalendarParser.ScanSkipStep | src/icalendar/parser.hpp:126-128 | any other line is skipped |
| ICalendarParser.ScanRecord | src/icalendar/parser.hpp:106-124 | one record: the END:VEVENT search, the `try` block, then stopping, inserting the event or setting the flag, is exactly `RecordOutcome` |
| ICalendarParser.ScanLines | src/icalendar/parser.hpp:102-129 | the iterator loop computes `ScanRecords` from line 1 with an empty set, given what each record's `try` block yields |
| ICalendarParser.FramedHasTwoLines | src/icalendar/parser.hpp:97-100 | a feed that passes the framing check has at least two lines |
| ICalendarParser.ParseLines | src/icalendar/parser.hpp:94-138 | with records built by `BuildRecord`: an unframed feed is "Invalid iCalendar file!"; a parsed calendar is framed with sorted events; the only exceptions are the framing error, "Could not parse events!" and the three missing metadata properties; a parsed calendar's product id, name and time zone are the PRODID, X-WR-CALNAME and a known X-WR-TIMEZONE values; "Could not parse events!" means exactly that the scan of a framed feed passed with the flag set and no events |
| ICalendarParser.Parse | src/icalendar/parser.hpp:94-138 | the imperative `parse` computes `ParseText` |
| ICalendarParser.ScanWithoutRecords | src/icalendar/parser.hpp:105-129 | a feed with no BEGIN:VEVENT line scans to no events and no failure |
| ICalendarParser.BuiltEventsShrink | src/icalendar/parser.hpp:105-129 | starting the scan later can only lose records |
| ICalendarParser.BuiltEventOrigin | src/icalendar/parser.hpp:106-120 | every record event comes from a BEGIN:VEVENT line inside the frame whose record built it |
| ICalendarParser.ScanEventsComeFromRecords | src/icalendar/parser.hpp:105-129 | every event the scan returns was there before or was built by a record |
| ICalendarParser.ScanFailureComesFromRecord | src/icalendar/parser.hpp:121-123 | the failure flag is set only when some record raised |
| ICalendarParser.InsertKeeps | src/icalendar/parser.hpp:120 | `events.insert` keeps every element and leaves an element with the new event's key in the set |
| ICalendarParser.ScanKeepsVisitedRecords | src/icalendar/parser.hpp:105-129 | the scan keeps what it had, holds an event with the key of every event built by a record it visits, and holds nothing else |
| ICalendarParser.ParsedEventsAreVisitedRecords | src/icalendar/parser.hpp:102-132 | a parsed calendar's events are exactly the events built by the records the scan visits, one per key: a record that raises is skipped and every record that builds an event is kept |
| ICalendarParser.ScanFailureIff | src/icalendar/parser.hpp:102-129 | after a scan that passes, the failure flag is set exactly when it was set before or a record the scan visits raised |
| ICalendarParser.NoEventsIffVisitedRecordsFail | src/icalendar/parser.hpp:102-132 | for a framed feed, "Could not parse events!" is raised exactly when the scan passes, no record it visits builds an event, and at least one of them raises |
| ICalendarParser.ParsedEventsComeFromRecords | src/icalendar/parser.hpp:102-132 | every parsed event was built by a record, and "Could not parse events!" occurs only when some record raised |
| ICalendarParser.FeedWithoutRecordsIsEmpty | src/icalendar/parser.hpp:94-137 | a framed feed without records but with its metadata parses to a calendar with no events, named by X-WR-CALNAME |
| ICalendarParser.MissingProductIdIsReported | src/icalendar/parser.hpp:130-134 | once the scan has passed, a feed without PRODID fails with "Missing property: PRODID" |
| ICalendarParser.MissingCalendarNameIsReported | src/icalendar/parser.hpp:130-135 | once the scan has passed and PRODID is read, a feed without X-WR-CALNAME fails with "Missing property: X-WR-CALNAME" |
| ICalendarParser.MissingTimeZoneIsReported | src/icalendar/parser.hpp:130-136 | once the scan has passed and PRODID and X-WR-CALNAME are read, a feed without X-WR-TIMEZONE fails with "Missing property: X-WR-TIMEZONE" |
| ICalendarParser.NoEscapedNewlineInSuffix | src/icalendar/parser.hpp:72 | a property value cut from a line without backslash-n has none either |
| ICalendarParser.DescriptionWithoutEscapes | src/icalendar/parser.hpp:65-73 | a DESCRIPTION value read from lines without backslash-n holds no backslash-n separator |
| ICalendarParser.RecordWithoutEscapesHasOnlyAddress | src/icalendar/parser.hpp:117 | a record whose lines hold no backslash-n builds an event without room, building or URL |
| ICalendarParser.ParsedEventsHaveOnlyAddress | src/icalendar/parser.hpp:96-117 | every event `parse` returns has only an address: its DESCRIPTION never splits in three |
| Configuration.DecimalString | src/config.hpp:69 | `std::to_string` writes one or more digits, with no leading zero for a positive number |
| Configuration.DecimalStringValue | src/config.hpp:69 | the digits read back as the number |
| Configuration.DecimalStringLength | src/config.hpp:69 | a number below 10 to the `w` has at most `w` digits |
| Configuration.Pow10Add | src/config.hpp:24 | powers of ten multiply by adding exponents |
| Configuration.IntegerIdIsDiscordId | src/config.hpp:63-69 | every positive 64-bit id written out matches `\d{1,20}` |
| Configuration.ValidateSettings | src/config.hpp:54-94 | the constructor's checks, in order, with their four messages; an id of any type other than integer or string is the wrong-type error; the calendar text and the id as the table gives them; an idle rate of 30 unless a positive integer is given; an image key only when a non-empty string is given |
| Configuration.StringIdAcceptedIffDigits | src/config.hpp:71-76 | a string id is accepted exactly when it is 1 to 20 digits |
| Configuration.IntegerIdAcceptedIffPositive | src/config.hpp:63-69 | an integer id is accepted exactly when it is positive, and is kept as its decimal text |
| Configuration.StampLength | src/config.hpp:26 | a DTSTAMP match covers at least the head and the time, and ends with a line feed |
| Configuration.StampMatchIsOneLine | src/config.hpp:26 | a match contains no line feed except its first and last character |
| Configuration.StampLengthOfPrefix | src/config.hpp:26 | a match depends only on the characters it covers |
| Configuration.Consumed | src/config.hpp:102 | each scan step of `regex_replace` consumes at least one character |
| Configuration.NormalizeStep | src/config.hpp:102 | one step of `regex_replace` emits a line feed for a match or copies one character |
| Configuration.EndsWithStampLineSuffix | src/config.hpp:26 | an unterminated DTSTAMP line at the end of a suffix is one at the end of the whole |
| Configuration.MatchStaysInside | src/config.hpp:26 | a match cannot cross into text that starts a new line, unless it completes a DTSTAMP line left open |
| Configuration.StepAgrees | src/config.hpp:102 | the scan takes the same step on a text and on the text extended at a line start |
| Configuration.ConcatStep | src/config.hpp:102 | normalising the extended text starts with the same step as normalising the text alone |
| Configuration.NormalizeConcat | src/config.hpp:102 | normalising two texts joined at a line start normalises each one, unless a DTSTAMP line straddles the cut |
| Configuration.StampLineMatches | src/config.hpp:26 | every `DTSTAMP;VALUE=DATE-TIME:` line with a well-formed time, optional `Z` and optional carriage return is one whole match |
| Configuration.NormalizeStampLine | src/config.hpp:101-102 | a DTSTAMP line at the start is replaced by a single line feed |
| Configuration.StampLineNormalizes | src/config.hpp:101-102 | a DTSTAMP line between two texts becomes one line feed, and the texts on either side are normalised separately |
| Configuration.StampInsensitive | src/config.hpp:101-105 | fetches that differ only in a DTSTAMP value normalise, and therefore hash, alike |
| Configuration.NormalizeWithoutStamps | src/config.hpp:102 | a text with no DTSTAMP line is left unchanged |
| Configuration.Details | src/config.hpp:123-125 | the details line is "subject - type" when there is a type, and the subject otherwise |
| Configuration.State | src/config.hpp:126-128 | the state line is "room - building" exactly for an event with a full location |
| Configuration.DetailsSwapSummary | src/config.hpp:123-125 | the details line shows the summary "type - subject" swapped into "subject - type", and any other summary as it is |
| Configuration.ParsedEventsHaveNoState | src/config.hpp:126-128 | an event from a parsed calendar never has a state line |
| Configuration.Config.constructor | src/config.hpp:54 | keeps the settings; the hash starts at 0 and there is no calendar yet |
| Configuration.Config.FromTable | src/config.hpp:54-94 | builds a valid `Config` with the validated settings, or raises the validation error |
| Configuration.Config.IdleRefreshMinutes | src/config.hpp:165-167 | the idle refresh rate is always positive |
| Configuration.Config.RefreshCalendar | src/config.hpp:99-111 | a fetch error propagates with nothing changed; an unchanged normalised hash returns false with nothing changed; otherwise a successful parse stores the calendar and the hash and returns true, and a failed one changes nothing |
| DefaultCommand.MinDuration | src/commands/default.hpp:87-92 | the smaller of the two durations |
| DefaultCommand.Select | src/commands/default.hpp:81-99 | a started event is shown with "subject - type" and its state, and the deadline moves by no more than the idle interval or the time to its end; an event yet to start clears the presence, and the deadline moves by no more than the idle interval or the time to its start; with no event the presence is cleared and the deadline moves by exactly the idle interval; steps are added to the old deadline; the selection fails fatally exactly when there is no calendar, the next event's start has no single instant, or it has started and its end has none |
| DefaultCommand.UpdatePresence | src/commands/default.hpp:57-105 | before the deadline nothing changes; after it, a failed fetch or an unchanged hash keeps the stored calendar and hash, a changed hash whose parse succeeds stores the parsed calendar and the new hash, and a parse failure keeps both; a caught refresh exception leaves the stored calendar and the selection uses it; an uncaught failure escapes; the selection uses the calendar after the refresh and the configured idle minutes |
| CommandLine.Reversed | src/commands/parser.hpp:22 | a reversal has the same length and holds position `k` at position `len - 1 - k` |
| CommandLine.ReversedTwice | src/commands/parser.hpp:22 | reversing twice restores the order |
| CommandLine.Arguments.constructor | src/commands/parser.hpp:20-24 | the argument vector is `argv[1..]` reversed in place, so its back is the first user argument |
| CommandLine.Arguments.CheckCommand | src/commands/parser.hpp:32-61 | true exactly when there is a last argument and it is one of the name's, short name's or alias's spellings; then exactly that argument is removed, and otherwise nothing changes |

## Left out

- Reading files and directories (src/files.hpp), HTTP requests (src/requests.hpp), logging (src/logging.cpp, src/logging.hpp), pre-initialisation (src/preinit.hpp), and the windows, systemd and info commands and `main`. These are I/O and OS integration. The text `fetch_content` returns is an input to `Config.RefreshCalendar`.
- The Discord calls (`Discord_UpdatePresence`, `Discord_ClearPresence`, `Discord_RunCallbacks`), the handlers and the `run_default` loop with its signals. `DefaultCommand.UpdatePresence` returns the presence change as a `PresenceAction` instead.
- Exceptions from `Discord_RunCallbacks`, which default.hpp:102-104 swallows. They are not modelled, since the callbacks are outside the core.
- The presence object's static buffers, its C-string pointers, its two epoch timestamps and its image key field. This is memory handling and a clock conversion.
- TOML parsing. The parsed table is a map from keys to tagged values: string, 64-bit integer, or anything else.
- The time-zone database. Zones are known by name, `locate_zone` is membership in a set of names, and the local-to-instant conversion is a function parameter.
- `std::hash`. It is an arbitrary function from strings to naturals, so two different texts may hash alike, as in the source.
- `Calendar::next_event`, which is not part of this model. Its result is a function parameter of `DefaultCommand.UpdatePresence`.
- `Event::has_full_location`, which is not part of this model either. `Configuration.HasFullLocation` takes it to mean room and building present.
- The printing of an event and the log messages of `update_presence`. These are I/O.
- Clock precision below a second. Instants and durations are whole seconds, and the idle rate in minutes is multiplied by 60.
- `size_t` wrap-around in `substr` and `find` positions. Positions are unbounded naturals, and the lines are far shorter than the wrap-around point.
- The order in which C++ evaluates the six `get_property` arguments of the `Event` construction is unspecified. `ICalendarParser.ReadRecord` evaluates them left to right. The order decides which missing property is reported first. It also decides between a fatal failure and a skipped record: with a bare `SUMMARY` line and no UID line, left to right makes `substr(8)` on the 7-character line throw `std::out_of_range`, which `parse` does not catch, while reading UID first would raise "Missing property: UID" and skip the record.
- `ICalendarParser.BuildRecord`: builds the event with the intended constructor, `Events.NewEvent`. A record whose DTSTART or DTEND value is not a timestamp therefore raises and is skipped. The code as written inserts an event that starts or ends at the epoch instead. `ICalendarParser.BuildRecordAsWritten` and `ICalendarParser.RecordAsWrittenAdmitsMalformedTimestamps` state the code's behaviour for one record.
- `ICalendarParser.ParseLines`: inherits this from `BuildRecord`, and so do `ICalendarParser.ParseText`, `ICalendarParser.Parse` and `ICalendarParser.ScanRecords`. A feed whose only records have malformed timestamps gives "Could not parse events!" in the model, where the code as written returns a calendar with epoch events. `parse` as written, beyond one record, is not modelled.
- `Events.ParseTimestamp`: reads a fixed-width `%Y%m%dT%H%M%S` and checks each field against its own range (day 1 to 31). It does not check the day against the month's length or leap years, which `std::chrono::parse` also rejects.
- `Events.ParseTimestamp`: `std::chrono::parse` reads each field as up to four (`%Y`) or two digits, with optional leading zeros. The code therefore reads `2024011T100000` as 10:00 on 1 January 2024. The model requires all fifteen characters, so it rejects that value, and `Events.EventAsWritten` puts such an event at the epoch.
- Byte strings. `std::string` holds bytes, and the model's strings are sequences of characters. Every position the core cuts at follows an ASCII prefix, and UTF-8 keeps code-point order under bytewise comparison, but lengths of non-ASCII text differ.
- `Configuration.Config.RefreshCalendar`: `_calendar` is an `Option<Calendar>`, empty until the first successful refresh. `Calendar` has no default constructor, and config.hpp:48 gives `_calendar` no initialiser.
- `DefaultCommand.Select`: a selection before any calendar has been parsed fails fatally. The source has no defined behaviour there.
- `DefaultCommand.Select`: steps are unbounded whole seconds. The code adds the idle rate and the `min_duration` steps to a clock whose ticks are a signed 64-bit count of nanoseconds (default.hpp:87, 92, 97), which overflows for an idle rate above about 1.5·10^8 minutes. `Configuration.ValidateSettings` accepts any positive 64-bit rate, so that overflow is not modelled.
- `DefaultCommand.Select`: `nonexistent_local_time` and `ambiguous_local_time` are one fatal failure. The conversion parameter gives none for both, so the model does not tell them apart.
- `CommandLine.Arguments.CheckCommand`: the name and the alias are taken as C strings without a NUL. An empty alias is excluded because `alias_v[1]` reads past it.
- `Utilities.Split`: an empty delimiter is excluded, because the loop at utilities.hpp:28-32 never advances on it.

## Findings

| source | as written | input that shows it | evidently intended | confidence | as-written member | corrected member |
|---|---|---|---|---|---|---|
| src/icalendar/event.hpp:72-76 | only `badbit` is in the stream's exception mask. A failed `std::chrono::parse` sets `failbit` and throws nothing, so `_start`/`_end` keep their epoch value and the catch clause at :77-79 never runs | DTSTART value "tomorrow" (after `VALUE=DATE-TIME:`) | a timestamp that does not parse raises "Could not parse event timestamp!", so the record counts as failed | medium, not executed | Events.EventAsWritten, Events.MalformedStartAdmittedAsWritten, ICalendarParser.BuildRecordAsWritten, ICalendarParser.RecordAsWrittenAdmitsMalformedTimestamps | Events.NewEvent, ICalendarParser.BuildRecord |
