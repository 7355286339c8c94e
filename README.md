# alexa-septa core in Dafny

This project models the decision logic of the SEPTA transit skill. The skill
answers "when does route R next leave from the stop nearest to me?". Given a
route number, a rider position and a direction, the source (`src/Septa.js`)
does five things:

1. It asks the feed for the route's stop list, at `/hackathon//Stops/{route}`.
2. It scores every stop by the L1 distance `|lat - stop.lat| + |lng - stop.lng|`
   and takes the first stop with the smallest score (`getClosestStopId`).
3. It asks for that stop's schedule, at
   `/hackathon//BusSchedules/?req1={stopId}&req2={route}&req3={dir}&req6=9`.
4. From the route's records it takes the stop name of record 0 and the
   display times of records 0 through 8 (`getBusTrolleySchedule`).
5. It converts each display time ("9:31p") into an hour and a minute on a
   24-hour scale (`time24H`).

Modules, one file each:

- `Wrappers`: the `Option` type.
- `Config`: the host, the base path and `ResultQty` (9).
- `JsText`: the JavaScript primitives the core depends on.
  - `ParseInt` follows ECMA-262 section 19.2.5: white space, sign, a "0x"
    prefix, then the longest digit run. `None` stands for NaN.
  - `NumberToString` is the decimal text that concatenating a small
    non-negative integer produces.
- `TimeConversion`: `time24H`.
- `ClosestStop`: `getClosestStopId`. It is a method with the source's three
  passes (fill `distances`, `Math.min`, `indexOf`) over a local array. It is
  proved against a reference running-minimum function.
- `BusSchedule`: the schedule extraction, as the source's two index-filling
  loops over pre-sized arrays. It is proved against a functional definition.
- `RequestPaths`: the two request paths.
- `Septa`: `getBusTrolleySchedule`, composing the three steps.

The two HTTP fetches, with `JSON.parse` of their bodies, are function
parameters. Each takes a host and a path and returns the parsed answer.

- The stop-list fetch returns a `StopsBody` with three cases.
  - `NoBody` is a `null` or empty body. The source calls back with `null`
    and the request goes on.
  - `Malformed` is a body `JSON.parse` rejects. The source throws at
    src/Septa.js:40, so the schedule is never requested.
  - `StopList` holds the parsed stops.
- The schedule fetch returns `None` for a missing body and for a body that
  does not parse. The source throws in both cases: `JSON.parse` rejects
  the body, or it reads `null[routeNumber]`.

Behaviour of the code that the model keeps as written, although a reader
might expect otherwise:

- A stop-list fetch with no body does not end the request. The source calls
  back with `null` and still fetches the schedule for stop id "null"
  (`RequestPaths.SchedulePathWithoutStop`, `Septa.BusTrolleySchedule`).
- An empty stop list does not produce a "not found" answer. `indexOf` gives
  -1, and reading `stopObj[-1].stopid` throws. The schedule is then never
  fetched, and the pipeline yields `None` (`ClosestStop.LookupOutcome.Thrown`).
- Both request paths hold a doubled slash after `/hackathon/`, because
  `basePath` already ends in one.
- The request always asks for 9 departures, and extraction needs all 9. The
  end-to-end scenario therefore uses nine records.
- `time24H` adds 12 whenever the string contains a `'p'` anywhere, and never
  corrects an AM hour: "12:15a" gives 12 and "12:00p" gives 24.

## Model

| member | source | states |
|---|---|---|
| JsText.ParseInt | src/Septa.js:142-146 | `parseInt` with no radix: skip leading white space, read an optional sign, switch to radix 16 after "0x"/"0X", and read the longest run of digits; NaN (`None`) when that run is empty |
| JsText.NumberToString | src/Septa.js:73-74 | the text concatenated for `resultQty` is a non-empty run of decimal digits, one digit exactly for numbers below 10 |
| JsText.ParseIntOfNumberToString | src/Septa.js:73-74 | `parseInt` reads back every non-negative integer from the decimal text `NumberToString` gives it, which for 9 is the text the request carries |
| JsText.ParseIntOfDecimal | src/Septa.js:142-146 | `parseInt` of a non-empty field of decimal digits is the number the digits denote |
| JsText.ParseIntSkipsWhiteSpace | src/Septa.js:142-146 | a leading white-space character does not change what `parseInt` reads |
| JsText.ParseIntStopsAtNonDigit | src/Septa.js:142-146 | `parseInt` stops at the first character that is not a decimal digit and returns the value of the digits before it, except that a lone "0" followed by 'x' or 'X' starts a hexadecimal number |
| JsText.ParseIntTrailingXExample | src/Septa.js:145 | "12x" reads as 12: an 'x' that does not follow a lone "0" is an ordinary stop |
| JsText.ParseIntSigned | src/Septa.js:142-146 | a leading '-' negates the digits that follow, and a leading '+' leaves them as they are |
| JsText.ParseIntLeadingZeroExample | src/Septa.js:146 | "05" reads as 5 |
| JsText.ParseIntWhiteSpaceExample | src/Septa.js:145 | " 9" reads as 9 |
| JsText.ParseIntTrailingExample | src/Septa.js:143 | "3p" reads as 3 |
| JsText.ParseIntSignExample | src/Septa.js:145 | "-1" reads as -1 |
| JsText.ParseIntNaNExample | src/Septa.js:142-146 | "0x", "p" and ":" read as NaN |
| TimeConversion.PmOffset | src/Septa.js:149 | definition: the hour offset of the `includes('p')` test, 12 when the string contains a 'p' anywhere and 0 otherwise; what it does to `time24H` is stated by the Time24HShortForm, Time24HLongForm and Time24HMarker lemmas |
| TimeConversion.Time24H | src/Septa.js:139-155 | `time24H`: for length 5 it reads the hour from index 0 and the minute from indices 2-3, for length 6 from indices 0-1 and 3-4, and adds the 'p' offset to the hour; `None` for any other length or a NaN field |
| TimeConversion.Time24HRejectsOtherLengths | src/Septa.js:139-147 | a string whose length is neither 5 nor 6 gives no time at all |
| TimeConversion.Time24HShortForm | src/Septa.js:141-143 | for length 5, the hour is the digit at index 0 plus 12 when a 'p' occurs, and the minute is the digits at indices 2 and 3 |
| TimeConversion.Time24HLongForm | src/Septa.js:144-146 | for length 6, the hour is the digits at indices 0 and 1 plus 12 when a 'p' occurs, and the minute is the digits at indices 3 and 4 |
| TimeConversion.Time24HMarker | src/Septa.js:149 | with no other 'p' in the string, a 'p' marker adds exactly 12 to the hour that an 'a' marker gives, and any other marker gives the same result as 'a' |
| TimeConversion.Time24HOfDisplayTime | src/Septa.js:133-154 | converting a well-formed display time for hour 1-12 and minute 0-59 gives that hour (plus 12 after noon) and that minute |
| TimeConversion.MarkerRecovered | src/Septa.js:149 | for hours 1 to 11 the AM/PM marker can be recovered from the converted hour |
| TimeConversion.TwelveNotCorrected | src/Septa.js:149 | hour 12 is not corrected: "12:mma" gives 12 and "12:mmp" gives 24 |
| TimeConversion.Time24HEveningExample | src/Septa.js:136-137 | "9:31p" gives 21:31 |
| TimeConversion.Time24HMorningExample | src/Septa.js:144-146 | "11:05a" gives 11:05 |
| TimeConversion.Time24HMidnightExample | src/Septa.js:149 | "12:15a" gives 12:15 |
| TimeConversion.Time24HNoonExample | src/Septa.js:149 | "12:00p" gives 24:00 |
| TimeConversion.Time24HStrayPExample | src/Septa.js:149 | a 'p' in the separator position also adds 12: "9p31a" gives 21:31 |
| TimeConversion.Time24HLeadingSpaceExample | src/Septa.js:145-146 | " 9:31p" gives 21:31 |
| TimeConversion.Time24HFailureExamples | src/Septa.js:141-147 | strings of length 4, 7 and 0, and strings with non-numeric fields, give no time |
| ClosestStop.Dist | src/Septa.js:49 | the score of a stop: the absolute latitude difference plus the absolute longitude difference from the rider |
| ClosestStop.DistZeroAtPosition | src/Septa.js:49 | a score is never negative, and it is 0 exactly when the stop stands at the rider's position |
| ClosestStop.Scores | src/Septa.js:44-50 | the `distances` array: one score per stop, in stop-list order |
| ClosestStop.FirstMinIndex | src/Septa.js:53 | the reference selection, a running minimum that moves only on a strictly smaller score, returns an index inside the score list |
| ClosestStop.FirstMinIndexIsFirstMin | src/Septa.js:53 | the reference selection holds the minimum score, and every earlier index holds a strictly larger one |
| ClosestStop.FirstMinUnique | src/Septa.js:53 | at most one index is the first minimum |
| ClosestStop.NearestIndexIsNearest | src/Septa.js:44-53 | an index is the selected one if and only if its stop is no farther than any stop and strictly nearer than every earlier stop |
| ClosestStop.IndexOfMin | src/Septa.js:53 | `indexOf(Math.min(...))` over the `distances` array gives -1 exactly when the array is empty, and otherwise the first index holding the minimum |
| ClosestStop.ClosestStopIndex | src/Septa.js:41-53 | `minStopIndex` is -1 exactly when there are no stops; otherwise it is the first index of the smallest L1 score, the reference selection |
| ClosestStop.StopLookup | src/Septa.js:37-57 | the lookup as a function of the fetched body: the callback gets `null` exactly for no body; the code throws exactly for a body `JSON.parse` rejects or an empty list; otherwise the callback gets the id of the stop the reference selection picks |
| ClosestStop.SingleStopChosen | src/Septa.js:44-54 | a list of one stop selects that stop whatever its distance |
| ClosestStop.GetClosestStopId | src/Septa.js:32-58 | the callback gets `null` for a missing or empty body, the id of the first nearest stop for a non-empty list, and nothing (the code throws) for a body `JSON.parse` rejects or an empty list |
| BusSchedule.ScheduleOf | src/Septa.js:79-103 | the extraction as a function of the parsed answer: a result exactly when the route key is present with at least 9 records, holding the stop name of record 0 and 9 times, time `i` being `time24H` of record `i`'s date |
| BusSchedule.ScheduleOfReadsOnlyFirstName | src/Septa.js:80-89 | the schedule depends on the stop name of record 0 and the dates of records 0 to 8, and on no other record field |
| BusSchedule.CopyDates | src/Septa.js:86-89 | the 9 raw times are the `date` fields of records 0 to 8 in order, and there are none when fewer than 9 records exist |
| BusSchedule.ConvertTimes | src/Septa.js:92-97 | slot `i` of the output is the conversion of raw time `i`, for every `i` |
| BusSchedule.ExtractSchedule | src/Septa.js:79-103 | there is a result exactly when the route key is present with at least 9 records; it has the stop name of record 0 and exactly 9 times, time `i` being the conversion of record `i`'s date |
| RequestPaths.StopsPath | src/Septa.js:34 | the stop-list path: the base path, then "/Stops/", then the route number |
| RequestPaths.SchedulePath | src/Septa.js:73-74 | the schedule path: the base path, then "/BusSchedules/?req1=" with the stop id, "&req2=" with the route, "&req3=" with the direction and "&req6=" with the decimal text of 9 |
| RequestPaths.IdText | src/Septa.js:71-73 | the text concatenation gives for the stop id the callback receives: "null" for `null`, otherwise the id itself |
| RequestPaths.StopsPathExample | src/Septa.js:34 | route "34" asks for "/hackathon//Stops/34" |
| RequestPaths.SchedulePathExample | src/Septa.js:73-74 | stop "B", route "34" and direction "i" ask for "/hackathon//BusSchedules/?req1=B&req2=34&req3=i&req6=9" |
| RequestPaths.SchedulePathWithoutStop | src/Septa.js:71-74 | with a `null` stop id the schedule request is sent with "req1=null" |
| RequestPaths.StopsPathInjective | src/Septa.js:34 | different routes give different stop-list paths |
| RequestPaths.SchedulePathInjective | src/Septa.js:73-74 | when no field contains '&', the schedule path determines the stop, the route and the direction |
| Septa.BusTrolleySchedule | src/Septa.js:69-106 | the whole request as a function of the two feeds: nothing when the stop lookup throws; otherwise the extraction of the schedule answer for the looked-up stop (stop "null" when there is none), nothing when that answer is missing; a result only after a lookup that called back, and always with 9 times |
| Septa.GetBusTrolleySchedule | src/Septa.js:69-106 | the schedule is the extraction of what the feed returns for the nearest stop's path (stop "null" after a failed lookup), nothing after a lookup that throws, and holds 9 times when present |
| Septa.ScenarioStopLookup | src/Septa.js:44-54 | for stops A (40.0, -75.0) and B (39.9517, -75.2126) and the rider at (39.951728, -75.212593), the lookup chooses "B" |
| Septa.ScenarioSchedule | src/Septa.js:80-102 | nine records starting "9:31p", "9:45p", "10:02p" at "15th St" give that stop name and the times 21:31, 21:45, 22:02 |
| Septa.ScenarioPipeline | src/Septa.js:69-106 | feeds answering the two paths for route 34, direction "i", at the scenario position give the schedule of those nine records |

## Left out

- The HTTP transport (`httpGet`, src/Septa.js:115-131) is not modelled. The two fetches are function parameters that return the parsed body, and streaming, status codes and socket errors are not modelled.
- `JSON.parse` (src/Septa.js:40, 79) is not modelled: its result is typed input, and a body it rejects is a case of its own (`Malformed`, or `None` for the schedule). JSON of another shape is not modelled, for example an object where the stop list is expected. Neither are records missing the `lat`, `lng`, `stopid`, `date` or `StopName` fields.
- JsText.NumberToString: it gives the JavaScript text of an integer only below 10^21, and exactly only up to 2^53. JavaScript writes 1e21 as "1e+21", which `parseInt` reads back as 1, and it rounds larger integers. So `ParseIntOfNumberToString` is a fact about this function, not about JavaScript for all integers. The source only ever converts 9.
- Coordinates are integers, for example micro-degrees, not JavaScript doubles. So the model has no float rounding and no NaN scores, and it does not model `Math.min.apply` failing on very long lists.
- ClosestStop.IndexOfMin: the empty array returns -1 before the minimum is taken. The source takes `Math.min()` of nothing (+Infinity), which `indexOf` does not find. The result is the same.
- TimeConversion.Time24H: when `parseInt` reads a field as NaN, the model returns `None` for the whole time. The source returns an object holding NaN. For lengths other than 5 and 6 the source returns `undefined` fields (NaN hours when the string holds a 'p'); the model returns `None`.
- JsText.ParseInt: strings are sequences of Unicode scalar values, not UTF-16 code units, so `substring` is exact only on the Basic Multilingual Plane. The model does not round integers beyond 2^53, and it reads "-0" as 0.
- The asynchronous callback chaining between the two fetches is modelled as sequential calls. `time24H` calls back synchronously, so the per-index fill is a plain loop.
- The voice front end in src/index.js is not part of this model. It covers the skill dispatch, the intent handlers, the speech and reprompt texts, the sentence built from the first three times, and the commented-out blocks.
