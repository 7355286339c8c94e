/** The extraction step of `getBusTrolleySchedule` in src/Septa.js: from the
    parsed schedule answer, a route-keyed map of departure records, take the
    stop name of the first record and the first `ResultQty` display times,
    each converted by `time24H`. */
module BusSchedule {
  import opened Wrappers
  import opened Config
  import opened TimeConversion

  /** One departure record; `date` holds the display time (e.g. "9:31p"). */
  datatype Record = Record(date: string, stopName: string)

  /** The object handed to the schedule callback. A slot whose display time
      `time24H` cannot read holds `None`. */
  datatype ScheduleResult = ScheduleResult(stopName: string, times: seq<Option<Time>>)

  /** The result as a function of the parsed answer: `None` where the source
      throws, that is when the route key is missing (`undefined[0]`) or the
      route has fewer than `ResultQty` records (`.StopName` or `.date` of an
      `undefined` element). */
  function ScheduleOf(schedObj: map<string, seq<Record>>, routeNumber: string): (schedule: Option<ScheduleResult>)
    ensures schedule.Some? <==> routeNumber in schedObj && |schedObj[routeNumber]| >= ResultQty
    ensures schedule.Some? ==>
      schedule.value.stopName == schedObj[routeNumber][0].stopName &&
      |schedule.value.times| == ResultQty &&
      forall i :: 0 <= i < ResultQty ==> schedule.value.times[i] == Time24H(schedObj[routeNumber][i].date)
  {
    if routeNumber in schedObj && |schedObj[routeNumber]| >= ResultQty then
      var routeArr := schedObj[routeNumber];
      Some(ScheduleResult(routeArr[0].stopName,
                          seq(ResultQty, i requires 0 <= i < ResultQty => Time24H(routeArr[i].date))))
    else None
  }

  /** The result depends on the stop name of the first record and on the
      display times of the first `ResultQty` records, and on nothing else. */
  lemma ScheduleOfReadsOnlyFirstName(obj1: map<string, seq<Record>>, obj2: map<string, seq<Record>>,
                                     routeNumber: string)
    requires routeNumber in obj1 && routeNumber in obj2
    requires |obj1[routeNumber]| >= ResultQty && |obj2[routeNumber]| >= ResultQty
    requires obj1[routeNumber][0].stopName == obj2[routeNumber][0].stopName
    requires forall i :: 0 <= i < ResultQty ==> obj1[routeNumber][i].date == obj2[routeNumber][i].date
    ensures ScheduleOf(obj1, routeNumber) == ScheduleOf(obj2, routeNumber)
  {
    var times1 := ScheduleOf(obj1, routeNumber).value.times;
    var times2 := ScheduleOf(obj2, routeNumber).value.times;
    assert forall i :: 0 <= i < ResultQty ==> times1[i] == times2[i];
    assert times1 == times2;
  }

  /** The first loop: `times[i] := routeArr[i].date` for every `i` below
      `ResultQty`; `None` when a record is missing. */
  method CopyDates(routeArr: seq<Record>) returns (times: Option<seq<string>>)
    ensures times.Some? <==> |routeArr| >= ResultQty
    ensures times.Some? ==>
      |times.value| == ResultQty &&
      forall i :: 0 <= i < ResultQty ==> times.value[i] == routeArr[i].date
  {
    var a := new string[ResultQty];
    for i := 0 to ResultQty
      invariant i <= |routeArr|
      invariant forall j :: 0 <= j < i ==> a[j] == routeArr[j].date
    {
      if i >= |routeArr| {
        return None;
      }
      a[i] := routeArr[i].date;
    }
    times := Some(a[..]);
  }

  /** The second loop: slot `i` of `times24h` gets `time24H(times[i])`. The
      conversion calls back synchronously, so each result lands in its own
      slot, in order. */
  method ConvertTimes(times: seq<string>) returns (times24h: seq<Option<Time>>)
    ensures |times24h| == |times|
    ensures forall i :: 0 <= i < |times| ==> times24h[i] == Time24H(times[i])
  {
    var a := new Option<Time>[|times|](_ => None);
    for i := 0 to |times|
      invariant forall j :: 0 <= j < i ==> a[j] == Time24H(times[j])
    {
      a[i] := Time24H(times[i]);
    }
    times24h := a[..];
  }

  /** The body of the schedule callback after `JSON.parse`. */
  method ExtractSchedule(schedObj: map<string, seq<Record>>, routeNumber: string)
    returns (schedule: Option<ScheduleResult>)
    ensures schedule.Some? <==> routeNumber in schedObj && |schedObj[routeNumber]| >= ResultQty
    ensures schedule.Some? ==>
      schedule.value.stopName == schedObj[routeNumber][0].stopName &&
      |schedule.value.times| == ResultQty &&
      forall i :: 0 <= i < ResultQty ==> schedule.value.times[i] == Time24H(schedObj[routeNumber][i].date)
    ensures schedule == ScheduleOf(schedObj, routeNumber)
  {
    if routeNumber !in schedObj {
      return None;
    }
    var routeArr := schedObj[routeNumber];
    if routeArr == [] {
      return None;
    }
    var stopName := routeArr[0].stopName;
    var times := CopyDates(routeArr);
    if times.None? {
      return None;
    }
    var times24h := ConvertTimes(times.value);
    schedule := Some(ScheduleResult(stopName, times24h));
    assert times24h == ScheduleOf(schedObj, routeNumber).value.times;
  }
}
