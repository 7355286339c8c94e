/** `getBusTrolleySchedule` of src/Septa.js: find the nearest stop of the
    route, fetch that stop's schedule and extract it. The two HTTP fetches,
    with `JSON.parse` of their bodies, are the parameters `stopsFeed` and
    `scheduleFeed`: host and path in, the parsed answer out. The stop-list
    answer tells a missing body from one `JSON.parse` rejects, since only
    the first lets the request go on; for the schedule answer both end the
    request the same way (parsing throws, or `null[routeNumber]` does), so
    `None` stands for either. */
module Septa {
  import opened Wrappers
  import opened Config
  import opened TimeConversion
  import opened RequestPaths
  import opened ClosestStop
  import opened BusSchedule

  /** The whole request as a function of the feeds. A stop lookup that throws
      ends everything; a `null` stop id is still sent, as "null". */
  function BusTrolleySchedule(routeNumber: string, lat: int, lng: int, dir: string,
                              stopsFeed: (string, string) -> StopsBody,
                              scheduleFeed: (string, string) -> Option<map<string, seq<Record>>>)
    : (schedule: Option<ScheduleResult>)
    ensures schedule.Some? ==> StopLookup(stopsFeed(BaseUrl, StopsPath(routeNumber)), lat, lng).Callback?
    ensures schedule.Some? ==> |schedule.value.times| == ResultQty
  {
    match StopLookup(stopsFeed(BaseUrl, StopsPath(routeNumber)), lat, lng)
    case Thrown => None
    case Callback(stopId) =>
      match scheduleFeed(BaseUrl, SchedulePath(IdText(stopId), routeNumber, dir))
      case None => None
      case Some(schedObj) => ScheduleOf(schedObj, routeNumber)
  }

  method GetBusTrolleySchedule(routeNumber: string, lat: int, lng: int, dir: string,
                               stopsFeed: (string, string) -> StopsBody,
                               scheduleFeed: (string, string) -> Option<map<string, seq<Record>>>)
    returns (schedule: Option<ScheduleResult>)
    ensures schedule == BusTrolleySchedule(routeNumber, lat, lng, dir, stopsFeed, scheduleFeed)
    ensures schedule.Some? ==> |schedule.value.times| == ResultQty
  {
    var stopId := GetClosestStopId(routeNumber, lat, lng, stopsFeed);
    if stopId.Thrown? {
      return None;
    }
    var reqUrl := SchedulePath(IdText(stopId.stopId), routeNumber, dir);
    var apiResult := scheduleFeed(BaseUrl, reqUrl);
    if apiResult.None? {
      return None;
    }
    schedule := ExtractSchedule(apiResult.value, routeNumber);
  }

  /** Two stops at micro-degree coordinates; the rider stands next to "B". */
  const StopA := Stop("A", 40000000, -75000000)
  const StopB := Stop("B", 39951700, -75212600)
  const RiderLat := 39951728
  const RiderLng := -75212593

  lemma ScenarioStopLookup()
    ensures StopLookup(StopList([StopA, StopB]), RiderLat, RiderLng) == Callback(Some("B"))
  {
    var stops := [StopA, StopB];
    assert Dist(StopA, RiderLat, RiderLng) == 260865;
    assert Dist(StopB, RiderLat, RiderLng) == 35;
    NearestIndexIsNearest(stops, RiderLat, RiderLng, 1);
  }

  /** Nine departures from "15th St", sent by a feed that answers only the
      two requests the pipeline makes for route 34 inbound. */
  const Departures: seq<Record> := [
    Record("9:31p", "15th St"), Record("9:45p", ""), Record("10:02p", ""),
    Record("10:17p", ""), Record("10:32p", ""), Record("10:47p", ""),
    Record("11:02p", ""), Record("11:17p", ""), Record("11:32p", "")]

  lemma ScenarioTimes()
    ensures Time24H("9:45p") == Some(Time(21, 45))
    ensures Time24H("10:02p") == Some(Time(22, 2))
  {
    ScenarioShortTime();
    ScenarioLongTime();
  }

  lemma ScenarioShortTime()
    ensures Time24H("9:45p") == Some(Time(21, 45))
  {
    assert "9:45p"[0] == '9' && "9:45p"[2] == '4' && "9:45p"[3] == '5';
    assert "9:45p"[4] == 'p';
    assert PmOffset("9:45p") == 12;
    Time24HShortForm("9:45p");
  }

  lemma ScenarioLongTime()
    ensures Time24H("10:02p") == Some(Time(22, 2))
  {
    assert "10:02p"[0] == '1' && "10:02p"[1] == '0' && "10:02p"[3] == '0' && "10:02p"[4] == '2';
    assert "10:02p"[5] == 'p';
    assert PmOffset("10:02p") == 12;
    Time24HLongForm("10:02p");
  }

  lemma ScenarioSchedule()
    ensures var r := ScheduleOf(map["34" := Departures], "34");
      r.Some? && r.value.stopName == "15th St" &&
      r.value.times[0] == Some(Time(21, 31)) &&
      r.value.times[1] == Some(Time(21, 45)) &&
      r.value.times[2] == Some(Time(22, 2))
  {
    var schedObj := map["34" := Departures];
    assert "34" in schedObj && |schedObj["34"]| == ResultQty;
    var r := ScheduleOf(schedObj, "34");
    assert Departures[0].date == "9:31p" && Departures[1].date == "9:45p" && Departures[2].date == "10:02p";
    assert r.value.times[0] == Time24H("9:31p");
    assert r.value.times[1] == Time24H("9:45p");
    assert r.value.times[2] == Time24H("10:02p");
    Time24HEveningExample();
    ScenarioShortTime();
    ScenarioLongTime();
  }

  lemma ScenarioPipeline(stopsFeed: (string, string) -> StopsBody,
                         scheduleFeed: (string, string) -> Option<map<string, seq<Record>>>)
    requires stopsFeed(BaseUrl, "/hackathon//Stops/34") == StopList([StopA, StopB])
    requires scheduleFeed(BaseUrl, "/hackathon//BusSchedules/?req1=B&req2=34&req3=i&req6=9") == Some(map["34" := Departures])
    ensures BusTrolleySchedule("34", RiderLat, RiderLng, "i", stopsFeed, scheduleFeed) == ScheduleOf(map["34" := Departures], "34")
  {
    StopsPathExample();
    SchedulePathExample();
    ScenarioStopLookup();
  }
}
