/** `getClosestStopId` of src/Septa.js: score every stop of a route by its
    L1 distance in degree space from the rider, and pick the first stop with
    the smallest score. Coordinates are integers (micro-degrees, say). */
module ClosestStop {
  import opened Wrappers
  import opened Config
  import opened RequestPaths

  /** One element of the parsed stop list; only these three fields are read. */
  datatype Stop = Stop(stopid: string, lat: int, lng: int)

  /** How `getClosestStopId` ends: its callback receives a stop id or `null`,
      or it throws before calling back (a stop list with no stops leaves
      `minStopIndex` at -1, and reading `.stopid` of `stopObj[-1]` throws). */
  datatype LookupOutcome = Callback(stopId: Option<string>) | Thrown

  /** What the stop-list fetch hands to the selection: no body (`null` or the
      empty string, both falsy), a body `JSON.parse` rejects, or the parsed
      stop list. */
  datatype StopsBody = NoBody | Malformed | StopList(stops: seq<Stop>)

  function Abs(x: int): nat {
    if x < 0 then -x else x
  }

  /** The score of a stop: |lat - stop.lat| + |lng - stop.lng|. */
  function Dist(stop: Stop, lat: int, lng: int): int {
    Abs(lat - stop.lat) + Abs(lng - stop.lng)
  }

  /** Scores are never negative, and a stop scores 0 exactly when it stands
      at the rider's position. */
  lemma DistZeroAtPosition(stop: Stop, lat: int, lng: int)
    ensures Dist(stop, lat, lng) >= 0
    ensures Dist(stop, lat, lng) == 0 <==> stop.lat == lat && stop.lng == lng
  {
  }

  /** The `distances` array the source fills, as a sequence. */
  function Scores(stops: seq<Stop>, lat: int, lng: int): seq<int> {
    seq(|stops|, i requires 0 <= i < |stops| => Dist(stops[i], lat, lng))
  }

  /** `k` holds the minimum of `d`, and no earlier index holds it. */
  predicate IsFirstMin(d: seq<int>, k: int) {
    0 <= k < |d| &&
    (forall j :: 0 <= j < |d| ==> d[k] <= d[j]) &&
    (forall j :: 0 <= j < k ==> d[j] > d[k])
  }

  /** Reference definition of the selection: a left-to-right running minimum
      that moves only on a strictly smaller score. */
  function FirstMinIndex(d: seq<int>): (k: nat)
    requires d != []
    ensures k < |d|
    decreases |d|
  {
    if |d| == 1 then 0
    else
      var k := FirstMinIndex(d[..|d| - 1]);
      if d[|d| - 1] < d[k] then |d| - 1 else k
  }

  lemma {:induction false} FirstMinIndexIsFirstMin(d: seq<int>)
    requires d != []
    ensures IsFirstMin(d, FirstMinIndex(d))
  {
    if |d| > 1 {
      var prefix := d[..|d| - 1];
      FirstMinIndexIsFirstMin(prefix);
      assert forall j :: 0 <= j < |prefix| ==> prefix[j] == d[j];
    }
  }

  /** There is only one first minimum, and it is the reference's. */
  lemma FirstMinUnique(d: seq<int>, k: int)
    requires IsFirstMin(d, k)
    ensures k == FirstMinIndex(d)
  {
    FirstMinIndexIsFirstMin(d);
  }

  function NearestIndex(stops: seq<Stop>, lat: int, lng: int): (k: nat)
    requires stops != []
    ensures k < |stops|
  {
    FirstMinIndex(Scores(stops, lat, lng))
  }

  /** The selected stop is no farther than any other, and every stop before
      it is strictly farther; and this describes only the selected stop. */
  lemma NearestIndexIsNearest(stops: seq<Stop>, lat: int, lng: int, k: int)
    requires stops != []
    ensures k == NearestIndex(stops, lat, lng) <==>
      0 <= k < |stops| &&
      (forall j :: 0 <= j < |stops| ==> Dist(stops[k], lat, lng) <= Dist(stops[j], lat, lng)) &&
      (forall j :: 0 <= j < k ==> Dist(stops[j], lat, lng) > Dist(stops[k], lat, lng))
  {
    var d := Scores(stops, lat, lng);
    FirstMinIndexIsFirstMin(d);
    assert forall j :: 0 <= j < |stops| ==> d[j] == Dist(stops[j], lat, lng);
    if 0 <= k < |stops| &&
       (forall j :: 0 <= j < |stops| ==> Dist(stops[k], lat, lng) <= Dist(stops[j], lat, lng)) &&
       (forall j :: 0 <= j < k ==> Dist(stops[j], lat, lng) > Dist(stops[k], lat, lng))
    {
      assert IsFirstMin(d, k);
      FirstMinUnique(d, k);
    }
  }

  /** `distances.indexOf(Math.min(...distances))`: -1 for an empty array
      (the minimum of nothing is +Infinity, which `indexOf` does not find),
      otherwise the first index of the minimum. */
  method IndexOfMin(distances: array<int>) returns (minIndex: int)
    ensures distances.Length == 0 <==> minIndex == -1
    ensures distances.Length > 0 ==> IsFirstMin(distances[..], minIndex)
  {
    var n := distances.Length;
    if n == 0 {
      return -1;
    }
    // Math.min
    var min := distances[0];
    for i := 1 to n
      invariant min in distances[..i]
      invariant forall j :: 0 <= j < i ==> min <= distances[j]
    {
      if distances[i] < min {
        min := distances[i];
      }
    }
    // indexOf
    minIndex := 0;
    while distances[minIndex] != min
      invariant 0 <= minIndex < n
      invariant min in distances[minIndex..]
      invariant forall j :: 0 <= j < minIndex ==> distances[j] != min
      decreases n - minIndex
    {
      minIndex := minIndex + 1;
    }
  }

  /** The `distances` loop of `getClosestStopId`, then the selection: -1 for
      an empty list, otherwise the first index of the smallest score. */
  method ClosestStopIndex(stopObj: seq<Stop>, lat: int, lng: int) returns (minStopIndex: int)
    ensures stopObj == [] <==> minStopIndex == -1
    ensures stopObj != [] ==> IsFirstMin(Scores(stopObj, lat, lng), minStopIndex)
    ensures stopObj != [] ==> minStopIndex == NearestIndex(stopObj, lat, lng)
  {
    var stopObjLen := |stopObj|;
    var distances := new int[stopObjLen];
    for i := 0 to stopObjLen
      invariant forall j :: 0 <= j < i ==> distances[j] == Dist(stopObj[j], lat, lng)
    {
      distances[i] := Dist(stopObj[i], lat, lng);
    }
    assert distances[..] == Scores(stopObj, lat, lng);
    minStopIndex := IndexOfMin(distances);
    if stopObjLen > 0 {
      FirstMinUnique(distances[..], minStopIndex);
    }
  }

  /** The stop-list lookup as a function of the fetched body: the callback
      gets `null` when there is no body, the code throws on a body that is
      not JSON (src/Septa.js:40) or on an empty list (:54), and otherwise the
      callback gets the nearest stop's id. */
  function StopLookup(resp: StopsBody, lat: int, lng: int): (outcome: LookupOutcome)
    ensures outcome == Callback(None) <==> resp == NoBody
    ensures outcome == Thrown <==> resp == Malformed || resp == StopList([])
    ensures outcome.Callback? && outcome.stopId.Some? ==>
      resp.StopList? && resp.stops != [] &&
      outcome.stopId.value == resp.stops[NearestIndex(resp.stops, lat, lng)].stopid
  {
    match resp
    case NoBody => Callback(None)
    case Malformed => Thrown
    case StopList(stops) =>
      if stops == [] then Thrown else Callback(Some(stops[NearestIndex(stops, lat, lng)].stopid))
  }

  /** A stop list of one stop yields that stop whatever its distance. */
  lemma SingleStopChosen(stop: Stop, lat: int, lng: int)
    ensures StopLookup(StopList([stop]), lat, lng) == Callback(Some(stop.stopid))
  {
  }

  /** `getClosestStopId`: fetch the route's stop list through `stopsFeed`
      (host and path in, the body as `StopsBody` out), then select. */
  method GetClosestStopId(routeNumber: string, lat: int, lng: int,
                          stopsFeed: (string, string) -> StopsBody)
    returns (outcome: LookupOutcome)
    ensures outcome == StopLookup(stopsFeed(BaseUrl, StopsPath(routeNumber)), lat, lng)
    ensures outcome.Callback? && outcome.stopId.Some? ==>
      var stops := stopsFeed(BaseUrl, StopsPath(routeNumber)).stops;
      exists k :: 0 <= k < |stops| && IsFirstMin(Scores(stops, lat, lng), k) && outcome.stopId.value == stops[k].stopid
  {
    var reqUrl := StopsPath(routeNumber);
    var resp := stopsFeed(BaseUrl, reqUrl);
    if resp.NoBody? {
      return Callback(None);
    }
    if resp.Malformed? {
      return Thrown;  // JSON.parse throws
    }
    var stopObj := resp.stops;
    var minStopIndex := ClosestStopIndex(stopObj, lat, lng);
    if minStopIndex < 0 {
      return Thrown;
    }
    outcome := Callback(Some(stopObj[minStopIndex].stopid));
  }
}
