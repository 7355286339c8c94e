/** The request paths src/Septa.js builds by string concatenation. Because
    `BasePath` already ends in a slash, both paths hold "//" after it. */
module RequestPaths {
  import opened Wrappers
  import opened Config
  import opened JsText

  /** Path of the stop list of a route. */
  function StopsPath(routeNumber: string): string {
    BasePath + "/Stops/" + routeNumber
  }

  /** Path of the schedule of a stop on a route in a direction, asking for
      `ResultQty` departures. */
  function SchedulePath(stopId: string, routeNumber: string, dir: string): string {
    BasePath + "/BusSchedules/?req1=" + stopId + "&req2=" + routeNumber +
      "&req3=" + dir + "&req6=" + NumberToString(ResultQty)
  }

  /** What concatenating the stop id callback's argument gives: "null" when
      no stop was found. */
  function IdText(stopId: Option<string>): string {
    match stopId
    case None => "null"
    case Some(id) => id
  }

  lemma ResultQtyText()
    ensures NumberToString(ResultQty) == "9"
  {
    assert DigitChar(9) == '9';
  }

  lemma StopsPathExample()
    ensures StopsPath("34") == "/hackathon//Stops/34"
  {
  }

  lemma SchedulePathExample()
    ensures SchedulePath("B", "34", "i") == "/hackathon//BusSchedules/?req1=B&req2=34&req3=i&req6=9"
  {
    ResultQtyText();
  }

  /** Without a stop the schedule is still requested, for stop "null". */
  lemma SchedulePathWithoutStop()
    ensures SchedulePath(IdText(None), "34", "i") == "/hackathon//BusSchedules/?req1=null&req2=34&req3=i&req6=9"
  {
    ResultQtyText();
    var upToStop := "/hackathon/" + "/BusSchedules/?req1=" + "null";
    assert upToStop == "/hackathon//BusSchedules/?req1=null";
    assert upToStop + "&req2=" + "34" == "/hackathon//BusSchedules/?req1=null&req2=34";
  }

  /** Different routes ask for different stop lists. */
  lemma StopsPathInjective(a: string, b: string)
    requires StopsPath(a) == StopsPath(b)
    ensures a == b
  {
    var n := |BasePath + "/Stops/"|;
    assert a == StopsPath(a)[n..];
    assert b == StopsPath(b)[n..];
  }

  lemma StripPrefix(p: string, a: string, b: string)
    requires p + a == p + b
    ensures a == b
  {
    assert a == (p + a)[|p|..];
    assert b == (p + b)[|p|..];
  }

  /** The text of `w` up to its first '&'. */
  function BeforeAmpersand(w: string): string {
    if w == [] || w[0] == '&' then [] else [w[0]] + BeforeAmpersand(w[1..])
  }

  lemma {:induction false} BeforeAmpersandOf(x: string, u: string)
    requires '&' !in x
    ensures BeforeAmpersand(x + "&" + u) == x
  {
    if x != [] {
      assert (x + "&" + u)[1..] == x[1..] + "&" + u;
      BeforeAmpersandOf(x[1..], u);
    }
  }

  /** Two texts free of '&' followed by '&' split the same way. */
  lemma SplitAtAmpersand(x: string, u: string, y: string, v: string)
    requires '&' !in x && '&' !in y
    requires x + "&" + u == y + "&" + v
    ensures x == y && u == v
  {
    BeforeAmpersandOf(x, u);
    BeforeAmpersandOf(y, v);
    StripPrefix(x + "&", u, v);
  }

  /** When no field holds '&', the schedule path determines the stop, the
      route and the direction it asks for. */
  lemma SchedulePathInjective(id1: string, route1: string, dir1: string,
                              id2: string, route2: string, dir2: string)
    requires '&' !in id1 && '&' !in route1 && '&' !in dir1
    requires '&' !in id2 && '&' !in route2 && '&' !in dir2
    requires SchedulePath(id1, route1, dir1) == SchedulePath(id2, route2, dir2)
    ensures id1 == id2 && route1 == route2 && dir1 == dir2
  {
    var qty := "req6=" + NumberToString(ResultQty);
    var prefix := BasePath + "/BusSchedules/?req1=";
    SchedulePathFields(id1, route1, dir1);
    SchedulePathFields(id2, route2, dir2);
    var rest1, rest2 := "req3=" + (dir1 + "&" + qty), "req3=" + (dir2 + "&" + qty);
    var tail1, tail2 := "req2=" + (route1 + "&" + rest1), "req2=" + (route2 + "&" + rest2);
    StripPrefix(prefix, id1 + "&" + tail1, id2 + "&" + tail2);
    SplitAtAmpersand(id1, tail1, id2, tail2);
    StripPrefix("req2=", route1 + "&" + rest1, route2 + "&" + rest2);
    SplitAtAmpersand(route1, rest1, route2, rest2);
    StripPrefix("req3=", dir1 + "&" + qty, dir2 + "&" + qty);
    SplitAtAmpersand(dir1, qty, dir2, qty);
  }

  /** The schedule path regrouped around the '&' separators. */
  lemma SchedulePathFields(id: string, route: string, dir: string)
    ensures SchedulePath(id, route, dir) ==
      (BasePath + "/BusSchedules/?req1=") + (id + "&" + ("req2=" + (route + "&" + ("req3=" + (dir + "&" + ("req6=" + NumberToString(ResultQty)))))))
  {
  }
}
