/**
 * The HTTP facade: the decision logic of the `/next-metro` handler, the `/health`
 * route and the catch-all 404. The wall clock that the handler reads is an input.
 */
module Server {
  import opened Optional
  import opened Json
  import opened Clock
  import opened Arrival

  /** The line identifier every open reply carries. */
  const Line := "M1"

  /** The headway the handler passes to the calculator, in minutes. */
  const HeadwayMin := 3

  /** A status code and a JSON body. */
  datatype Response = Response(status: nat, body: Object)

  /** An incoming request: its method, its path and its `station` query value, if any. */
  datatype Request = Request(verb: string, path: string, station: Option<string>)

  /** JavaScript truthiness of the `station` query value: present and not empty. */
  predicate Truthy(station: Option<string>)
  {
    station.Some? && station.value != ""
  }

  const MissingStation: Response := Response(400, [("error", Str("missing station"))])
  const NotFound: Response := Response(404, [("error", Str("not found"))])
  const Healthy: Response := Response(200, [("status", Str("ok"))])

  /**
   * The `/next-metro` handler, given the calculator's result for the current time:
   * 400 when `station` is falsy, otherwise 200 with the station echoed first and
   * the closed or the open reply after it.
   */
  function NextMetro(station: Option<string>, result: ArrivalResult): (r: Response)
    ensures r.status == 400 <==> !Truthy(station)
    ensures !Truthy(station) ==> r.body == [("error", Str("missing station"))]
    ensures Truthy(station) ==> r.status == 200 && Lookup(r.body, "station") == Some(Str(station.value))
    ensures Truthy(station) && result.Closed? ==>
      r.body == [("station", Str(station.value)), ("service", Str("closed")), ("tz", Str(TZ))]
    ensures Truthy(station) && result.Open? ==>
      r.body == [("station", Str(station.value)), ("line", Str(Line))] + ToObject(result)
  {
    if !Truthy(station) then MissingStation
    else
      var s := station.value;
      match result
      case Closed(_) => Response(200, [("station", Str(s)), ("service", Str("closed")), ("tz", Str(TZ))])
      case Open(headwayMin, nextArrival, isLast, tz) =>
        Response(200, [("station", Str(s)), ("line", Str(Line)), ("headwayMin", Int(headwayMin)),
                       ("nextArrival", Str(nextArrival)), ("isLast", Bool(isLast)), ("tz", Str(tz))])
  }

  /**
   * Dispatch of one request at local time of day `now`. None stands for the two
   * documentation endpoints (`/docs` and `/api-docs.json`), whose replies are not modelled.
   */
  function Route(req: Request, now: TimeOfDay): (r: Option<Response>)
    ensures r.None? <==> IsDocsPath(req.path) || (req.verb == "GET" && req.path == "/api-docs.json")
    ensures r.Some? && r.value.status == 404 <==>
      !IsDocsPath(req.path) && (req.verb != "GET" || req.path !in {"/api-docs.json", "/health", "/next-metro"})
    ensures r.Some? && r.value.status == 404 ==> r.value.body == [("error", Str("not found"))]
    ensures req.verb == "GET" && req.path == "/health" ==> r == Some(Response(200, [("status", Str("ok"))]))
    ensures req.verb == "GET" && req.path == "/next-metro" ==>
      r == Some(NextMetro(req.station, NextArrival(now, HeadwayMin)))
  {
    NotDocs("/health");
    NotDocs("/next-metro");
    if IsDocsPath(req.path) then None
    else if req.verb == "GET" && req.path == "/api-docs.json" then None
    else if req.verb == "GET" && req.path == "/health" then Some(Healthy)
    else if req.verb == "GET" && req.path == "/next-metro" then
      Some(NextMetro(req.station, NextArrival(now, HeadwayMin)))
    else Some(NotFound)
  }

  /** Paths the documentation middleware mounted at `/docs` serves. */
  predicate IsDocsPath(path: string)
  {
    path == "/docs" || (|path| >= 6 && path[..6] == "/docs/")
  }

  /** A path whose second character is not 'd' is not under `/docs`. */
  lemma NotDocs(path: string)
    requires |path| > 6 && path[1] != 'd'
    ensures !IsDocsPath(path)
  {
    assert path[..6][1] == path[1];
  }

  /** A falsy station is rejected before the calculator's result is looked at. */
  lemma MissingStationIgnoresCalculator(station: Option<string>, r1: ArrivalResult, r2: ArrivalResult)
    requires !Truthy(station)
    ensures NextMetro(station, r1) == NextMetro(station, r2) == MissingStation
  {
  }

  /**
   * With the documented window, the open reply is the station, the line "M1", the
   * headway 3, an "HH:MM" three minutes after the current minute, the last-train
   * flag of the current moment and the time-zone label, in that order.
   */
  lemma OpenReply(station: string, now: TimeOfDay)
    requires station != "" && InService(now)
    ensures var r := NextMetro(Some(station), IntendedNextArrival(now, HeadwayMin));
      && r.status == 200
      && |r.body| == 6
      && r.body[..3] == [("station", Str(station)), ("line", Str("M1")), ("headwayMin", Int(3))]
      && r.body[3].0 == "nextArrival" && r.body[3].1.Str?
      && ParseHM(r.body[3].1.s) == Some((MinuteOfDay(now) + 3) % MinutesPerDay)
      && r.body[4..] == [("isLast", Bool(InLastWindow(now))), ("tz", Str(TZ))]
  {
    var result := IntendedNextArrival(now, HeadwayMin);
    assert result.Open?;
    var r := NextMetro(Some(station), result);
    assert r.body == [("station", Str(station)), ("line", Str(Line))] + ToObject(result);
  }

  /** With the calculator as written, every valid `/next-metro` request gets the closed reply. */
  lemma AsWrittenAlwaysClosedReply(station: string, now: TimeOfDay)
    requires station != ""
    ensures Route(Request("GET", "/next-metro", Some(station)), now)
      == Some(Response(200, [("station", Str(station)), ("service", Str("closed")), ("tz", Str(TZ))]))
  {
    NeverOpen(now, HeadwayMin);
    NotDocs("/next-metro");
  }

  /** `/health` answers 200 `{status: "ok"}` at every time, whatever the query. */
  lemma HealthAlwaysOk(station: Option<string>, now: TimeOfDay)
    ensures Route(Request("GET", "/health", station), now) == Some(Response(200, [("status", Str("ok"))]))
  {
    NotDocs("/health");
  }

  /** Any other request gets 404 `{error: "not found"}`, e.g. GET `/unknown-path`. */
  lemma UnknownPathNotFound(station: Option<string>, now: TimeOfDay)
    ensures Route(Request("GET", "/unknown-path", station), now) == Some(Response(404, [("error", Str("not found"))]))
  {
    NotDocs("/unknown-path");
  }

  /** GET `/next-metro` without a station, or with an empty one, is answered 400 at every time. */
  lemma MissingStationRoute(station: Option<string>, now: TimeOfDay)
    requires !Truthy(station)
    ensures Route(Request("GET", "/next-metro", station), now) == Some(Response(400, [("error", Str("missing station"))]))
  {
    NotDocs("/next-metro");
  }
}
