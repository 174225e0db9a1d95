/**
 * The client: each public operation fetches one page of the site, scrapes it,
 * and for live bus positions posts a form back to the site and converts the
 * JSON reply. The site is abstract: what a request returns may depend on the
 * whole history of requests made before it (which is how a cookie store and
 * the server's own state look from outside). The HTML parser and the JSON
 * decoders are foreign libraries, taken as function values.
 */
module Client {
  import opened Wrappers
  import opened Text
  import opened Numbers
  import opened Model
  import opened Patterns
  import opened Html

  const SiteRoot: string := "https://ulasim.sivas.bel.tr"

  /** The pause after every successful request, in milliseconds. */
  const PauseMillis: nat := 200

  /** What the client does to the outside world, in order. */
  datatype Event =
    | Get(url: string)
    | Post(url: string, form: seq<(string, string)>)
    | Pause(millis: nat)

  /** The server: the reply to a request, given every event before it. */
  datatype Site = Site(
    get: (seq<Event>, string) -> Result<string, RequestError>,
    post: (seq<Event>, string, seq<(string, string)>) -> Result<string, RequestError>)

  /** `Html::parse_document` and the `serde_json` decoders of the three reply shapes. */
  datatype Libraries = Libraries(
    parseHtml: string -> seq<Element>,
    decodeStations: string -> Result<seq<StationDto>, JsonError>,
    decodeLineBuses: string -> Result<seq<LineBusDto>, JsonError>,
    decodeStationBuses: string -> Result<seq<StationBusDto>, JsonError>)

  /** The result of an operation and the events it caused. */
  datatype Outcome<T> = Outcome(result: Result<T, Error>, events: seq<Event>)

  predicate HasPost(events: seq<Event>) {
    exists i | 0 <= i < |events| :: events[i].Post?
  }

  predicate HasPause(events: seq<Event>) {
    exists i | 0 <= i < |events| :: events[i].Pause?
  }

  // ===========================================================================
  // Specification of the requests

  /**
   * `get_document`: one GET, then the pause if a body came back. The
   * `reqwest::Error` is turned into `Error::Request` by the `?` of every caller.
   */
  function Fetch(site: Site, history: seq<Event>, path: string): Outcome<string> {
    var url := SiteRoot + path;
    match site.get(history, url)
    case Err(e) => Outcome(Err(Request(e)), [Get(url)])
    case Ok(body) => Outcome(Ok(body), [Get(url), Pause(PauseMillis)])
  }

  /**
   * `post_json`: one form POST whose reply is decoded by the client itself, so
   * that a reply that does not decode is a request error too.
   */
  function Submit<T>(site: Site, history: seq<Event>, path: string, form: seq<(string, string)>,
                     decode: string -> Result<T, JsonError>): Outcome<T> {
    var url := SiteRoot + path;
    var events := [Post(url, form)];
    match site.post(history, url, form)
    case Err(e) => Outcome(Err(Request(e)), events)
    case Ok(body) =>
      match decode(body)
      case Err(j) => Outcome(Err(Request(Decode(j))), events)
      case Ok(v) => Outcome(Ok(v), events + [Pause(PauseMillis)])
  }

  /** A request pauses exactly when it succeeds, and the pause comes last. */
  lemma FetchPauses(site: Site, history: seq<Event>, path: string)
    ensures var o := Fetch(site, history, path);
      o.events[0] == Get(SiteRoot + path) && !HasPost(o.events)
      && |o.events| == (if o.result.Ok? then 2 else 1)
      && (forall i | 1 <= i < |o.events| :: o.events[i] == Pause(PauseMillis))
      && (o.result.Ok? <==> HasPause(o.events))
      && (o.result.Err? ==> o.result.error.Request?)
  {
    var o := Fetch(site, history, path);
    if o.result.Ok? {
      assert o.events[1].Pause?;
    }
  }

  lemma SubmitPauses<T>(site: Site, history: seq<Event>, path: string, form: seq<(string, string)>,
                        decode: string -> Result<T, JsonError>)
    ensures var o := Submit(site, history, path, form, decode);
      o.events[0] == Post(SiteRoot + path, form) && !HasPost(o.events[1..])
      && |o.events| == (if o.result.Ok? then 2 else 1)
      && (forall i | 1 <= i < |o.events| :: o.events[i] == Pause(PauseMillis))
      && (o.result.Ok? <==> HasPause(o.events))
      && (o.result.Err? ==> o.result.error.Request?)
  {
    var o := Submit(site, history, path, form, decode);
    if o.result.Ok? {
      assert o.events[1].Pause?;
    }
  }

  // ===========================================================================
  // `extract_stations`

  /** The stations of a page: the `duraks` array, decoded, every entry converted. */
  function StationsIn(doc: string, decode: string -> Result<seq<StationDto>, JsonError>): Result<seq<Station>, Error> {
    match ExtractStationJson(doc)
    case None => Err(NoStations)
    case Some(json) =>
      match decode(json)
      case Err(e) => Err(Json(e))
      case Ok(dtos) =>
        match TryCollect(dtos, StationFrom)
        case Err(e) => Err(Error.StationError(e))
        case Ok(stations) => Ok(stations)
  }

  method ExtractStations(doc: string, decode: string -> Result<seq<StationDto>, JsonError>)
    returns (r: Result<seq<Station>, Error>)
    ensures r == StationsIn(doc, decode)
  {
    var json := ExtractStationJson(doc);
    if json.None? {
      return Err(NoStations);
    }
    var dtos := decode(json.value);
    if dtos.Err? {
      return Err(Json(dtos.error));
    }
    var stations := Collect(dtos.value, StationFrom);
    match stations
    case Err(e) => r := Err(Error.StationError(e));
    case Ok(s) => r := Ok(s);
  }

  /** Without the `duraks` array the error is `NoStations`, whatever the decoder would do. */
  lemma StationsInMissing(doc: string, decode: string -> Result<seq<StationDto>, JsonError>)
    ensures StationsIn(doc, decode) == Err(NoStations) <==> ExtractStationJson(doc).None?
  {
  }

  /**
   * A page yields stations exactly when it holds the array, the array decodes
   * and every entry converts; the stations are then the entries converted, in
   * order.
   */
  lemma StationsInOk(doc: string, decode: string -> Result<seq<StationDto>, JsonError>, json: string, dtos: seq<StationDto>)
    requires ExtractStationJson(doc) == Some(json) && decode(json) == Ok(dtos)
    ensures StationsIn(doc, decode).Ok? <==> forall i | 0 <= i < |dtos| :: StationFrom(dtos[i]).Ok?
    ensures StationsIn(doc, decode).Ok? ==>
      |StationsIn(doc, decode).value| == |dtos|
      && forall i | 0 <= i < |dtos| :: StationsIn(doc, decode).value[i] == StationFrom(dtos[i]).value
  {
    TryCollectOk(dtos, StationFrom);
  }

  /** A failing entry is reported as the first one that fails, and no stations are returned. */
  lemma StationsInFirstFailure(doc: string, decode: string -> Result<seq<StationDto>, JsonError>,
                               json: string, dtos: seq<StationDto>, i: nat)
    requires ExtractStationJson(doc) == Some(json) && decode(json) == Ok(dtos)
    requires i < |dtos| && StationFrom(dtos[i]).Err?
    requires forall j | 0 <= j < i :: StationFrom(dtos[j]).Ok?
    ensures StationsIn(doc, decode) == Err(Error.StationError(StationFrom(dtos[i]).error))
  {
    TryCollectErr(dtos, StationFrom, i);
  }

  /** An array that does not decode is a JSON error. */
  lemma StationsInUndecodable(doc: string, decode: string -> Result<seq<StationDto>, JsonError>, json: string)
    requires ExtractStationJson(doc) == Some(json) && decode(json).Err?
    ensures StationsIn(doc, decode) == Err(Json(decode(json).error))
  {
  }

  // ===========================================================================
  // The operations

  function LinesOutcome(site: Site, lib: Libraries, history: seq<Event>): Outcome<seq<Line>> {
    var f := Fetch(site, history, "/");
    match f.result
    case Err(e) => Outcome(Err(e), f.events)
    case Ok(doc) => Outcome(Ok(ExtractLines(lib.parseHtml(doc))), f.events)
  }

  function StationsOutcome(site: Site, lib: Libraries, history: seq<Event>, path: string): Outcome<seq<Station>> {
    var f := Fetch(site, history, path);
    match f.result
    case Err(e) => Outcome(Err(e), f.events)
    case Ok(doc) => Outcome(StationsIn(doc, lib.decodeStations), f.events)
  }

  const AllStationsPath: string := "/Akilli-Duraklar-Harita"

  function LinePath(line: string): string { "/hat/" + line }

  function StationPath(station: i32): string { "/Akilli-Durak/" + DecimalText(station) }

  function LineBusesForm(id: string, token: string): seq<(string, string)> {
    [("hgID", id), ("__RequestVerificationToken", token)]
  }

  function StationBusesForm(station: i32, token: string): seq<(string, string)> {
    [("drkID", DecimalText(station)), ("__RequestVerificationToken", token)]
  }

  function LineBusesOutcome(site: Site, lib: Libraries, history: seq<Event>, line: string): Outcome<seq<LineBus>> {
    var f := Fetch(site, history, LinePath(line));
    match f.result
    case Err(e) => Outcome(Err(e), f.events)
    case Ok(doc) =>
      match ExtractToken(lib.parseHtml(doc))
      case None => Outcome(Err(NoToken), f.events)
      case Some(token) =>
        match ExtractLineId(doc)
        case None => Outcome(Err(NoLineId), f.events)
        case Some(id) =>
          var p := Submit(site, history + f.events, "/aractekrar", LineBusesForm(id, token), lib.decodeLineBuses);
          match p.result
          case Err(e) => Outcome(Err(e), f.events + p.events)
          case Ok(dtos) =>
            match TryCollect(dtos, LineBusFrom)
            case Err(e) => Outcome(Err(Error.LineBusError(e)), f.events + p.events)
            case Ok(buses) => Outcome(Ok(buses), f.events + p.events)
  }

  function StationBusesOutcome(site: Site, lib: Libraries, history: seq<Event>, station: i32): Outcome<seq<StationBus>> {
    var f := Fetch(site, history, StationPath(station));
    match f.result
    case Err(e) => Outcome(Err(e), f.events)
    case Ok(doc) =>
      match ExtractToken(lib.parseHtml(doc))
      case None => Outcome(Err(NoToken), f.events)
      case Some(token) =>
        var p := Submit(site, history + f.events, "/durakTekrar", StationBusesForm(station, token), lib.decodeStationBuses);
        match p.result
        case Err(e) => Outcome(Err(e), f.events + p.events)
        case Ok(dtos) =>
          Outcome(Ok(seq(|dtos|, i requires 0 <= i < |dtos| => StationBusFrom(dtos[i]))), f.events + p.events)
  }

  // ===========================================================================
  // What the operations promise

  /** The line list costs one GET and never posts; it fails only when the request does. */
  lemma LinesOutcomeCorrect(site: Site, lib: Libraries, history: seq<Event>)
    ensures var o := LinesOutcome(site, lib, history);
      var f := Fetch(site, history, "/");
      o.events == f.events && !HasPost(o.events)
      && (o.result.Ok? <==> f.result.Ok?)
      && (o.result.Ok? ==> o.result.value == ExtractLines(lib.parseHtml(f.result.value)))
      && (o.result.Err? ==> o.result.error.Request?)
  {
    FetchPauses(site, history, "/");
  }

  /**
   * The station lists cost one GET and never post; the stations are those of
   * the page, and the error is the request's or the page's.
   */
  lemma StationsOutcomeCorrect(site: Site, lib: Libraries, history: seq<Event>, path: string)
    ensures var o := StationsOutcome(site, lib, history, path);
      var f := Fetch(site, history, path);
      o.events == f.events && !HasPost(o.events)
      && (f.result.Err? ==> o.result == Err(f.result.error))
      && (f.result.Ok? ==> o.result == StationsIn(f.result.value, lib.decodeStations))
      && (o.result.Err? ==> o.result.error.Request? || o.result.error.NoStations?
                            || o.result.error.Json? || o.result.error.StationError?)
  {
    FetchPauses(site, history, path);
  }

  /**
   * Live positions of a line: the form is posted exactly when the page gave
   * both the verification token and the line id, it is the only POST, it comes
   * right after the GET and its pause, and it carries that id and that token.
   */
  lemma LineBusesPostOnlyWithTokenAndId(site: Site, lib: Libraries, history: seq<Event>, line: string)
    ensures var o := LineBusesOutcome(site, lib, history, line);
      var f := Fetch(site, history, LinePath(line));
      o.events[0] == Get(SiteRoot + LinePath(line))
      && (HasPost(o.events) <==>
            f.result.Ok? && ExtractToken(lib.parseHtml(f.result.value)).Some?
            && ExtractLineId(f.result.value).Some?)
      && (HasPost(o.events) ==>
            |o.events| >= 3 && o.events[..2] == f.events
            && o.events[2] == Post(SiteRoot + "/aractekrar",
                 LineBusesForm(ExtractLineId(f.result.value).value,
                               ExtractToken(lib.parseHtml(f.result.value)).value))
            && forall i | 3 <= i < |o.events| :: !o.events[i].Post?)
  {
    var o := LineBusesOutcome(site, lib, history, line);
    var f := Fetch(site, history, LinePath(line));
    FetchPauses(site, history, LinePath(line));
    if f.result.Ok? {
      var doc := f.result.value;
      var token := ExtractToken(lib.parseHtml(doc));
      var id := ExtractLineId(doc);
      if token.Some? && id.Some? {
        var form := LineBusesForm(id.value, token.value);
        var p := Submit(site, history + f.events, "/aractekrar", form, lib.decodeLineBuses);
        SubmitPauses(site, history + f.events, "/aractekrar", form, lib.decodeLineBuses);
        assert o.events == f.events + p.events;
        assert o.events[2].Post?;
      }
    }
  }

  /**
   * The missing token is reported before the missing line id is looked for,
   * and neither leads to a POST.
   */
  lemma LineBusesErrorOrder(site: Site, lib: Libraries, history: seq<Event>, line: string)
    ensures var o := LineBusesOutcome(site, lib, history, line);
      var f := Fetch(site, history, LinePath(line));
      (f.result.Err? ==> o.result == Err(f.result.error))
      && (f.result.Ok? && ExtractToken(lib.parseHtml(f.result.value)).None? ==>
            o.result == Err(NoToken) && o.events == f.events)
      && (f.result.Ok? && ExtractToken(lib.parseHtml(f.result.value)).Some?
          && ExtractLineId(f.result.value).None? ==>
            o.result == Err(NoLineId) && o.events == f.events)
  {
  }

  /**
   * Live positions of a line that come back converted have cost exactly a GET,
   * its pause, the POST and its pause; so has a failed conversion.
   */
  lemma LineBusesEvents(site: Site, lib: Libraries, history: seq<Event>, line: string)
    ensures var o := LineBusesOutcome(site, lib, history, line);
      o.result.Ok? || o.result.error.LineBusError? ==>
        var f := Fetch(site, history, LinePath(line));
        var doc := f.result.value;
        o.events == [Get(SiteRoot + LinePath(line)), Pause(PauseMillis),
                     Post(SiteRoot + "/aractekrar",
                          LineBusesForm(ExtractLineId(doc).value, ExtractToken(lib.parseHtml(doc)).value)),
                     Pause(PauseMillis)]
  {
    var o := LineBusesOutcome(site, lib, history, line);
    var f := Fetch(site, history, LinePath(line));
    if f.result.Ok? {
      var doc := f.result.value;
      var token := ExtractToken(lib.parseHtml(doc));
      var id := ExtractLineId(doc);
      if token.Some? && id.Some? {
        var form := LineBusesForm(id.value, token.value);
        var p := Submit(site, history + f.events, "/aractekrar", form, lib.decodeLineBuses);
        assert o.events == f.events + p.events;
        if p.result.Ok? {
          assert p.events == [Post(SiteRoot + "/aractekrar", form), Pause(PauseMillis)];
        }
      }
    }
  }

  /**
   * Live positions of a line succeed exactly when the page and the POST
   * succeed and every decoded position converts; the buses are then those
   * positions converted, in order.
   */
  lemma LineBusesResult(site: Site, lib: Libraries, history: seq<Event>, line: string)
    ensures var o := LineBusesOutcome(site, lib, history, line);
      o.result.Ok? ==>
        var f := Fetch(site, history, LinePath(line));
        var doc := f.result.value;
        var form := LineBusesForm(ExtractLineId(doc).value, ExtractToken(lib.parseHtml(doc)).value);
        var p := Submit(site, history + f.events, "/aractekrar", form, lib.decodeLineBuses);
        f.result.Ok? && p.result.Ok?
        && |o.result.value| == |p.result.value|
        && forall i | 0 <= i < |p.result.value| ::
             LineBusFrom(p.result.value[i]) == Ok(o.result.value[i])
  {
    var o := LineBusesOutcome(site, lib, history, line);
    var f := Fetch(site, history, LinePath(line));
    if f.result.Ok? {
      var doc := f.result.value;
      var token := ExtractToken(lib.parseHtml(doc));
      var id := ExtractLineId(doc);
      if token.Some? && id.Some? {
        var form := LineBusesForm(id.value, token.value);
        var p := Submit(site, history + f.events, "/aractekrar", form, lib.decodeLineBuses);
        if p.result.Ok? {
          var dtos := p.result.value;
          TryCollectOk(dtos, LineBusFrom);
          if TryCollect(dtos, LineBusFrom).Ok? {
            assert o.result == Ok(TryCollect(dtos, LineBusFrom).value);
          }
        }
      }
    }
  }

  /**
   * Once the page, its token and line id, and the POST have all come back,
   * the call succeeds exactly when every decoded position converts, and the
   * buses are then those positions converted, in order.
   */
  lemma LineBusesOk(site: Site, lib: Libraries, history: seq<Event>, line: string,
                    doc: string, token: string, id: string, dtos: seq<LineBusDto>)
    requires Fetch(site, history, LinePath(line)).result == Ok(doc)
    requires ExtractToken(lib.parseHtml(doc)) == Some(token) && ExtractLineId(doc) == Some(id)
    requires Submit(site, history + Fetch(site, history, LinePath(line)).events, "/aractekrar",
                    LineBusesForm(id, token), lib.decodeLineBuses).result == Ok(dtos)
    ensures var o := LineBusesOutcome(site, lib, history, line);
      (o.result.Ok? <==> forall i | 0 <= i < |dtos| :: LineBusFrom(dtos[i]).Ok?)
      && (o.result.Ok? ==>
            |o.result.value| == |dtos|
            && forall i | 0 <= i < |dtos| :: o.result.value[i] == LineBusFrom(dtos[i]).value)
  {
    TryCollectOk(dtos, LineBusFrom);
  }

  /** A position that does not convert is reported as the first one that fails. */
  lemma LineBusesFirstFailure(site: Site, lib: Libraries, history: seq<Event>, line: string,
                              doc: string, token: string, id: string, dtos: seq<LineBusDto>, i: nat)
    requires Fetch(site, history, LinePath(line)).result == Ok(doc)
    requires ExtractToken(lib.parseHtml(doc)) == Some(token) && ExtractLineId(doc) == Some(id)
    requires Submit(site, history + Fetch(site, history, LinePath(line)).events, "/aractekrar",
                    LineBusesForm(id, token), lib.decodeLineBuses).result == Ok(dtos)
    requires i < |dtos| && LineBusFrom(dtos[i]).Err?
    requires forall j | 0 <= j < i :: LineBusFrom(dtos[j]).Ok?
    ensures LineBusesOutcome(site, lib, history, line).result == Err(Error.LineBusError(LineBusFrom(dtos[i]).error))
  {
    TryCollectErr(dtos, LineBusFrom, i);
  }

  /**
   * Arrivals at a station: the form is posted exactly when the page gave the
   * token, it is the second request, and its station field is the decimal
   * text of the station, which the server reads back as the same `i32`.
   */
  lemma StationBusesPostOnlyWithToken(site: Site, lib: Libraries, history: seq<Event>, station: i32)
    ensures var o := StationBusesOutcome(site, lib, history, station);
      var f := Fetch(site, history, StationPath(station));
      o.events[0] == Get(SiteRoot + StationPath(station))
      && (HasPost(o.events) <==> f.result.Ok? && ExtractToken(lib.parseHtml(f.result.value)).Some?)
      && (f.result.Ok? && ExtractToken(lib.parseHtml(f.result.value)).None? ==> o.result == Err(NoToken))
      && (HasPost(o.events) ==>
            var form := StationBusesForm(station, ExtractToken(lib.parseHtml(f.result.value)).value);
            |o.events| >= 3 && o.events[..2] == f.events
            && o.events[2] == Post(SiteRoot + "/durakTekrar", form)
            && forall i | 3 <= i < |o.events| :: !o.events[i].Post?)
  {
    var o := StationBusesOutcome(site, lib, history, station);
    var f := Fetch(site, history, StationPath(station));
    FetchPauses(site, history, StationPath(station));
    if f.result.Ok? {
      var token := ExtractToken(lib.parseHtml(f.result.value));
      if token.Some? {
        var form := StationBusesForm(station, token.value);
        var p := Submit(site, history + f.events, "/durakTekrar", form, lib.decodeStationBuses);
        SubmitPauses(site, history + f.events, "/durakTekrar", form, lib.decodeStationBuses);
        assert o.events == f.events + p.events;
        assert o.events[2].Post?;
      }
    }
  }

  /** The station id sent in the form and in the page path reads back as the station. */
  lemma StationIdRoundTrip(station: i32, token: string)
    ensures StationBusesForm(station, token)[0].0 == "drkID"
    ensures ParseI32(StationBusesForm(station, token)[0].1) == Ok(station)
    ensures StationPath(station) == "/Akilli-Durak/" + StationBusesForm(station, token)[0].1
  {
    ParseDecimalText(station);
  }

  /**
   * Arrivals never fail once the reply decodes: one arrival per decoded entry,
   * in order.
   */
  lemma StationBusesResult(site: Site, lib: Libraries, history: seq<Event>, station: i32)
    ensures var o := StationBusesOutcome(site, lib, history, station);
      var f := Fetch(site, history, StationPath(station));
      o.result.Ok? <==>
        f.result.Ok? && ExtractToken(lib.parseHtml(f.result.value)).Some?
        && Submit(site, history + f.events, "/durakTekrar",
                  StationBusesForm(station, ExtractToken(lib.parseHtml(f.result.value)).value),
                  lib.decodeStationBuses).result.Ok?
    ensures var o := StationBusesOutcome(site, lib, history, station);
      o.result.Ok? ==>
        var f := Fetch(site, history, StationPath(station));
        var form := StationBusesForm(station, ExtractToken(lib.parseHtml(f.result.value)).value);
        var dtos := Submit(site, history + f.events, "/durakTekrar", form, lib.decodeStationBuses).result.value;
        |o.result.value| == |dtos|
        && forall i | 0 <= i < |dtos| ::
             o.result.value[i].licensePlate == Trim(dtos[i].licensePlate)
             && AsNanos(o.result.value[i].arriveTime) == dtos[i].arriveTimeSecs * 1_000_000_000
  {
    var o := StationBusesOutcome(site, lib, history, station);
    var f := Fetch(site, history, StationPath(station));
    if o.result.Ok? {
      var form := StationBusesForm(station, ExtractToken(lib.parseHtml(f.result.value)).value);
      var dtos := Submit(site, history + f.events, "/durakTekrar", form, lib.decodeStationBuses).result.value;
      forall i | 0 <= i < |dtos|
        ensures o.result.value[i].licensePlate == Trim(dtos[i].licensePlate)
        ensures AsNanos(o.result.value[i].arriveTime) == dtos[i].arriveTimeSecs * 1_000_000_000
      {
        StationBusConversion(dtos[i]);
      }
    }
  }

  // ===========================================================================
  // The client object: the requests it has made so far are its state.

  class Client {
    const site: Site
    const lib: Libraries
    var trace: seq<Event>

    /** `Client::new`: a fresh client has made no request. */
    constructor (site: Site, lib: Libraries)
      ensures this.site == site && this.lib == lib && trace == []
    {
      this.site := site;
      this.lib := lib;
      trace := [];
    }

    method GetDocument(path: string) returns (r: Result<string, Error>)
      modifies this
      ensures r == Fetch(site, old(trace), path).result
      ensures trace == old(trace) + Fetch(site, old(trace), path).events
    {
      var url := SiteRoot + path;
      var reply := site.get(trace, url);
      trace := trace + [Get(url)];
      match reply
      case Err(e) =>
        r := Err(Request(e));
      case Ok(body) =>
        trace := trace + [Pause(PauseMillis)];
        r := Ok(body);
    }

    method PostJson<T>(path: string, form: seq<(string, string)>, decode: string -> Result<T, JsonError>)
      returns (r: Result<T, Error>)
      modifies this
      ensures r == Submit(site, old(trace), path, form, decode).result
      ensures trace == old(trace) + Submit(site, old(trace), path, form, decode).events
    {
      var url := SiteRoot + path;
      var reply := site.post(trace, url, form);
      trace := trace + [Post(url, form)];
      if reply.Err? {
        return Err(Request(reply.error));
      }
      var value := decode(reply.value);
      if value.Err? {
        return Err(Request(Decode(value.error)));
      }
      trace := trace + [Pause(PauseMillis)];
      r := Ok(value.value);
    }

    method GetLines() returns (r: Result<seq<Line>, Error>)
      modifies this
      ensures r == LinesOutcome(site, lib, old(trace)).result
      ensures trace == old(trace) + LinesOutcome(site, lib, old(trace)).events
    {
      var doc := GetDocument("/");
      if doc.Err? {
        return Err(doc.error);
      }
      r := Ok(ExtractLines(lib.parseHtml(doc.value)));
    }

    method GetAllStations() returns (r: Result<seq<Station>, Error>)
      modifies this
      ensures r == StationsOutcome(site, lib, old(trace), AllStationsPath).result
      ensures trace == old(trace) + StationsOutcome(site, lib, old(trace), AllStationsPath).events
    {
      var doc := GetDocument(AllStationsPath);
      if doc.Err? {
        return Err(doc.error);
      }
      r := ExtractStations(doc.value, lib.decodeStations);
    }

    method GetStations(line: string) returns (r: Result<seq<Station>, Error>)
      modifies this
      ensures r == StationsOutcome(site, lib, old(trace), LinePath(line)).result
      ensures trace == old(trace) + StationsOutcome(site, lib, old(trace), LinePath(line)).events
    {
      var doc := GetDocument(LinePath(line));
      if doc.Err? {
        return Err(doc.error);
      }
      r := ExtractStations(doc.value, lib.decodeStations);
    }

    method GetLineBuses(line: string) returns (r: Result<seq<LineBus>, Error>)
      modifies this
      ensures r == LineBusesOutcome(site, lib, old(trace), line).result
      ensures trace == old(trace) + LineBusesOutcome(site, lib, old(trace), line).events
    {
      ghost var f := Fetch(site, trace, LinePath(line));
      var doc := GetDocument(LinePath(line));
      if doc.Err? {
        return Err(doc.error);
      }
      var token := ExtractToken(lib.parseHtml(doc.value));
      if token.None? {
        return Err(NoToken);
      }
      var id := ExtractLineId(doc.value);
      if id.None? {
        return Err(NoLineId);
      }
      ghost var p := Submit(site, trace, "/aractekrar", LineBusesForm(id.value, token.value), lib.decodeLineBuses);
      assert trace == old(trace) + f.events;
      var dtos := PostJson("/aractekrar", LineBusesForm(id.value, token.value), lib.decodeLineBuses);
      assert trace == old(trace) + (f.events + p.events);
      if dtos.Err? {
        return Err(dtos.error);
      }
      var buses := Collect(dtos.value, LineBusFrom);
      match buses
      case Err(e) => r := Err(Error.LineBusError(e));
      case Ok(b) => r := Ok(b);
    }

    method GetStationBuses(station: i32) returns (r: Result<seq<StationBus>, Error>)
      modifies this
      ensures r == StationBusesOutcome(site, lib, old(trace), station).result
      ensures trace == old(trace) + StationBusesOutcome(site, lib, old(trace), station).events
    {
      var doc := GetDocument(StationPath(station));
      if doc.Err? {
        return Err(doc.error);
      }
      var token := ExtractToken(lib.parseHtml(doc.value));
      if token.None? {
        return Err(NoToken);
      }
      var dtos := PostJson("/durakTekrar", StationBusesForm(station, token.value), lib.decodeStationBuses);
      if dtos.Err? {
        return Err(dtos.error);
      }
      r := Ok(seq(|dtos.value|, i requires 0 <= i < |dtos.value| => StationBusFrom(dtos.value[i])));
    }
  }
}
