/**
 * The domain values, the raw payload shapes (DTOs) the site sends, the error
 * taxonomy, and the validating conversions from DTOs to domain values.
 */
module Model {
  import opened Wrappers
  import opened Text
  import opened Numbers

  // ---------------------------------------------------------------------------
  // Domain values.

  datatype Coords = Coords(lat: F64, long: F64)

  datatype LineBus = LineBus(licensePlate: string, coords: Coords)

  datatype StationBus = StationBus(licensePlate: string, arriveTime: Duration)

  datatype Station = Station(id: i32, humanName: string, coords: Coords)

  datatype Line = Line(id: string, humanName: string)

  // ---------------------------------------------------------------------------
  // Payload shapes, with the site's field names noted beside each field.

  datatype LineBusDto = LineBusDto(
    licensePlate: string, // aracPlaka
    lat: string,          // mevcutlat
    long: string)         // mevcutlng

  datatype StationBusDto = StationBusDto(
    licensePlate: string, // plaka
    arriveTimeSecs: u64)  // sure

  datatype StationDto = StationDto(
    path: string,         // linko
    humanName: string,    // durakAd
    lat: string,          // durakLat
    long: string)         // durakLng

  // ---------------------------------------------------------------------------
  // Errors.

  /** A JSON body that does not decode into the expected shape; the decoder's message is opaque. */
  datatype JsonError = JsonError(message: string)

  /** A failure of the HTTP client: the exchange itself, or decoding a JSON reply it was asked to decode. */
  datatype RequestError = Transport(message: string) | Decode(json: JsonError)

  datatype LineBusError = LineBusError(cause: ParseFloatError)

  datatype StationError = NoId | Id(intError: ParseIntError) | Coords(floatError: ParseFloatError)

  datatype Error =
    | Request(request: RequestError)
    | Json(json: JsonError)
    | StationError(station: StationError)
    | LineBusError(lineBus: LineBusError)
    | NoToken
    | NoStations
    | NoLineId

  // ---------------------------------------------------------------------------
  // Conversions. Fields are converted in declaration order and the first
  // failure is returned.

  function LineBusFrom(dto: LineBusDto): Result<LineBus, LineBusError> {
    var plate := Trim(dto.licensePlate);
    match ParseF64(dto.lat)
    case Err(e) => Err(LineBusError.LineBusError(e))
    case Ok(lat) =>
      match ParseF64(dto.long)
      case Err(e) => Err(LineBusError.LineBusError(e))
      case Ok(long) => Ok(LineBus(plate, Coords.Coords(lat, long)))
  }

  function StationBusFrom(dto: StationBusDto): StationBus {
    StationBus(Trim(dto.licensePlate), FromSecs(dto.arriveTimeSecs))
  }

  function StationFrom(dto: StationDto): Result<Station, StationError> {
    match ParseI32(LastSegment(dto.path))
    case Err(e) => Err(Id(e))
    case Ok(id) =>
      var name := Trim(dto.humanName);
      match ParseF64(dto.lat)
      case Err(e) => Err(StationError.Coords(e))
      case Ok(lat) =>
        match ParseF64(dto.long)
        case Err(e) => Err(StationError.Coords(e))
        case Ok(long) => Ok(Station(id, name, Coords.Coords(lat, long)))
  }

  /** A line bus converts exactly when both coordinates parse; the plate is trimmed, the first bad coordinate is reported. */
  lemma LineBusConversion(dto: LineBusDto)
    ensures LineBusFrom(dto).Ok? <==> ParseF64(dto.lat).Ok? && ParseF64(dto.long).Ok?
    ensures LineBusFrom(dto).Ok? ==> (LineBusFrom(dto).value ==
      LineBus(Trim(dto.licensePlate), Coords.Coords(ParseF64(dto.lat).value, ParseF64(dto.long).value)))
    ensures ParseF64(dto.lat).Err? ==> LineBusFrom(dto) == Err(LineBusError.LineBusError(ParseF64(dto.lat).error))
    ensures ParseF64(dto.lat).Ok? && ParseF64(dto.long).Err? ==>
      LineBusFrom(dto) == Err(LineBusError.LineBusError(ParseF64(dto.long).error))
  {
  }

  /**
   * The plate of a converted line bus is the payload's plate with the
   * whitespace around it, and only that, taken off.
   */
  lemma LineBusPlateTrimmed(dto: LineBusDto) returns (pre: string, post: string)
    ensures LineBusFrom(dto).Ok? ==>
      var plate := LineBusFrom(dto).value.licensePlate;
      && dto.licensePlate == pre + plate + post && AllSpace(pre) && AllSpace(post)
      && (plate == [] || (!IsSpace(plate[0]) && !IsSpace(plate[|plate| - 1])))
  {
    pre, post := TrimSplit(dto.licensePlate);
  }

  /** The same holds for the plate of an arrival estimate, which always converts. */
  lemma StationBusPlateTrimmed(dto: StationBusDto) returns (pre: string, post: string)
    ensures var plate := StationBusFrom(dto).licensePlate;
      && dto.licensePlate == pre + plate + post && AllSpace(pre) && AllSpace(post)
      && (plate == [] || (!IsSpace(plate[0]) && !IsSpace(plate[|plate| - 1])))
  {
    pre, post := TrimSplit(dto.licensePlate);
  }

  /** An arrival estimate is exactly `sure` whole seconds. */
  lemma StationBusConversion(dto: StationBusDto)
    ensures StationBusFrom(dto).licensePlate == Trim(dto.licensePlate)
    ensures AsNanos(StationBusFrom(dto).arriveTime) == dto.arriveTimeSecs * 1_000_000_000
  {
    FromSecsExact(dto.arriveTimeSecs);
  }

  /**
   * A station converts exactly when the text after the last `/` of its link is
   * an `i32` literal in range and both coordinates parse; then its id is the
   * value of that literal and its name is the trimmed `durakAd`.
   */
  lemma StationConversion(dto: StationDto)
    ensures StationFrom(dto).Ok? <==>
      && IsIntLiteral(LastSegment(dto.path))
      && I32_MIN <= LiteralValue(LastSegment(dto.path)) <= I32_MAX
      && ParseF64(dto.lat).Ok? && ParseF64(dto.long).Ok?
    ensures StationFrom(dto).Ok? ==>
      && StationFrom(dto).value.id == LiteralValue(LastSegment(dto.path))
      && StationFrom(dto).value.humanName == Trim(dto.humanName)
      && StationFrom(dto).value.coords == Coords.Coords(ParseF64(dto.lat).value, ParseF64(dto.long).value)
  {
    var seg := LastSegment(dto.path);
    ParseI32Correct(seg);
    match ParseI32(seg)
    case Err(_) =>
    case Ok(id) =>
      assert id == LiteralValue(seg);
  }

  /** Failures are reported in field order: the id first, then the latitude, then the longitude; `NoId` never. */
  lemma StationErrorOrder(dto: StationDto)
    ensures StationFrom(dto) != Err(NoId)
    ensures ParseI32(LastSegment(dto.path)).Err? ==> StationFrom(dto) == Err(Id(ParseI32(LastSegment(dto.path)).error))
    ensures ParseI32(LastSegment(dto.path)).Ok? && ParseF64(dto.lat).Err? ==>
      StationFrom(dto) == Err(StationError.Coords(ParseF64(dto.lat).error))
    ensures ParseI32(LastSegment(dto.path)).Ok? && ParseF64(dto.lat).Ok? && ParseF64(dto.long).Err? ==>
      StationFrom(dto) == Err(StationError.Coords(ParseF64(dto.long).error))
  {
  }

  /** A link that ends in `/` leaves an empty id, which fails to parse as `Empty`. */
  lemma StationLinkEndingInSlash(dto: StationDto)
    requires |dto.path| > 0 && dto.path[|dto.path| - 1] == '/'
    ensures StationFrom(dto) == Err(Id(ParseIntError(IntErrorKind.Empty)))
  {
    assert LastSegment(dto.path) == [];
  }

  /** A link without `/` is the id text as a whole. */
  lemma StationLinkWithoutSlash(dto: StationDto)
    requires '/' !in dto.path
    ensures LastSegment(dto.path) == dto.path
    ensures StationFrom(dto).Ok? ==> StationFrom(dto).value.id == ParseI32(dto.path).value
  {
  }

  /** A link ending in `/<n>` for an `i32` n gives a station whose id is n. */
  lemma StationIdFromLink(prefix: string, n: i32, name: string, lat: string, long: string)
    requires ParseF64(lat).Ok? && ParseF64(long).Ok?
    ensures StationFrom(StationDto(prefix + "/" + DecimalText(n), name, lat, long))
      == Ok(Station(n, Trim(name), Coords.Coords(ParseF64(lat).value, ParseF64(long).value)))
  {
    var path := prefix + "/" + DecimalText(n);
    LastSegmentAfterSlash(prefix, DecimalText(n));
    ParseDecimalText(n);
  }

  lemma LastSegmentAfterSlash(prefix: string, seg: string)
    requires '/' !in seg
    ensures LastSegment(prefix + "/" + seg) == seg
  {
    var s := prefix + "/" + seg;
    var r := LastSegment(s);
    assert s[|s| - |seg| - 1] == '/';
    assert s[|s| - |seg|..] == seg;
    assert |r| == |seg|;
  }

  /** A plain `digits.digits` literal is a valid `f64`. */
  lemma DecimalLiteralParses(s: string, dot: nat)
    requires 0 < dot < |s| && s[dot] == '.'
    requires AllAsciiDigits(s[..dot]) && AllAsciiDigits(s[dot + 1..])
    ensures ParseF64(s) == Ok(F64(s))
  {
    assert Unsigned(s) == s by {
      assert s[0] == s[..dot][0];
    }
    assert forall k | 0 <= k < |s| :: IsAsciiDigit(s[k]) || s[k] == '.' by {
      forall k | 0 <= k < |s| ensures IsAsciiDigit(s[k]) || s[k] == '.' {
        if k < dot { assert s[k] == s[..dot][k]; }
        else if k > dot { assert s[k] == s[dot + 1..][k - dot - 1]; }
      }
    }
    UnchangedByLowering(s);
    assert '.' !in s[..dot] by {
      forall k | 0 <= k < dot ensures s[..dot][k] != '.' {
        assert IsAsciiDigit(s[..dot][k]);
      }
    }
    assert IndexOf(s, '.') == Some(dot);
  }

  // ---------------------------------------------------------------------------
  // Batch conversion: all or nothing, in input order, first failure wins.

  /** Converts every element, stopping at the first failure. */
  function TryCollect<D, T, E>(ds: seq<D>, f: D -> Result<T, E>): Result<seq<T>, E> {
    if ds == [] then Ok([])
    else
      match TryCollect(ds[..|ds| - 1], f)
      case Err(e) => Err(e)
      case Ok(ts) =>
        match f(ds[|ds| - 1])
        case Err(e) => Err(e)
        case Ok(t) => Ok(ts + [t])
  }

  /** Success means every element converted, and the output holds the converted elements in input order. */
  lemma {:induction false} TryCollectOk<D, T, E>(ds: seq<D>, f: D -> Result<T, E>)
    ensures TryCollect(ds, f).Ok? <==> forall i | 0 <= i < |ds| :: f(ds[i]).Ok?
    ensures TryCollect(ds, f).Ok? ==>
      |TryCollect(ds, f).value| == |ds| &&
      forall i | 0 <= i < |ds| :: TryCollect(ds, f).value[i] == f(ds[i]).value
  {
    if ds != [] {
      var init := ds[..|ds| - 1];
      TryCollectOk(init, f);
      assert forall i | 0 <= i < |init| :: init[i] == ds[i];
    }
  }

  /** Failure reports the error of the first element that fails, whatever follows it. */
  lemma {:induction false} TryCollectErr<D, T, E>(ds: seq<D>, f: D -> Result<T, E>, i: nat)
    requires i < |ds| && f(ds[i]).Err?
    requires forall j | 0 <= j < i :: f(ds[j]).Ok?
    ensures TryCollect(ds, f) == Err(f(ds[i]).error)
  {
    var init := ds[..|ds| - 1];
    if i == |ds| - 1 {
      TryCollectOk(init, f);
    } else {
      assert init[i] == ds[i];
      TryCollectErr(init, f, i);
    }
  }

  /**
   * The push loop of `extract_stations` and `get_line_buses`: each element is
   * converted in turn, and the first failure ends the loop.
   */
  method Collect<D, T, E>(ds: seq<D>, f: D -> Result<T, E>) returns (r: Result<seq<T>, E>)
    ensures r == TryCollect(ds, f)
  {
    var results: seq<T> := [];
    var i := 0;
    while i < |ds|
      invariant 0 <= i <= |ds|
      invariant TryCollect(ds[..i], f) == Ok(results)
      invariant forall j | 0 <= j < i :: f(ds[j]).Ok?
    {
      assert ds[..i + 1][..i] == ds[..i];
      match f(ds[i])
      case Err(e) =>
        TryCollectErr(ds, f, i);
        return Err(e);
      case Ok(t) =>
        results := results + [t];
        i := i + 1;
    }
    assert ds[..i] == ds;
    r := Ok(results);
  }
}
