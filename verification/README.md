# sivasbus in Dafny

A model of the core of `sivasbus`, a client library for the public-transport
site of Sivas (`https://ulasim.sivas.bel.tr`). The library scrapes the site's
HTML pages for the bus lines, for the stations of the whole city or of one line,
and for the verification token and line id that the site's own JavaScript
posts back. With these it asks the site's JSON endpoints for live bus
positions on a line (`/aractekrar`) and for arrival estimates at a station
(`/durakTekrar`). The replies are decoded into transfer records ("DTOs").
These are then converted into the library's domain types, with their
coordinates and ids parsed from text.

The model is split into modules:

- `Wrappers`: `Option` and `Result`.
- `Text`: the standard-library string operations the extractors use.
  - `str::trim` over Unicode White_Space.
  - `split("/").last()`.
  - The regular-expression classes `\s` (White_Space) and `\d` (Unicode decimal digits).
- `Numbers`: the numeric parsing and formatting the conversions rely on.
  - `str::parse::<i32>` with its error kinds `Empty`, `InvalidDigit`, `PosOverflow` and `NegOverflow`, and the order in which it reports them.
  - `i32` to decimal text.
  - The grammar that `f64::from_str` accepts.
  - `Duration::from_secs`.
- `Model`: the domain types, the DTOs and the error types.
  - The three DTO conversions.
  - The all-or-nothing batch conversion (`TryCollect`) and its loop (`Collect`).
- `Patterns`: the two regular expressions `hgID\s*:\s*(\d+)` and `var\s+duraks\s*=\s*(\[.*\])`.
  - Each is written as a scanner.
  - Each scanner is proved against a declarative description of a match, leftmost-first and greedy as the `regex` crate is.
- `Html`: the two CSS-selector extractors over a document given as its list of elements in document order.
- `Client`: the five public operations of `Client`.
  - The site is a pair of functions from the request history and the request to the reply.
  - The HTML parser and the JSON decoders are function values.
  - Each operation is a spec function giving its result and the events it causes (GET, POST, pause).
  - The `Client` class keeps the trace of events as its state. Each method is proved to return the spec's result and to append exactly the spec's events.

Where the code and its description differ, the model follows the code:

- No HTTP status is checked: any reply body is scraped.
- A POST reply that does not decode as JSON is an `Error::Request` (reqwest decodes it), not an `Error::Json`.
- The 200 ms pause follows only a request that succeeded, because the early return skips it.
- `StationError::NoId` cannot occur: `split` always yields a last segment.

## Model

| member | source | states |
|---|---|---|
| Text.TrimStart | src/lib.rs:60 | the result is a suffix of the input, everything dropped is whitespace, and it does not start with whitespace |
| Text.TrimEnd | src/lib.rs:60 | the result is a prefix of the input, everything dropped is whitespace, and it does not end with whitespace |
| Text.Trim | src/lib.rs:132 | the trimmed text is no longer than the input and has no whitespace at either end |
| Text.TrimSplit | src/lib.rs:86 | the input is whitespace, then the trimmed text, then whitespace |
| Text.TrimUnique | src/lib.rs:270 | any split into whitespace, a part with no whitespace at its ends, and whitespace is the one trim finds |
| Text.TrimIdempotent | src/lib.rs:270 | trimming twice gives the same text as trimming once |
| Text.LastSegment | src/lib.rs:128-129 | the last `/`-separated segment is a suffix without `/`, preceded by `/` unless it is the whole text |
| Text.DigitIsNotSpace | src/lib.rs:257 | `\d` and `\s` are disjoint, so the id capture cannot absorb the spaces around it |
| Numbers.ValueMonotone | src/lib.rs:131 | a prefix of a digit run never denotes a larger number |
| Numbers.AccumulateCorrect | src/lib.rs:131 | the digit loop succeeds exactly when all digits are ASCII and the value fits the sign's bound, and returns the signed value |
| Numbers.ParseI32Correct | src/lib.rs:131 | `parse::<i32>` accepts exactly the integer literals whose value is within `i32`, and returns that value |
| Numbers.ParseI32Empty | src/lib.rs:131 | the error is `Empty` exactly for the empty text |
| Numbers.AccumulateNeverEmpty | src/lib.rs:131 | once there are digits to read, the error is never `Empty` |
| Numbers.Digits | src/lib.rs:234 | the decimal digits of a number are its canonical text: non-empty ASCII digits denoting that number, with no leading zero unless the number is 0, and `"0"` exactly for 0 |
| Numbers.ParseDecimalText | src/lib.rs:234 | the decimal text of an `i32` parses back to the same `i32` |
| Numbers.ParseF64AcceptsDecimals | src/lib.rs:62-63 | `"5."` and `".5"` parse: digits may be missing on one side of the dot |
| Numbers.ParseF64AcceptsExponent | src/lib.rs:62-63 | `"2.5E-10"` parses: the exponent marker in upper case, with a signed exponent |
| Numbers.ParseF64AcceptsSpecial | src/lib.rs:134-135 | `"inf"` and `"-NaN"` parse, in any ASCII case and with a sign |
| Numbers.ParseF64RejectsIncomplete | src/lib.rs:134-135 | `"."`, `"e5"` and `"1e"` are `Invalid`: a dot alone, an exponent with no mantissa, and a marker with no exponent digits |
| Numbers.ParseF64RejectsOther | src/lib.rs:62-63 | `" 1"` (whitespace is not skipped) and `"+"` (a lone sign) are `Invalid`, while `""` is `Empty` |
| Numbers.FromSecsExact | src/lib.rs:87 | a duration from whole seconds is exactly that many seconds with no sub-second part |
| Model.LineBusConversion | src/lib.rs:55-67 | a line bus converts exactly when both coordinates parse; the plate is trimmed; the latitude's error wins over the longitude's |
| Model.LineBusPlateTrimmed | src/lib.rs:60 | a converted line bus's plate is the payload's plate with the whitespace around it, and only that, removed; it neither starts nor ends with whitespace |
| Model.StationBusPlateTrimmed | src/lib.rs:86 | an arrival's plate is the payload's plate with the whitespace around it, and only that, removed; it neither starts nor ends with whitespace |
| Model.StationBusConversion | src/lib.rs:83-90 | the arrival plate is trimmed and the arrival time is exactly `sure` seconds |
| Model.StationConversion | src/lib.rs:121-139 | a station converts exactly when the link's last segment is an `i32` literal in range and both coordinates parse; then the id is that value, the name is trimmed, the coordinates are the parsed ones |
| Model.StationErrorOrder | src/lib.rs:124-138 | `NoId` never occurs; an id error wins over a latitude error, which wins over a longitude error |
| Model.StationLinkEndingInSlash | src/lib.rs:126-131 | a link ending in `/` fails with the id error `Empty` |
| Model.StationLinkWithoutSlash | src/lib.rs:126-131 | a link without `/` is parsed whole as the id |
| Model.StationIdFromLink | src/lib.rs:126-131 | a link ending in `/n` for an `i32` n, with parsable coordinates, gives the station with id n |
| Model.LastSegmentAfterSlash | src/lib.rs:128-129 | the text after the last `/` is what follows that slash |
| Model.DecimalLiteralParses | src/lib.rs:134-135 | a `digits.digits` coordinate is a valid `f64` literal |
| Model.TryCollectOk | src/lib.rs:290-294 | the batch succeeds exactly when every element converts, and yields the converted elements in input order |
| Model.TryCollectErr | src/lib.rs:290-294 | a failing batch reports the error of the first element that fails, whatever follows |
| Model.Collect | src/lib.rs:218-222 | the push loop returns the all-or-nothing batch conversion |
| Patterns.LineIdAt | src/lib.rs:255-263 | a match at a position spans from there to the end of its digit group, which lies inside the document |
| Patterns.LineIdFrom | src/lib.rs:255-263 | the match found is at the first position with a match; no position before it has one |
| Patterns.LineIdAtSound | src/lib.rs:257 | what the scanner reports is a match of `hgID\s*:\s*(\d+)` |
| Patterns.LineIdAtComplete | src/lib.rs:257 | every match at a position is found, with the same group start and a group at least as long |
| Patterns.LineIdNoneIffNoMatch | src/lib.rs:255-263 | no line id exactly when the pattern matches nowhere |
| Patterns.LineIdLeftmostGreedy | src/lib.rs:255-263 | the id is the group of the leftmost match, the longest at that position |
| Patterns.LineIdIsDigits | src/lib.rs:257 | the id is a non-empty run of `\d` characters |
| Patterns.DuraksAt | src/lib.rs:276-284 | a match spans from its position to the end of the group, which starts with `[`, ends with `]` and holds no newline |
| Patterns.DuraksFrom | src/lib.rs:276-284 | the match found is at the first position with a match; no position before it has one |
| Patterns.DuraksAtSound | src/lib.rs:278 | what the scanner reports is a match of `var\s+duraks\s*=\s*(\[.*\])` |
| Patterns.DuraksAtComplete | src/lib.rs:278 | every match at a position is found, with the same `[` and a `]` no earlier on that line |
| Patterns.StationJsonNoneIffNoMatch | src/lib.rs:276-284 | no station array exactly when the pattern matches nowhere |
| Patterns.StationJsonLeftmostGreedy | src/lib.rs:276-284 | the array is the group of the leftmost match, up to the last `]` on its line |
| Patterns.StationJsonShape | src/lib.rs:278 | the array text starts with `[`, ends with `]`, and holds no line break |
| Html.Attr | src/lib.rs:250 | an attribute value is found exactly when the element has an attribute of that name, and it is the value of the first attribute with that name |
| Html.TokenOfFirstInput | src/lib.rs:246-253 | the token is the `value` of the first token input, whatever later inputs hold |
| Html.NoTokenInput | src/lib.rs:249 | without a token input there is no token |
| Html.FirstInputWithoutValue | src/lib.rs:249-250 | a first token input without `value` gives no token even when a later one has it |
| Html.SelectIffAnchorWithText | src/lib.rs:267-270 | a `/hat/` anchor yields a line exactly when it has a text node |
| Html.LineOfAnchor | src/lib.rs:269-271 | for a `/hat/` anchor with text, the line id is the part of the link after its last `/` (never the whole link), and the name is the first text trimmed |
| Html.ExtractLinesAt | src/lib.rs:265-274 | each usable anchor's line stands at the index given by the usable anchors before it, so lines keep document order |
| Html.ExtractLinesConcat | src/lib.rs:265-274 | the lines of two consecutive parts of a document are those of each part, in order |
| Html.TextlessAnchorSkipped | src/lib.rs:270 | an anchor without text is dropped and leaves the other lines unchanged |
| Html.FilterMapConcat | src/lib.rs:268-273 | `filter_map` over concatenated input is the concatenation of the outputs |
| Html.FilterMapLength | src/lib.rs:268-273 | `filter_map` yields one output per kept element |
| Html.FilterMapAt | src/lib.rs:268-273 | a kept element's output comes after the outputs of the elements before it |
| Client.FetchPauses | src/lib.rs:159-170 | a document request is one GET to the site root plus the path, then a single 200 ms pause exactly when it succeeds and nothing else (two events on success, one on failure), never a POST; its error is a request error |
| Client.SubmitPauses | src/lib.rs:172-188 | a JSON request is one POST of the form, then a single 200 ms pause exactly when the reply arrived and decoded and nothing else (two events on success, one on failure); every failure is a request error |
| Client.ExtractStations | src/lib.rs:286-295 | the stations of a page are the decoded `duraks` array, converted all or nothing |
| Client.StationsInMissing | src/lib.rs:287 | `NoStations` exactly when the `duraks` array is missing, whatever the decoder would do |
| Client.StationsInUndecodable | src/lib.rs:288 | an array that does not decode gives `Error::Json` with the decoder's error |
| Client.StationsInOk | src/lib.rs:286-295 | once the array decodes, success exactly when every entry converts; the stations are then the entries converted, one per entry, in order |
| Client.StationsInFirstFailure | src/lib.rs:290-293 | a failing entry yields the `StationError` of the first entry that fails, and no stations |
| Client.LinesOutcomeCorrect | src/lib.rs:190-193 | the lines cost one GET and no POST, fail only when the request fails, and are the lines extracted from the page |
| Client.StationsOutcomeCorrect | src/lib.rs:195-205 | the stations cost one GET and no POST; they are the page's stations; the error is one of Request, NoStations, Json or StationError |
| Client.LineBusesPostOnlyWithTokenAndId | src/lib.rs:207-216 | the positions form is posted exactly when the page gave both token and line id; it is the only POST, right after the GET and its pause, and carries `hgID` and the token |
| Client.LineBusesErrorOrder | src/lib.rs:208-210 | a failed request is returned as is; a missing token gives `NoToken` whether or not the line id is there; a missing line id gives `NoLineId`; neither posts |
| Client.LineBusesEvents | src/lib.rs:207-222 | a success or a conversion failure has cost exactly a GET, its pause, the POST of `hgID` and the token, and its pause |
| Client.LineBusesResult | src/lib.rs:207-223 | success means the page and the POST succeeded, with one bus per decoded position, converted in order |
| Client.LineBusesOk | src/lib.rs:218-222 | once the page, its token and line id, and the POST have come back, success exactly when every decoded position converts; the buses are then the positions converted, one per position, in order |
| Client.LineBusesFirstFailure | src/lib.rs:219-220 | a position that does not convert yields the `LineBusError` of the first position that fails |
| Client.StationBusesPostOnlyWithToken | src/lib.rs:225-238 | the arrivals form is posted exactly when the page gave the token; it is the only POST, right after the GET and its pause; without a token the result is `NoToken` |
| Client.StationIdRoundTrip | src/lib.rs:227-234 | the `drkID` field is the station's decimal text, which parses back to the station, and is the same text as in the page path |
| Client.StationBusesResult | src/lib.rs:225-243 | arrivals succeed exactly when the page, the token and the POST do; one arrival per decoded entry, with the plate trimmed and the time in whole seconds |
| Client.Client.constructor | src/lib.rs:148-157 | a new client has made no request |
| Client.Client.GetDocument | src/lib.rs:159-170 | returns the document request's result and appends exactly its events to the trace |
| Client.Client.PostJson | src/lib.rs:172-188 | returns the JSON request's result and appends exactly its events to the trace |
| Client.Client.GetLines | src/lib.rs:190-193 | returns the line list's result and appends exactly its events |
| Client.Client.GetAllStations | src/lib.rs:195-200 | returns the city-wide station list's result and appends exactly its events |
| Client.Client.GetStations | src/lib.rs:202-205 | returns the line's station list result and appends exactly its events |
| Client.Client.GetLineBuses | src/lib.rs:207-223 | returns the line positions' result and appends exactly its events |
| Client.Client.GetStationBuses | src/lib.rs:225-243 | returns the station arrivals' result and appends exactly its events |

## Left out

- The network, `async`, and the real `tokio::time::sleep`: a request is an abstract function of the request history, and a pause is an event with its length in milliseconds.
- The reqwest cookie store set up by `Client::new`: it is part of what the site function may read from the history.
- The reqwest client's own errors: a request error is an opaque message.
- The HTML parser (`scraper::Html::parse_document`): it is a function value from text to the element list in document order. The selectors are modelled on that list: tag name and attribute equality, and an attribute prefix.
- The JSON decoders (`serde_json`): they are function values. A decode error is an opaque message.
- `Numbers.ParseF64`: a coordinate keeps the text of its literal. The rounding of a decimal literal to the nearest binary64 value is not modelled; acceptance follows the `f64::from_str` grammar.
- `Text.IsDigit`: follows the Unicode 15.0 decimal-digit table. A `regex` crate built on another Unicode version may differ in a few code points.
- `Serialize`/`Debug` derives and the error messages of `thiserror`: they do not affect the behaviour modelled.
- The command-line program `src/main.rs` and the Python scripts `scraper.py` and `main.py`: they are callers outside the library core and are not part of this model.
