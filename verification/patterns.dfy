/**
 * The two fixed regular expressions of the extraction layer, each written as
 * a scanner over the document's characters, beside a declarative statement of
 * what text the pattern matches. The scanners follow the regular expression
 * engine's leftmost-first semantics: the match that starts earliest wins, and
 * at that start the greedy repetitions take as much as they can.
 */
module Patterns {
  import opened Wrappers
  import opened Text

  datatype Span = Span(start: nat, end: nat)

  /** The whole match and capture group 1. */
  datatype Captures = Captures(whole: Span, group: Span)

  predicate NotNewline(c: char) {
    c != '\n'
  }

  // ===========================================================================
  // `hgID\s*:\s*(\d+)`

  /**
   * `doc[a..e]` matches `hgID\s*:\s*(\d+)` with the colon at `c` and the
   * captured digits at `doc[d..e]`.
   */
  ghost predicate LineIdMatch(doc: string, a: int, c: int, d: int, e: int) {
    && 0 <= a && a + 4 <= c < d < e <= |doc|
    && doc[a..a + 4] == "hgID"
    && (forall k | a + 4 <= k < c :: IsSpace(doc[k]))
    && doc[c] == ':'
    && (forall k | c + 1 <= k < d :: IsSpace(doc[k]))
    && (forall k | d <= k < e :: IsDigit(doc[k]))
  }

  /** The match of the pattern that starts at `a`, if any. */
  function LineIdAt(doc: string, a: nat): (m: Option<Captures>)
    requires a <= |doc|
    ensures m.Some? ==> m.value.whole == Span(a, m.value.group.end)
    ensures m.Some? ==> m.value.group.start < m.value.group.end <= |doc|
  {
    if a + 4 <= |doc| && doc[a..a + 4] == "hgID" then
      var c := SkipWhile(doc, a + 4, IsSpace);
      if c < |doc| && doc[c] == ':' then
        var d := SkipWhile(doc, c + 1, IsSpace);
        var e := SkipWhile(doc, d, IsDigit);
        if d < e then Some(Captures(Span(a, e), Span(d, e))) else None
      else None
    else None
  }

  /** The first match starting at or after `a`. */
  function LineIdFrom(doc: string, a: nat): (m: Option<Captures>)
    requires a <= |doc|
    ensures m.Some? ==> a <= m.value.whole.start <= |doc| && LineIdAt(doc, m.value.whole.start) == m
    ensures forall b | a <= b <= |doc| && (m.None? || b < m.value.whole.start) :: LineIdAt(doc, b).None?
    decreases |doc| - a
  {
    match LineIdAt(doc, a)
    case Some(m) => Some(m)
    case None => if a == |doc| then None else LineIdFrom(doc, a + 1)
  }

  /** `extract_line_id`: capture group 1 of the leftmost match of `hgID\s*:\s*(\d+)`, if any. */
  function ExtractLineId(doc: string): Option<string> {
    match LineIdFrom(doc, 0)
    case None => None
    case Some(m) => Some(doc[m.group.start..m.group.end])
  }

  /** What the scanner reports at `a` is a match. */
  lemma LineIdAtSound(doc: string, a: nat)
    requires a <= |doc| && LineIdAt(doc, a).Some?
    ensures exists c :: LineIdMatch(doc, a, c, LineIdAt(doc, a).value.group.start, LineIdAt(doc, a).value.group.end)
  {
    var c := SkipWhile(doc, a + 4, IsSpace);
    assert LineIdMatch(doc, a, c, LineIdAt(doc, a).value.group.start, LineIdAt(doc, a).value.group.end);
  }

  /** Every match at `a` is found by the scanner, which captures the same digits or a longer run of them. */
  lemma LineIdAtComplete(doc: string, a: int, c: int, d: int, e: int)
    requires LineIdMatch(doc, a, c, d, e)
    ensures LineIdAt(doc, a).Some?
    ensures LineIdAt(doc, a).value.group.start == d && e <= LineIdAt(doc, a).value.group.end
  {
    assert !IsSpace(doc[c]);
    SkipWhileStops(doc, a + 4, IsSpace, c);
    DigitIsNotSpace(doc[d]);
    SkipWhileStops(doc, c + 1, IsSpace, d);
    SkipWhilePast(doc, d, IsDigit, e);
  }

  /** The extractor finds nothing exactly when the pattern matches nowhere in the document. */
  lemma LineIdNoneIffNoMatch(doc: string)
    ensures ExtractLineId(doc).None? <==> forall a, c, d, e :: !LineIdMatch(doc, a, c, d, e)
  {
    if ExtractLineId(doc).None? {
      forall a, c, d, e | LineIdMatch(doc, a, c, d, e) ensures false {
        LineIdAtComplete(doc, a, c, d, e);
      }
    } else {
      var m := LineIdFrom(doc, 0).value;
      LineIdAtSound(doc, m.whole.start);
    }
  }

  /**
   * When the extractor finds an id, it is the captured digit run of the
   * leftmost match, taken as long as it goes: a non-empty run of digits, a
   * substring of the document, followed by a non-digit or the end.
   */
  lemma LineIdLeftmostGreedy(doc: string)
    requires ExtractLineId(doc).Some?
    ensures exists a, c, d, e ::
      && LineIdMatch(doc, a, c, d, e)
      && ExtractLineId(doc).value == doc[d..e]
      && (e == |doc| || !IsDigit(doc[e]))
      && (forall a', c', d', e' | LineIdMatch(doc, a', c', d', e') :: a <= a' && (a' == a ==> d' == d && e' <= e))
  {
    var m := LineIdFrom(doc, 0).value;
    var a, d, e := m.whole.start, m.group.start, m.group.end;
    LineIdAtSound(doc, a);
    var c :| LineIdMatch(doc, a, c, d, e);
    assert e == SkipWhile(doc, d, IsDigit);
    forall a', c', d', e' | LineIdMatch(doc, a', c', d', e')
      ensures a <= a' && (a' == a ==> d' == d && e' <= e)
    {
      LineIdAtComplete(doc, a', c', d', e');
    }
  }

  /** The id is a non-empty run of digits. */
  lemma LineIdIsDigits(doc: string)
    requires ExtractLineId(doc).Some?
    ensures |ExtractLineId(doc).value| > 0
    ensures forall k | 0 <= k < |ExtractLineId(doc).value| :: IsDigit(ExtractLineId(doc).value[k])
  {
    var m := LineIdFrom(doc, 0).value;
    LineIdAtSound(doc, m.whole.start);
  }

  // ===========================================================================
  // `var\s+duraks\s*=\s*(\[.*\])`

  /**
   * `doc[a..o + 1]` matches `var\s+duraks\s*=\s*\[` with `duraks` at `s`
   * and `=` at `q`.
   */
  ghost predicate DuraksHead(doc: string, a: int, s: int, q: int, o: int) {
    && 0 <= a && a + 3 < s && s + 6 <= q < o < |doc|
    && doc[a..a + 3] == "var"
    && (forall k | a + 3 <= k < s :: IsSpace(doc[k]))
    && doc[s..s + 6] == "duraks"
    && (forall k | s + 6 <= k < q :: IsSpace(doc[k]))
    && doc[q] == '='
    && (forall k | q + 1 <= k < o :: IsSpace(doc[k]))
    && doc[o] == '['
  }

  /** `doc[o..b]` matches `\[.*\]`. */
  ghost predicate BracketMatch(doc: string, o: int, b: int) {
    && 0 <= o && o + 1 < b <= |doc|
    && doc[o] == '['
    && (forall k | o < k < b - 1 :: doc[k] != '\n')
    && doc[b - 1] == ']'
  }

  /**
   * `doc[a..b]` matches `var\s+duraks\s*=\s*(\[.*\])` with `duraks` at `s`,
   * `=` at `q`, and the captured array text at `doc[o..b]`.
   */
  ghost predicate DuraksMatch(doc: string, a: int, s: int, q: int, o: int, b: int) {
    DuraksHead(doc, a, s, q, o) && BracketMatch(doc, o, b)
  }

  /** The last position of `x` in `doc[lo..hi]`. */
  function LastIndexOf(doc: string, lo: nat, hi: nat, x: char): (r: Option<nat>)
    requires lo <= hi <= |doc|
    ensures r.Some? ==> lo <= r.value < hi && doc[r.value] == x
    ensures forall k | (if r.Some? then r.value + 1 else lo) <= k < hi :: doc[k] != x
    decreases hi
  {
    if hi == lo then None
    else if doc[hi - 1] == x then Some(hi - 1)
    else LastIndexOf(doc, lo, hi - 1, x)
  }

  /** The position of the `[` when `var\s+duraks\s*=\s*\[` matches at `a`. */
  function DuraksHeadAt(doc: string, a: nat): (o: Option<nat>)
    requires a <= |doc|
    ensures o.Some? ==> a < o.value < |doc| && doc[o.value] == '['
  {
    if a + 3 <= |doc| && doc[a..a + 3] == "var" then
      var s := SkipWhile(doc, a + 3, IsSpace);
      if a + 3 < s && s + 6 <= |doc| && doc[s..s + 6] == "duraks" then
        var q := SkipWhile(doc, s + 6, IsSpace);
        if q < |doc| && doc[q] == '=' then
          var o := SkipWhile(doc, q + 1, IsSpace);
          if o < |doc| && doc[o] == '[' then Some(o) else None
        else None
      else None
    else None
  }

  /**
   * The end of `\[.*\]` from the `[` at `o`: `.*` runs to the end of the
   * line, and backtracking then stops at its last `]`.
   */
  function BracketEnd(doc: string, o: nat): (b: Option<nat>)
    requires o < |doc|
    ensures b.Some? ==> o + 1 < b.value <= |doc| && doc[b.value - 1] == ']'
    ensures b.Some? ==> forall k | o < k < b.value :: doc[k] != '\n'
  {
    var n := SkipWhile(doc, o + 1, NotNewline);
    match LastIndexOf(doc, o + 1, n, ']')
    case Some(e) => Some(e + 1)
    case None => None
  }

  /** The match of the pattern that starts at `a`, if any. */
  function DuraksAt(doc: string, a: nat): (m: Option<Captures>)
    requires a <= |doc|
    ensures m.Some? ==> m.value.whole == Span(a, m.value.group.end)
    ensures m.Some? ==> m.value.group.start + 1 < m.value.group.end <= |doc|
    ensures m.Some? ==> doc[m.value.group.start] == '[' && doc[m.value.group.end - 1] == ']'
    ensures m.Some? ==> forall k | m.value.group.start < k < m.value.group.end :: doc[k] != '\n'
  {
    match DuraksHeadAt(doc, a)
    case None => None
    case Some(o) =>
      match BracketEnd(doc, o)
      case None => None
      case Some(b) => Some(Captures(Span(a, b), Span(o, b)))
  }

  /** The first match starting at or after `a`. */
  function DuraksFrom(doc: string, a: nat): (m: Option<Captures>)
    requires a <= |doc|
    ensures m.Some? ==> a <= m.value.whole.start <= |doc| && DuraksAt(doc, m.value.whole.start) == m
    ensures forall b | a <= b <= |doc| && (m.None? || b < m.value.whole.start) :: DuraksAt(doc, b).None?
    decreases |doc| - a
  {
    match DuraksAt(doc, a)
    case Some(m) => Some(m)
    case None => if a == |doc| then None else DuraksFrom(doc, a + 1)
  }

  /** `extract_station_json`: capture group 1 of the leftmost match of `var\s+duraks\s*=\s*(\[.*\])`, if any. */
  function ExtractStationJson(doc: string): Option<string> {
    match DuraksFrom(doc, 0)
    case None => None
    case Some(m) => Some(doc[m.group.start..m.group.end])
  }

  lemma DuraksHeadAtSound(doc: string, a: nat)
    requires a <= |doc| && DuraksHeadAt(doc, a).Some?
    ensures exists s, q :: DuraksHead(doc, a, s, q, DuraksHeadAt(doc, a).value)
  {
    var s := SkipWhile(doc, a + 3, IsSpace);
    var q := SkipWhile(doc, s + 6, IsSpace);
    assert DuraksHead(doc, a, s, q, DuraksHeadAt(doc, a).value);
  }

  lemma DuraksHeadAtComplete(doc: string, a: int, s: int, q: int, o: int)
    requires DuraksHead(doc, a, s, q, o)
    ensures DuraksHeadAt(doc, a) == Some(o)
  {
    assert doc[s] == doc[s..s + 6][0] == 'd';
    SkipWhileStops(doc, a + 3, IsSpace, s);
    assert doc[q] == '=';
    SkipWhileStops(doc, s + 6, IsSpace, q);
    assert doc[o] == '[';
    SkipWhileStops(doc, q + 1, IsSpace, o);
  }

  lemma BracketEndComplete(doc: string, o: int, b: int)
    requires BracketMatch(doc, o, b)
    ensures BracketEnd(doc, o).Some? && b <= BracketEnd(doc, o).value
  {
    SkipWhilePast(doc, o + 1, NotNewline, b - 1);
  }

  /** What the scanner reports at `a` is a match. */
  lemma DuraksAtSound(doc: string, a: nat)
    requires a <= |doc| && DuraksAt(doc, a).Some?
    ensures exists s, q :: DuraksMatch(doc, a, s, q, DuraksAt(doc, a).value.group.start, DuraksAt(doc, a).value.group.end)
  {
    var o := DuraksHeadAt(doc, a).value;
    DuraksHeadAtSound(doc, a);
    var s, q :| DuraksHead(doc, a, s, q, o);
    var b := BracketEnd(doc, o).value;
    assert DuraksAt(doc, a).value.group == Span(o, b);
    assert DuraksMatch(doc, a, s, q, o, b);
  }

  /** Every match at `a` is found by the scanner, which ends at the same `]` or a later one on the line. */
  lemma DuraksAtComplete(doc: string, a: int, s: int, q: int, o: int, b: int)
    requires DuraksMatch(doc, a, s, q, o, b)
    ensures DuraksAt(doc, a).Some?
    ensures DuraksAt(doc, a).value.group.start == o && b <= DuraksAt(doc, a).value.group.end
  {
    DuraksHeadAtComplete(doc, a, s, q, o);
    BracketEndComplete(doc, o, b);
  }

  /** The extractor finds nothing exactly when the pattern matches nowhere in the document. */
  lemma StationJsonNoneIffNoMatch(doc: string)
    ensures ExtractStationJson(doc).None? <==> forall a, s, q, o, b :: !DuraksMatch(doc, a, s, q, o, b)
  {
    if ExtractStationJson(doc).None? {
      forall a, s, q, o, b | DuraksMatch(doc, a, s, q, o, b) ensures false {
        DuraksAtComplete(doc, a, s, q, o, b);
      }
    } else {
      var m := DuraksFrom(doc, 0).value;
      DuraksAtSound(doc, m.whole.start);
    }
  }

  /**
   * When the extractor finds the array, it is the capture of the leftmost
   * match, running from the `[` to the last `]` before the end of that line.
   */
  lemma StationJsonLeftmostGreedy(doc: string)
    requires ExtractStationJson(doc).Some?
    ensures exists a, s, q, o, b ::
      && DuraksMatch(doc, a, s, q, o, b)
      && ExtractStationJson(doc).value == doc[o..b]
      && (forall a', s', q', o', b' | DuraksMatch(doc, a', s', q', o', b') :: a <= a' && (a' == a ==> o' == o && b' <= b))
  {
    var m := DuraksFrom(doc, 0).value;
    var a, o, b := m.whole.start, m.group.start, m.group.end;
    DuraksAtSound(doc, a);
    var s, q :| DuraksMatch(doc, a, s, q, o, b);
    forall a', s', q', o', b' | DuraksMatch(doc, a', s', q', o', b')
      ensures a <= a' && (a' == a ==> o' == o && b' <= b)
    {
      DuraksAtComplete(doc, a', s', q', o', b');
    }
  }

  /** The array text starts with `[`, ends with `]`, and holds no line break. */
  lemma StationJsonShape(doc: string)
    requires ExtractStationJson(doc).Some?
    ensures var json := ExtractStationJson(doc).value;
      |json| >= 2 && json[0] == '[' && json[|json| - 1] == ']' && '\n' !in json
  {
    var m := DuraksFrom(doc, 0).value;
    assert DuraksAt(doc, m.whole.start) == Some(m);
    BracketedLine(doc, m.group.start, m.group.end);
  }

  lemma BracketedLine(doc: string, o: nat, b: nat)
    requires o + 1 < b <= |doc| && doc[o] == '[' && doc[b - 1] == ']'
    requires forall k | o < k < b :: doc[k] != '\n'
    ensures var json := doc[o..b];
      |json| >= 2 && json[0] == '[' && json[|json| - 1] == ']' && '\n' !in json
  {
    var json := doc[o..b];
    forall k | 0 <= k < |json| ensures json[k] != '\n' {
      assert json[k] == doc[o + k];
    }
  }
}
