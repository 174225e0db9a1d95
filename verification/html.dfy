/**
 * The two selector-based extractors. A document is taken as already parsed:
 * the list of its elements in document order, each with its tag name, its
 * attributes, and the text nodes below it in order.
 */
module Html {
  import opened Wrappers
  import opened Text
  import opened Model

  datatype Element = Element(name: string, attrs: seq<(string, string)>, texts: seq<string>)

  /** `ElementRef::attr`: the value of the first attribute with that name. */
  function Attr(e: Element, key: string): (r: Option<string>)
    ensures r.Some? <==> exists i | 0 <= i < |e.attrs| :: e.attrs[i].0 == key
    ensures r.Some? ==> exists i | 0 <= i < |e.attrs| ::
      e.attrs[i] == (key, r.value) && forall j | 0 <= j < i :: e.attrs[j].0 != key
  {
    AttrIn(e.attrs, key)
  }

  function AttrIn(attrs: seq<(string, string)>, key: string): (r: Option<string>)
    ensures r.Some? <==> exists i | 0 <= i < |attrs| :: attrs[i].0 == key
    ensures r.Some? ==> exists i | 0 <= i < |attrs| ::
      attrs[i] == (key, r.value) && forall j | 0 <= j < i :: attrs[j].0 != key
  {
    if attrs == [] then None
    else if attrs[0].0 == key then Some(attrs[0].1)
    else
      var r := AttrIn(attrs[1..], key);
      assert forall i | 0 <= i < |attrs| - 1 :: attrs[1..][i] == attrs[i + 1];
      if r.Some? then
        var k :| 0 <= k < |attrs| - 1 && attrs[1..][k] == (key, r.value)
                 && forall j | 0 <= j < k :: attrs[1..][j].0 != key;
        assert attrs[k + 1] == (key, r.value) && forall j | 0 <= j < k + 1 :: attrs[j].0 != key;
        r
      else r
  }

  // ===========================================================================
  // `extract_token`

  /** Selected by `input[name="__RequestVerificationToken"]`. */
  predicate IsTokenInput(e: Element) {
    e.name == "input" && Attr(e, "name") == Some("__RequestVerificationToken")
  }

  /** The `value` of the first selected input; `None` when there is no such input or it has no `value`. */
  function ExtractToken(doc: seq<Element>): Option<string> {
    if doc == [] then None
    else if IsTokenInput(doc[0]) then Attr(doc[0], "value")
    else ExtractToken(doc[1..])
  }

  /** The token is the `value` of the first token input, whatever the inputs after it hold. */
  lemma {:induction false} TokenOfFirstInput(doc: seq<Element>, i: nat)
    requires i < |doc| && IsTokenInput(doc[i])
    requires forall j | 0 <= j < i :: !IsTokenInput(doc[j])
    ensures ExtractToken(doc) == Attr(doc[i], "value")
  {
    if i > 0 {
      assert doc[1..][i - 1] == doc[i];
      TokenOfFirstInput(doc[1..], i - 1);
    }
  }

  /** Without a token input there is no token. */
  lemma {:induction false} NoTokenInput(doc: seq<Element>)
    requires forall j | 0 <= j < |doc| :: !IsTokenInput(doc[j])
    ensures ExtractToken(doc) == None
  {
    if doc != [] {
      NoTokenInput(doc[1..]);
    }
  }

  /** A token input without a `value` hides every later one: the result is `None`. */
  lemma FirstInputWithoutValue(before: seq<Element>, input: Element, after: seq<Element>)
    requires forall j | 0 <= j < |before| :: !IsTokenInput(before[j])
    requires IsTokenInput(input) && Attr(input, "value").None?
    ensures ExtractToken(before + [input] + after) == None
  {
    var doc := before + [input] + after;
    assert doc[|before|] == input;
    TokenOfFirstInput(doc, |before|);
  }

  // ===========================================================================
  // `extract_lines`

  /** Selected by `a[href^="/hat/"]`. */
  predicate IsLineAnchor(e: Element) {
    e.name == "a" && Attr(e, "href").Some? && StartsWith(Attr(e, "href").value, "/hat/")
  }

  /**
   * The `filter_map` closure: the id is the text after the last `/` of the
   * link, the name is the first text node trimmed; no text node, no line.
   */
  function LineOf(e: Element): Option<Line> {
    match Attr(e, "href")
    case None => None
    case Some(href) =>
      if e.texts == [] then None
      else Some(Line(LastSegment(href), Trim(e.texts[0])))
  }

  /** What the selector and the closure together make of one element. */
  function Select(e: Element): Option<Line> {
    if IsLineAnchor(e) then LineOf(e) else None
  }

  function ExtractLines(doc: seq<Element>): seq<Line> {
    FilterMap(doc, Select)
  }

  /** A selected anchor yields a line exactly when it has a text node. */
  lemma SelectIffAnchorWithText(e: Element)
    ensures Select(e).Some? <==> IsLineAnchor(e) && e.texts != []
  {
  }

  /** The line of an anchor: its id is the last segment of the link, and the name is the first text trimmed. */
  lemma LineOfAnchor(e: Element, href: string)
    requires e.name == "a" && e.texts != [] && Attr(e, "href") == Some(href) && StartsWith(href, "/hat/")
    ensures var id := Select(e).value.id;
      '/' !in id && |id| < |href| && id == href[|href| - |id|..] && href[|href| - |id| - 1] == '/'
    ensures Select(e).value.humanName == Trim(e.texts[0])
  {
    var id := LastSegment(href);
    assert Select(e) == Some(Line(id, Trim(e.texts[0])));
    assert href[0] == href[..5][0] == '/';
  }

  /**
   * The line of a usable anchor stands at the position given by the number of
   * usable anchors before it: lines keep the document order.
   */
  lemma ExtractLinesAt(doc: seq<Element>, i: nat)
    requires i < |doc| && IsLineAnchor(doc[i]) && doc[i].texts != []
    ensures Count(doc[..i], Select) < |ExtractLines(doc)|
    ensures ExtractLines(doc)[Count(doc[..i], Select)] == Select(doc[i]).value
  {
    FilterMapAt(doc, Select, i);
  }

  /** Lines are extracted from each part of a document independently. */
  lemma ExtractLinesConcat(a: seq<Element>, b: seq<Element>)
    ensures ExtractLines(a + b) == ExtractLines(a) + ExtractLines(b)
  {
    FilterMapConcat(a, b, Select);
  }

  /** An anchor without text is skipped without affecting the other lines. */
  lemma TextlessAnchorSkipped(before: seq<Element>, e: Element, after: seq<Element>)
    requires e.texts == []
    ensures ExtractLines(before + [e] + after) == ExtractLines(before) + ExtractLines(after)
  {
    FilterMapConcat(before + [e], after, Select);
    FilterMapConcat(before, [e], Select);
    assert FilterMap([e], Select) == [] by {
      assert [e][1..] == [];
    }
  }

  // ===========================================================================
  // `Iterator::filter_map` on a sequence

  function FilterMap<A, B>(xs: seq<A>, f: A -> Option<B>): seq<B> {
    if xs == [] then []
    else (if f(xs[0]).Some? then [f(xs[0]).value] else []) + FilterMap(xs[1..], f)
  }

  /** How many elements `f` keeps. */
  function Count<A, B>(xs: seq<A>, f: A -> Option<B>): nat {
    if xs == [] then 0 else (if f(xs[0]).Some? then 1 else 0) + Count(xs[1..], f)
  }

  lemma {:induction false} FilterMapConcat<A, B>(a: seq<A>, b: seq<A>, f: A -> Option<B>)
    ensures FilterMap(a + b, f) == FilterMap(a, f) + FilterMap(b, f)
  {
    if a != [] {
      assert (a + b)[1..] == a[1..] + b;
      FilterMapConcat(a[1..], b, f);
    } else {
      assert a + b == b;
    }
  }

  /** One output per kept element. */
  lemma {:induction false} FilterMapLength<A, B>(xs: seq<A>, f: A -> Option<B>)
    ensures |FilterMap(xs, f)| == Count(xs, f)
  {
    if xs != [] {
      FilterMapLength(xs[1..], f);
    }
  }

  /** A kept element lands after the outputs of the elements before it. */
  lemma FilterMapAt<A, B>(xs: seq<A>, f: A -> Option<B>, i: nat)
    requires i < |xs| && f(xs[i]).Some?
    ensures Count(xs[..i], f) < |FilterMap(xs, f)|
    ensures FilterMap(xs, f)[Count(xs[..i], f)] == f(xs[i]).value
  {
    var before, rest := xs[..i], xs[i..];
    assert xs == before + rest;
    FilterMapConcat(before, rest, f);
    FilterMapLength(before, f);
    assert FilterMap(rest, f)[0] == f(xs[i]).value by {
      assert rest[0] == xs[i];
    }
  }
}
