/**
 * The scraping half of the chat route's `fetchData`: the rendered document
 * (a flat sequence of elements in document order, as Cheerio walks it) is
 * searched with `$("title")`, `$("h1, h2, h3")`, `$("p")`, `$("a")` and
 * `$("div")`; texts and link targets are pushed into arrays one element at a
 * time; then the not-found test decides between "404" and the scraped page.
 */
module Scrape {
  import opened Wrappers
  import opened JsText
  import opened NotFoundClassifier

  datatype Tag = Title | H1 | H2 | H3 | P | A | Div | Other

  /** One element of the document: its tag, its text (Cheerio's `.text()`)
      and its `href` attribute (`.attr("href")`, absent as None). */
  datatype Element = Element(tag: Tag, text: string, href: Option<string>)

  /** What `fetchData` returns once the page has been parsed. */
  datatype FetchOutcome =
    | NotFound
    | Page(title: string, headings: seq<string>, paragraphs: seq<string>,
           links: seq<string>, divs: seq<string>)

  const HeadingTags: set<Tag> := {H1, H2, H3}

  predicate NoneSelected(doc: seq<Element>, sel: set<Tag>) {
    forall m | 0 <= m < |doc| :: doc[m].tag !in sel
  }

  predicate AllSelected(doc: seq<Element>, sel: set<Tag>) {
    forall m | 0 <= m < |doc| :: doc[m].tag in sel
  }

  /** Specification: the texts of the elements whose tag is selected, in
      document order. */
  function Selected(doc: seq<Element>, sel: set<Tag>): (r: seq<string>)
    ensures |r| <= |doc|
    ensures NoneSelected(doc, sel) ==> r == []
    ensures AllSelected(doc, sel) ==> |r| == |doc|
  {
    if doc == [] then []
    else (if doc[0].tag in sel then [doc[0].text] else []) + Selected(doc[1..], sel)
  }

  /** Specification: the `href` of every anchor whose `href` is truthy, in
      document order. */
  function Hrefs(doc: seq<Element>): (r: seq<string>)
    ensures |r| <= |doc|
    ensures forall k | 0 <= k < |r| :: r[k] != ""
  {
    if doc == [] then []
    else (if doc[0].tag == A && Truthy(doc[0].href) then [doc[0].href.value] else [])
         + Hrefs(doc[1..])
  }

  /** `.text()` of a selection: the texts of its elements, concatenated. */
  function Join(parts: seq<string>): (r: string) {
    if parts == [] then "" else parts[0] + Join(parts[1..])
  }

  /** `$("title").text()`: it contains the text of every title element, and
      is empty when the document has none. */
  function TitleText(doc: seq<Element>): (r: string)
    ensures forall k | 0 <= k < |doc| && doc[k].tag == Title :: Contains(r, doc[k].text)
    ensures NoneSelected(doc, {Title}) ==> r == ""
  {
    TitlesJoined(doc);
    Join(Selected(doc, {Title}))
  }

  /** The title text of a document split in two is the title text of the
      first part followed by that of the second. */
  lemma TitleTextAppend(a: seq<Element>, b: seq<Element>)
    ensures TitleText(a + b) == TitleText(a) + TitleText(b)
  {
    SelectedAppend(a, b, {Title});
    JoinAppend(Selected(a, {Title}), Selected(b, {Title}));
  }

  /** A single element contributes its own text when it is a title and
      nothing otherwise; with `TitleTextAppend` this fixes the value of
      `TitleText` on every document. */
  lemma TitleTextOne(e: Element)
    ensures TitleText([e]) == if e.tag == Title then e.text else ""
  {
    var x := if e.tag == Title then [e.text] else [];
    assert [e][1..] == [];
    assert Selected([e], {Title}) == x;
    assert Join(x) == if e.tag == Title then e.text else "" by {
      if e.tag == Title { assert x[1..] == []; }
    }
  }

  /** Specification of `fetchData` on a parsed document. */
  function Outcome(doc: seq<Element>): (r: FetchOutcome)
    ensures r.NotFound? <==>
      IsNotFoundPage(TitleText(doc), Selected(doc, HeadingTags), Selected(doc, {P}))
    ensures r.Page? ==>
      !Contains(r.title, "404") && !Contains(r.title, "Not Found") && !Contains(r.title, "Error")
    ensures r.Page? ==>
      (forall j | 0 <= j < |r.headings| :: r.headings[j] !in Signatures)
      && (forall j | 0 <= j < |r.paragraphs| :: r.paragraphs[j] !in Signatures)
    ensures r.Page? ==> forall j | 0 <= j < |r.links| :: r.links[j] != ""
    ensures r.Page? ==>
      r.title == TitleText(doc) && r.headings == Selected(doc, HeadingTags)
      && r.paragraphs == Selected(doc, {P}) && r.links == Hrefs(doc) && r.divs == Selected(doc, {Div})
  {
    var title := TitleText(doc);
    var headings := Selected(doc, HeadingTags);
    var paragraphs := Selected(doc, {P});
    if IsNotFoundPage(title, headings, paragraphs) then NotFound
    else Page(title, headings, paragraphs, Hrefs(doc), Selected(doc, {Div}))
  }

  /** Selection keeps document order: the texts of a document split in two
      are the texts of the first part followed by those of the second. */
  lemma {:induction false} SelectedAppend(a: seq<Element>, b: seq<Element>, sel: set<Tag>)
    ensures Selected(a + b, sel) == Selected(a, sel) + Selected(b, sel)
  {
    if a == [] {
      assert a + b == b;
    } else {
      assert (a + b)[0] == a[0];
      assert (a + b)[1..] == a[1..] + b;
      SelectedAppend(a[1..], b, sel);
      var h := if a[0].tag in sel then [a[0].text] else [];
      assert Selected(a + b, sel) == h + Selected(a[1..] + b, sel);
      assert Selected(a, sel) == h + Selected(a[1..], sel);
    }
  }

  /** Link collection keeps document order in the same way. */
  lemma {:induction false} HrefsAppend(a: seq<Element>, b: seq<Element>)
    ensures Hrefs(a + b) == Hrefs(a) + Hrefs(b)
  {
    if a == [] {
      assert a + b == b;
    } else {
      assert (a + b)[1..] == a[1..] + b;
      HrefsAppend(a[1..], b);
    }
  }

  /** A text is collected exactly when some selected element carries it. */
  lemma {:induction false} SelectedMember(doc: seq<Element>, sel: set<Tag>, t: string)
    ensures t in Selected(doc, sel) <==>
      exists k | 0 <= k < |doc| :: doc[k].tag in sel && doc[k].text == t
  {
    if doc != [] {
      SelectedMember(doc[1..], sel, t);
      if exists k | 0 <= k < |doc| :: doc[k].tag in sel && doc[k].text == t {
        var k :| 0 <= k < |doc| && doc[k].tag in sel && doc[k].text == t;
        if k > 0 { assert doc[1..][k - 1] == doc[k]; }
      }
      if exists k | 0 <= k < |doc[1..]| :: doc[1..][k].tag in sel && doc[1..][k].text == t {
        var k :| 0 <= k < |doc[1..]| && doc[1..][k].tag in sel && doc[1..][k].text == t;
        assert doc[k + 1] == doc[1..][k];
      }
    }
  }

  /** A link is collected exactly when some anchor has it as a present,
      non-empty `href`; no other element contributes and no such anchor is
      skipped. */
  lemma {:induction false} HrefsMember(doc: seq<Element>, h: string)
    ensures h in Hrefs(doc) <==>
      exists k | 0 <= k < |doc| :: doc[k].tag == A && doc[k].href == Some(h) && h != ""
  {
    if doc != [] {
      HrefsMember(doc[1..], h);
      if exists k | 0 <= k < |doc| :: doc[k].tag == A && doc[k].href == Some(h) && h != "" {
        var k :| 0 <= k < |doc| && doc[k].tag == A && doc[k].href == Some(h) && h != "";
        if k > 0 { assert doc[1..][k - 1] == doc[k]; }
      }
      if exists k | 0 <= k < |doc[1..]| :: doc[1..][k].tag == A && doc[1..][k].href == Some(h) && h != "" {
        var k :| 0 <= k < |doc[1..]| && doc[1..][k].tag == A && doc[1..][k].href == Some(h) && h != "";
        assert doc[k + 1] == doc[1..][k];
      }
    }
  }

  /** An element whose tag is not selected contributes nothing, wherever
      it stands. */
  lemma SelectedSkips(a: seq<Element>, e: Element, b: seq<Element>, sel: set<Tag>)
    requires e.tag !in sel
    ensures Selected(a + [e] + b, sel) == Selected(a + b, sel)
  {
    SelectedAppend(a + [e], b, sel);
    SelectedAppend(a, [e], sel);
    SelectedAppend(a, b, sel);
    assert Selected([e], sel) == [];
  }

  /** Divs, anchors and other elements never change the verdict: inserting
      one anywhere in the document leaves "404" or not as it was. */
  lemma VerdictIgnoresLinksAndDivs(a: seq<Element>, e: Element, b: seq<Element>)
    requires e.tag in {A, Div, Other}
    ensures Outcome(a + [e] + b).NotFound? == Outcome(a + b).NotFound?
  {
    SelectedSkips(a, e, b, {Title});
    SelectedSkips(a, e, b, HeadingTags);
    SelectedSkips(a, e, b, {P});
  }

  /** Joining distributes over concatenation of the parts. */
  lemma {:induction false} JoinAppend(x: seq<string>, y: seq<string>)
    ensures Join(x + y) == Join(x) + Join(y)
  {
    if x == [] {
      assert x + y == y;
    } else {
      assert (x + y)[1..] == x[1..] + y;
      JoinAppend(x[1..], y);
    }
  }

  /** Every title element's text occurs in the joined title text; with no
      title element the joined text is empty. */
  lemma TitlesJoined(doc: seq<Element>)
    ensures forall k | 0 <= k < |doc| && doc[k].tag == Title ::
      Contains(Join(Selected(doc, {Title})), doc[k].text)
    ensures NoneSelected(doc, {Title}) ==> Join(Selected(doc, {Title})) == ""
  {
    forall k | 0 <= k < |doc| && doc[k].tag == Title
      ensures Contains(Join(Selected(doc, {Title})), doc[k].text)
    {
      TitleJoinedAt(doc, k);
    }
  }

  lemma TitleJoinedAt(doc: seq<Element>, k: nat)
    requires k < |doc| && doc[k].tag == Title
    ensures Contains(Join(Selected(doc, {Title})), doc[k].text)
  {
    var a, e, b := doc[..k], doc[k], doc[k + 1..];
    assert doc == a + [e] + b;
    SelectedAround(a, e, b, {Title});
    var x, y := Selected(a, {Title}), Selected(b, {Title});
    JoinAround(x, e.text, y);
    ContainsSelf(e.text);
    ContainsInContext(Join(x), e.text, Join(y), e.text);
  }

  lemma SelectedAround(a: seq<Element>, e: Element, b: seq<Element>, sel: set<Tag>)
    requires e.tag in sel
    ensures Selected(a + [e] + b, sel) == Selected(a, sel) + [e.text] + Selected(b, sel)
  {
    SelectedAppend(a + [e], b, sel);
    SelectedAppend(a, [e], sel);
  }

  lemma JoinAround(x: seq<string>, t: string, y: seq<string>)
    ensures Join(x + [t] + y) == Join(x) + t + Join(y)
  {
    JoinAppend(x + [t], y);
    JoinAppend(x, [t]);
    assert Join([t]) == t + Join([]);
    assert t + Join([]) == t;
  }

  /** A title element whose text contains a signature makes the page
      "404", wherever it stands and whatever else the document holds:
      `$("title").text()` joins the texts of all title elements. */
  lemma TitleElementSignature(a: seq<Element>, e: Element, b: seq<Element>, k: nat)
    requires e.tag == Title && k < |Signatures| && Contains(e.text, Signatures[k])
    ensures Outcome(a + [e] + b) == NotFound
  {
    var doc := a + [e] + b;
    assert doc[|a|] == e;
    assert Contains(TitleText(doc), e.text);
    ContainsTrans(TitleText(doc), e.text, Signatures[k]);
    assert TitleHit(TitleText(doc));
  }

  /** The `.each(... push ...)` loop of `$(selector)`: collects the texts of
      the selected elements in document order. */
  method CollectTexts(doc: seq<Element>, sel: set<Tag>) returns (texts: seq<string>)
    ensures texts == Selected(doc, sel)
  {
    texts := [];
    var i := 0;
    while i < |doc|
      invariant 0 <= i <= |doc|
      invariant texts == Selected(doc[..i], sel)
    {
      SelectedAppend(doc[..i], [doc[i]], sel);
      assert doc[..i + 1] == doc[..i] + [doc[i]];
      if doc[i].tag in sel {
        texts := texts + [doc[i].text];
      }
      i := i + 1;
    }
    assert doc[..i] == doc;
  }

  /** The `$("a").each` loop: pushes each anchor's `href` when it is truthy. */
  method CollectLinks(doc: seq<Element>) returns (links: seq<string>)
    ensures links == Hrefs(doc)
  {
    links := [];
    var i := 0;
    while i < |doc|
      invariant 0 <= i <= |doc|
      invariant links == Hrefs(doc[..i])
    {
      HrefsAppend(doc[..i], [doc[i]]);
      assert doc[..i + 1] == doc[..i] + [doc[i]];
      if doc[i].tag == A {
        var href := doc[i].href;
        if href.Some? && href.value != "" {
          links := links + [href.value];
        }
      }
      i := i + 1;
    }
    assert doc[..i] == doc;
  }

  /** `fetchData` after navigation: collects the five selections, then
      returns "404" when the signals say so and the scraped page otherwise. */
  method FetchData(doc: seq<Element>) returns (r: FetchOutcome)
    ensures r == Outcome(doc)
  {
    var titles := CollectTexts(doc, {Title});
    var title := Join(titles);
    var headings := CollectTexts(doc, HeadingTags);
    var paragraphs := CollectTexts(doc, {P});
    var links := CollectLinks(doc);
    var divs := CollectTexts(doc, {Div});
    if IsNotFoundPage(title, headings, paragraphs) {
      r := NotFound;
    } else {
      r := Page(title, headings, paragraphs, links, divs);
    }
  }
}
