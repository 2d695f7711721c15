/**
 * The not-found test of the chat route's `fetchData`: thirty checks of the
 * scraped title, headings and paragraphs against one list of signatures.
 * The title is searched for each signature as a SUBSTRING
 * (`String.prototype.includes`); headings and paragraphs are searched for an
 * element EQUAL to a signature (`Array.prototype.includes`).
 */
module NotFoundClassifier {
  import opened JsText

  /** The signatures, in the order the route tests them (the last one is
      listed twice there as well). */
  const Signatures: seq<string> := [
    "404", "Not Found", "Page Not Found", "Error", "Error 404",
    "404 Not Found", "404 Page Not Found", "404 Error",
    "404 Page Not Found Error", "404 Page Not Found Error"
  ]

  /** `title.includes(sig)` for some signature. */
  predicate TitleHit(title: string) {
    exists k | 0 <= k < |Signatures| :: Contains(title, Signatures[k])
  }

  /** `texts.includes(sig)` for some signature. */
  predicate ElementHit(texts: seq<string>) {
    exists k | 0 <= k < |Signatures| :: Signatures[k] in texts
  }

  /** The whole disjunction of the route: the page is reported as "404"
      exactly when the title contains "404", "Not Found" or "Error", or a
      heading or a paragraph equals a signature. */
  predicate IsNotFoundPage(title: string, headings: seq<string>, paragraphs: seq<string>)
    ensures IsNotFoundPage(title, headings, paragraphs) <==>
      Contains(title, "404") || Contains(title, "Not Found") || Contains(title, "Error")
      || (exists j | 0 <= j < |headings| :: headings[j] in Signatures)
      || (exists j | 0 <= j < |paragraphs| :: paragraphs[j] in Signatures)
  {
    TitleHitReduces(title);
    ElementHitExact(headings);
    ElementHitExact(paragraphs);
    TitleHit(title) || ElementHit(headings) || ElementHit(paragraphs)
  }

  /** Every signature contains "404", "Not Found" or "Error", so the ten
      title checks reduce to three. */
  lemma TitleHitReduces(title: string)
    ensures TitleHit(title) <==>
      Contains(title, "404") || Contains(title, "Not Found") || Contains(title, "Error")
  {
    if TitleHit(title) {
      var k :| 0 <= k < |Signatures| && Contains(title, Signatures[k]);
      var sig := Signatures[k];
      if sig == "Page Not Found" {
        assert StartsAt(sig, 5, "Not Found");
        ContainsTrans(title, sig, "Not Found");
      } else if sig == "Error 404" {
        assert StartsAt(sig, 0, "Error");
        ContainsTrans(title, sig, "Error");
      } else if sig in ["404 Not Found", "404 Page Not Found", "404 Error", "404 Page Not Found Error"] {
        assert StartsAt(sig, 0, "404");
        ContainsTrans(title, sig, "404");
      }
    }
    if Contains(title, "404") {
      assert Contains(title, Signatures[0]);
    } else if Contains(title, "Not Found") {
      assert Contains(title, Signatures[1]);
    } else if Contains(title, "Error") {
      assert Contains(title, Signatures[3]);
    }
  }

  /** Headings and paragraphs are matched exactly: some element must equal a
      signature, and an element that merely contains one does not count. */
  lemma ElementHitExact(texts: seq<string>)
    ensures ElementHit(texts) <==> exists j | 0 <= j < |texts| :: texts[j] in Signatures
  {
    if ElementHit(texts) {
      var k :| 0 <= k < |Signatures| && Signatures[k] in texts;
      var j :| 0 <= j < |texts| && texts[j] == Signatures[k];
      assert texts[j] in Signatures;
    }
  }

  /** A heading "Error 500" contains "Error" but equals no signature. */
  lemma HeadingSubstringIgnored()
    ensures !IsNotFoundPage("", ["Error 500"], [])
  {
    assert "Error 500" !in Signatures;
  }

  /** A paragraph that is exactly "Not Found" marks the page as not found,
      whatever the title. */
  lemma ParagraphExactTriggers(title: string, headings: seq<string>)
    ensures IsNotFoundPage(title, headings, ["Not Found"])
  {
    assert Signatures[1] in ["Not Found"];
  }

  /** A page titled "404 Not Found" is classified as not found. */
  lemma TitleFourOhFour(headings: seq<string>, paragraphs: seq<string>)
    ensures IsNotFoundPage("404 Not Found", headings, paragraphs)
  {
    assert StartsAt("404 Not Found", 0, Signatures[0]);
  }

  /** A page with an empty title, no headings and the single paragraph
      "The quick fox" is valid. */
  lemma QuickFoxValid()
    ensures !IsNotFoundPage("", [], ["The quick fox"])
  {
    assert "The quick fox" !in Signatures;
  }
}
