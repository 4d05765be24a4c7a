/** The listing-page scan that picks the latest rates advisory (`get_latest_rates_link`). */
module Links {
  import opened Wrappers
  import opened Text
  import opened Site

  /** An `<a>` element of the listing page that has an href: the href and the link's stripped text. */
  datatype Anchor = Anchor(href: string, text: string)

  /**
   * An anchor is kept when its href contains the advisories path (case-sensitive) and
   * "rates" occurs in the lower-cased href or in the lower-cased link text.
   */
  predicate IsRatesLink(a: Anchor)
  {
    Contains(a.href, "/news-and-advisories/")
    && (Contains(Lower(a.href), "rates") || Contains(Lower(a.text), "rates"))
  }

  /** The list the scan builds: the normalised href of every kept anchor, in document order. */
  function RateLinks(anchors: seq<Anchor>): seq<string>
  {
    if anchors == [] then []
    else (if IsRatesLink(anchors[0]) then [Normalize(anchors[0].href)] else []) + RateLinks(anchors[1..])
  }

  /** The scan's answer: the first entry of the list, or nothing when the list is empty. */
  function LatestRatesLink(anchors: seq<Anchor>): Option<string>
  {
    var links := RateLinks(anchors);
    if links != [] then Some(links[0]) else None
  }

  /** Scanning one more anchor appends at most its own link to the list. */
  lemma {:induction false} RateLinksAppend(anchors: seq<Anchor>, a: Anchor)
    ensures RateLinks(anchors + [a]) == RateLinks(anchors) + (if IsRatesLink(a) then [Normalize(a.href)] else [])
  {
    if anchors != [] {
      assert (anchors + [a])[1..] == anchors[1..] + [a];
      RateLinksAppend(anchors[1..], a);
    }
  }

  /** Every link in the list is absolute: it starts with "http". */
  lemma {:induction false} RateLinksAbsolute(anchors: seq<Anchor>)
    ensures forall k :: 0 <= k < |RateLinks(anchors)| ==> StartsWith(RateLinks(anchors)[k], "http")
  {
    if anchors != [] {
      RateLinksAbsolute(anchors[1..]);
    }
  }

  /**
   * The answer is the normalised href of the first kept anchor in document order, and it
   * is absent exactly when no anchor is kept.
   */
  lemma {:induction false} LatestIsFirstRatesLink(anchors: seq<Anchor>)
    ensures LatestRatesLink(anchors).None? <==> forall i :: 0 <= i < |anchors| ==> !IsRatesLink(anchors[i])
    ensures LatestRatesLink(anchors).Some? ==>
      exists i :: 0 <= i < |anchors| && IsRatesLink(anchors[i])
        && (forall j :: 0 <= j < i ==> !IsRatesLink(anchors[j]))
        && LatestRatesLink(anchors).value == Normalize(anchors[i].href)
    ensures LatestRatesLink(anchors).Some? ==> StartsWith(LatestRatesLink(anchors).value, "http")
  {
    if anchors != [] {
      LatestIsFirstRatesLink(anchors[1..]);
      if !IsRatesLink(anchors[0]) && LatestRatesLink(anchors).Some? {
        var i :| 0 <= i < |anchors| - 1 && IsRatesLink(anchors[1..][i])
          && (forall j :: 0 <= j < i ==> !IsRatesLink(anchors[1..][j]))
          && LatestRatesLink(anchors[1..]).value == Normalize(anchors[1..][i].href);
        assert IsRatesLink(anchors[i + 1]);
        assert forall j :: 0 <= j < i + 1 ==> !IsRatesLink(anchors[j]) by {
          forall j | 0 <= j < i + 1 ensures !IsRatesLink(anchors[j]) {
            if j > 0 {
              assert anchors[j] == anchors[1..][j - 1];
            }
          }
        }
      }
      if !IsRatesLink(anchors[0]) && LatestRatesLink(anchors).None? {
        forall i | 0 <= i < |anchors| ensures !IsRatesLink(anchors[i]) {
          if i > 0 {
            assert anchors[i] == anchors[1..][i - 1];
          }
        }
      }
    }
  }

  /** The loop over the anchors that collects the rates links, then the first one or nothing. */
  method GetLatestRatesLink(anchors: seq<Anchor>) returns (latest: Option<string>)
    ensures latest == LatestRatesLink(anchors)
  {
    var rateLinks: seq<string> := [];
    for i := 0 to |anchors|
      invariant rateLinks == RateLinks(anchors[..i])
    {
      var href := anchors[i].href;
      var linkText := anchors[i].text;
      if Contains(href, "/news-and-advisories/")
        && (Contains(Lower(href), "rates") || Contains(Lower(linkText), "rates"))
      {
        if !StartsWith(href, "http") {
          href := BaseUrl + href;
        }
        rateLinks := rateLinks + [href];
      }
      RateLinksAppend(anchors[..i], anchors[i]);
      assert anchors[..i + 1] == anchors[..i] + [anchors[i]];
    }
    assert anchors[..|anchors|] == anchors;
    if |rateLinks| > 0 {
      latest := Some(rateLinks[0]);
    } else {
      latest := None;
    }
  }
}
