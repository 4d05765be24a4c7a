/**
 * The listing-page scan of the scraping script: every `<h4>` title that mentions a rate and
 * sits in a `<div>` whose first link is an advisory becomes a record with the advisory url,
 * the title, and the month and year read off the title and url.
 */
module Scrape {
  import opened Wrappers
  import opened Text
  import opened Site
  import opened Patterns

  /** The month names in the order the script tries them. */
  const Months: seq<string> :=
    ["january", "february", "march", "april", "may", "june",
     "july", "august", "september", "october", "november", "december"]

  /** The enclosing `<div>` of a title: the href of its first `<a>` that has one, if any. */
  datatype Div = Div(firstLink: Option<string>)

  /** An `<h4>` of the listing page: its stripped text and its enclosing `<div>`, if any. */
  datatype Heading = Heading(text: string, parentDiv: Option<Div>)

  /** One record of the script's output list. */
  datatype RateLink = RateLink(url: string, title: string, month: Option<string>, year: Option<nat>)

  /**
   * A title yields a record when "rate" occurs in its lower-cased text, it has an enclosing
   * div, and that div's first href-bearing link contains the advisories path.
   */
  predicate IsRateTitle(h: Heading)
  {
    Contains(Lower(h.text), "rate")
    && h.parentDiv.Some? && h.parentDiv.value.firstLink.Some?
    && Contains(h.parentDiv.value.firstLink.value, "/news-and-advisories/")
  }

  /** The `k`-th month name occurs in the lower-cased title or the lower-cased url. */
  predicate MonthOccurs(k: nat, title: string, url: string)
    requires k < |Months|
  {
    Contains(Lower(title), Months[k]) || Contains(Lower(url), Months[k])
  }

  /** What the month loop would keep at each step: the capitalised name if it occurs. */
  function MonthAttempts(title: string, url: string): (rs: seq<Option<string>>)
    ensures |rs| == |Months|
  {
    seq(|Months|, k requires 0 <= k < |Months| =>
      if MonthOccurs(k, title, url) then Some(Capitalize(Months[k])) else None)
  }

  /** The month the loop keeps: the first name in January-to-December order that occurs. */
  function MonthOf(title: string, url: string): Option<string>
  {
    FirstPresent(MonthAttempts(title, url))
  }

  /**
   * The month is the capitalised first name in list order that occurs in the title or url,
   * whatever its position in the text; it is absent exactly when no month name occurs.
   */
  lemma MonthIsFirstInListOrder(title: string, url: string)
    ensures MonthOf(title, url).None? <==> forall k :: 0 <= k < |Months| ==> !MonthOccurs(k, title, url)
    ensures MonthOf(title, url).Some? ==>
      exists k :: 0 <= k < |Months| && MonthOccurs(k, title, url)
        && (forall j :: 0 <= j < k ==> !MonthOccurs(j, title, url))
        && MonthOf(title, url).value == Capitalize(Months[k])
  {
    var rs := MonthAttempts(title, url);
    assert forall k :: 0 <= k < |Months| ==> (rs[k].Some? <==> MonthOccurs(k, title, url));
    var r := FirstPresentFrom(rs, 0);
    if r.Some? {
      assert MonthOf(title, url).value == Capitalize(Months[r.value]);
    }
  }

  /** A title that names January yields "January", even when another month appears before it. */
  lemma JanuaryComesFirst(title: string, url: string)
    requires Contains(Lower(title), "january")
    ensures MonthOf(title, url) == Some("January")
  {
    var rs := MonthAttempts(title, url);
    assert MonthOccurs(0, title, url);
    assert "january"[1..] == "anuary" && Lower("anuary") == "anuary" && UpperChar('j') == 'J';
    assert Capitalize(Months[0]) == "January";
  }

  /** The loop over the month names with `break`. */
  method InferMonth(title: string, url: string) returns (month: Option<string>)
    ensures month == MonthOf(title, url)
  {
    ghost var attempts := MonthAttempts(title, url);
    month := None;
    for k := 0 to |Months|
      invariant month.None?
      invariant FirstPresentFrom(attempts, k) == FirstPresentFrom(attempts, 0)
    {
      var m := Months[k];
      if Contains(Lower(title), m) || Contains(Lower(url), m) {
        month := Some(Capitalize(m));
        break;
      }
    }
  }

  /** "20" followed by two digits at position `i`. */
  predicate YearAt(s: string, i: nat)
  {
    i + 4 <= |s| && s[i] == '2' && s[i + 1] == '0' && IsDigit(s[i + 2]) && IsDigit(s[i + 3])
  }

  /** The integer value of the four characters at `i`. */
  function YearValue(s: string, i: nat): nat
    requires YearAt(s, i)
  {
    2000 + 10 * DigitValue(s[i + 2]) + DigitValue(s[i + 3])
  }

  function YearAttempts(s: string): (rs: seq<Option<nat>>)
    ensures |rs| == |s|
  {
    seq(|s|, i requires 0 <= i < |s| => if YearAt(s, i) then Some(YearValue(s, i)) else None)
  }

  /** The value of the leftmost "20dd" in `s`. */
  function FirstYear(s: string): Option<nat>
  {
    FirstPresent(YearAttempts(s))
  }

  /** The year is the value of the leftmost "20dd" token, so it lies in 2000..2099; it is absent exactly when there is no such token. */
  lemma YearIsFirstToken(s: string)
    ensures FirstYear(s).None? <==> forall i :: 0 <= i < |s| ==> !YearAt(s, i)
    ensures FirstYear(s).Some? ==> 2000 <= FirstYear(s).value <= 2099
    ensures FirstYear(s).Some? ==>
      exists i :: 0 <= i < |s| && YearAt(s, i) && FirstYear(s).value == YearValue(s, i)
        && forall j :: 0 <= j < i ==> !YearAt(s, j)
  {
    var rs := YearAttempts(s);
    assert forall i :: 0 <= i < |s| ==> (rs[i].Some? <==> YearAt(s, i));
    var r := FirstPresentFrom(rs, 0);
    if r.Some? {
      assert FirstYear(s).value == YearValue(s, r.value);
    }
  }

  /** The record a qualifying title yields. */
  function RecordOf(h: Heading): RateLink
    requires IsRateTitle(h)
  {
    var url := Normalize(h.parentDiv.value.firstLink.value);
    RateLink(url, h.text, MonthOf(h.text, url), FirstYear(h.text + url))
  }

  /** The output list: one record per qualifying title, in document order, duplicates kept. */
  function RateLinksOf(headings: seq<Heading>): seq<RateLink>
  {
    if headings == [] then []
    else (if IsRateTitle(headings[0]) then [RecordOf(headings[0])] else []) + RateLinksOf(headings[1..])
  }

  /** The list for two runs of titles is the list for the first followed by the list for the second. */
  lemma {:induction false} RateLinksOfConcat(a: seq<Heading>, b: seq<Heading>)
    ensures RateLinksOf(a + b) == RateLinksOf(a) + RateLinksOf(b)
  {
    if a != [] {
      assert (a + b)[0] == a[0] && (a + b)[1..] == a[1..] + b;
      var head := if IsRateTitle(a[0]) then [RecordOf(a[0])] else [];
      assert RateLinksOf(a + b) == head + RateLinksOf(a[1..] + b);
      RateLinksOfConcat(a[1..], b);
    } else {
      assert a + b == b;
    }
  }

  /** Nothing is deduplicated: listing the same titles twice lists every record twice. */
  lemma NoDeduplication(headings: seq<Heading>)
    ensures RateLinksOf(headings + headings) == RateLinksOf(headings) + RateLinksOf(headings)
    ensures |RateLinksOf(headings + headings)| == 2 * |RateLinksOf(headings)|
  {
    RateLinksOfConcat(headings, headings);
  }

  /** Every record's url is absolute, and its title is the text of a qualifying heading. */
  lemma {:induction false} RecordsAreAbsolute(headings: seq<Heading>)
    ensures forall r :: r in RateLinksOf(headings) ==> StartsWith(r.url, "http")
    ensures forall r :: r in RateLinksOf(headings) ==>
      exists h :: h in headings && IsRateTitle(h) && r == RecordOf(h) && r.title == h.text
  {
    if headings != [] {
      RecordsAreAbsolute(headings[1..]);
      forall r | r in RateLinksOf(headings)
        ensures exists h :: h in headings && IsRateTitle(h) && r == RecordOf(h) && r.title == h.text
      {
        if r !in RateLinksOf(headings[1..]) {
          assert r == RecordOf(headings[0]);
        } else {
          var h :| h in headings[1..] && IsRateTitle(h) && r == RecordOf(h) && r.title == h.text;
          assert h in headings;
        }
      }
    }
  }

  /** The script's loop over the `<h4>` titles, appending one record per qualifying title. */
  method ScrapeRateLinks(headings: seq<Heading>) returns (rateLinks: seq<RateLink>)
    ensures rateLinks == RateLinksOf(headings)
  {
    rateLinks := [];
    for i := 0 to |headings|
      invariant rateLinks == RateLinksOf(headings[..i])
    {
      var h := headings[i];
      var text := h.text;
      if Contains(Lower(text), "rate") {
        if h.parentDiv.Some? {
          var link := h.parentDiv.value.firstLink;
          if link.Some? && Contains(link.value, "/news-and-advisories/") {
            var href := link.value;
            if !StartsWith(href, "http") {
              href := BaseUrl + href;
            }
            var month := InferMonth(text, href);
            var year := FirstYear(text + href);
            rateLinks := rateLinks + [RateLink(href, text, month, year)];
          }
        }
      }
      RateLinksOfConcat(headings[..i], [h]);
      assert headings[..i + 1] == headings[..i] + [h];
    }
    assert headings[..|headings|] == headings;
  }
}
