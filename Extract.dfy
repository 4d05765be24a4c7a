/**
 * Reading one advisory page (`extract_rate_and_date`): the rate from the page's flattened
 * text, and the published date from the text, else the `article:published_time` meta tag,
 * else the first `<time>` tag.
 */
module Extract {
  import opened Wrappers
  import opened Patterns

  /** The first `<time>` element: its `datetime` attribute, if present, and its stripped text. */
  datatype TimeTag = TimeTag(datetime: Option<string>, text: string)

  /**
   * A fetched advisory page as the extractor sees it: the visible text joined with single
   * spaces, the first `article:published_time` meta tag (present or not, and its `content`
   * attribute, present or not), and the first `<time>` tag.
   */
  datatype Page = Page(text: string, publishedMeta: Option<Option<string>>, time: Option<TimeTag>)

  /** Python truthiness of an optional string: present and non-empty. */
  predicate Truthy(s: Option<string>)
  {
    s.Some? && s.value != []
  }

  /** The published date: a date found in the text, else the meta tag's content, else the time tag. */
  function PublishedDateOf(page: Page): Option<string>
  {
    var fromText := FirstMatch(DatePatterns, page.text);
    if Truthy(fromText) then fromText
    else
      match page.publishedMeta
      case Some(content) => content
      case None =>
        match page.time
        case Some(tag) => Some(if Truthy(tag.datetime) then tag.datetime.value else tag.text)
        case None => fromText
  }

  /** A date found in the text wins, and then neither the meta tag nor the time tag is looked at. */
  lemma TextDateWins(page: Page, meta: Option<Option<string>>, time: Option<TimeTag>)
    requires FirstMatch(DatePatterns, page.text).Some?
    ensures PublishedDateOf(page) == FirstMatch(DatePatterns, page.text)
    ensures PublishedDateOf(page.(publishedMeta := meta, time := time)) == PublishedDateOf(page)
  {
    TextDateFoundIff(page.text);
  }

  /** Without a date in the text, a present meta tag decides, whatever the time tag holds. */
  lemma MetaBeforeTimeTag(page: Page, time: Option<TimeTag>)
    requires FirstMatch(DatePatterns, page.text).None? && page.publishedMeta.Some?
    ensures PublishedDateOf(page) == page.publishedMeta.value
    ensures PublishedDateOf(page.(time := time)) == PublishedDateOf(page)
  {
  }

  /**
   * No published date comes out exactly when neither unlabelled date pattern matches the text
   * and either the meta tag is present without a `content` attribute, or both tags are missing.
   */
  lemma PublishedDateAbsent(page: Page)
    ensures PublishedDateOf(page).None? <==>
      Search(DayMonthYear, page.text).None? && Search(MonthDayYear, page.text).None?
      && (page.publishedMeta == Some(None) || (page.publishedMeta.None? && page.time.None?))
  {
    TextDateFoundIff(page.text);
  }

  /**
   * The two loops over the rate patterns and the date patterns, each stopping at the first
   * pattern that matches, then the meta-tag and time-tag fallbacks.
   */
  method ExtractRateAndDate(page: Page) returns (rate: Option<string>, publishedDate: Option<string>)
    ensures rate == FirstMatch(RatePatterns, page.text)
    ensures publishedDate == PublishedDateOf(page)
  {
    var text := page.text;
    ghost var rateSearches := Searches(RatePatterns, text);
    rate := None;
    for i := 0 to |RatePatterns|
      invariant rate.None?
      invariant FirstPresentFrom(rateSearches, i) == FirstPresentFrom(rateSearches, 0)
    {
      var found := Search(RatePatterns[i], text);
      if found.Some? {
        rate := found;
        break;
      }
    }

    ghost var dateSearches := Searches(DatePatterns, text);
    publishedDate := None;
    for i := 0 to |DatePatterns|
      invariant publishedDate.None?
      invariant FirstPresentFrom(dateSearches, i) == FirstPresentFrom(dateSearches, 0)
    {
      var found := Search(DatePatterns[i], text);
      if found.Some? {
        publishedDate := found;
        break;
      }
    }

    if !Truthy(publishedDate) {
      match page.publishedMeta
      case Some(content) =>
        publishedDate := content;
      case None =>
        match page.time
        case Some(tag) =>
          publishedDate := Some(if Truthy(tag.datetime) then tag.datetime.value else tag.text);
        case None =>
    }
  }
}
