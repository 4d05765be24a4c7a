/** The site both scripts scrape, and how they make an advisory href absolute. */
module Site {
  import opened Text

  const BaseUrl: string := "https://company.meralco.com.ph"

  /**
   * A href that does not start with "http" is taken as site-relative and prefixed with
   * the site's origin; any other href is kept. Either way the href survives as the tail
   * of the result, which always starts with "http".
   */
  function Normalize(href: string): (url: string)
    ensures StartsWith(url, "http")
    ensures |href| <= |url| && url[|url| - |href|..] == href
    ensures StartsWith(href, "http") ==> url == href
  {
    if StartsWith(href, "http") then href else BaseUrl + href
  }
}
