/** The long-URL side of the views: `convert_to_absolute_url` and `is_valid_long_url`. */
module Urls {
  import opened Models
  import opened Collaborators

  /**
   * `convert_to_absolute_url(url)`: a URL whose split has a netloc is kept,
   * any other gets `http://` in front, and a URL urlsplit cannot parse is
   * returned as it is (the bare `except`).
   */
  function ConvertToAbsoluteUrl(url: string, urlsplit: string -> SplitResult): string
  {
    match urlsplit(url)
    case SplitFailed => url
    case Parsed(netloc) => if netloc != [] then url else WithHttp(url)
  }

  /** The normaliser changes nothing, or adds exactly the `http://` prefix. */
  lemma NormaliserOnlyPrefixes(url: string, urlsplit: string -> SplitResult)
    ensures ConvertToAbsoluteUrl(url, urlsplit) == url <==> urlsplit(url) != Parsed([])
    ensures ConvertToAbsoluteUrl(url, urlsplit) != url ==> ConvertToAbsoluteUrl(url, urlsplit) == HTTP_PREFIX + url
  {
    assert |WithHttp(url)| > |url|;
  }

  /**
   * Normalising twice gives the same as normalising once exactly when the
   * once-normalised URL itself has a netloc or cannot be split.
   */
  lemma NormaliseTwiceIffFixedPoint(url: string, urlsplit: string -> SplitResult)
    ensures var once := ConvertToAbsoluteUrl(url, urlsplit);
      ConvertToAbsoluteUrl(once, urlsplit) == once <==> urlsplit(once) != Parsed([])
  {
    NormaliserOnlyPrefixes(ConvertToAbsoluteUrl(url, urlsplit), urlsplit);
  }

  /**
   * Idempotence on the inputs where it holds: any URL that is not empty and
   * does not start with `/`, `?`, `#` or a character urlsplit deletes.
   */
  lemma NormaliserIdempotent(url: string, urlsplit: string -> SplitResult)
    requires UrlSplitLaws(urlsplit)
    requires url != [] && !EndsNetloc(url[0]) && !DroppedBySplit(url[0])
    ensures ConvertToAbsoluteUrl(ConvertToAbsoluteUrl(url, urlsplit), urlsplit) == ConvertToAbsoluteUrl(url, urlsplit)
  {
    NormaliseTwiceIffFixedPoint(url, urlsplit);
    if urlsplit(url) == Parsed([]) {
      assert urlsplit(WithHttp(url)) != Parsed([]);
    }
  }

  /**
   * Idempotence is not universal: the empty URL and paths, queries and
   * fragments without a host become `http:///...`, `http://?...`, `http://#...`,
   * which have no netloc either, so a second pass prefixes again.
   */
  lemma NormaliserNotIdempotentWithoutHost(url: string, urlsplit: string -> SplitResult)
    requires UrlSplitLaws(urlsplit)
    requires url == [] || EndsNetloc(url[0])
    requires urlsplit(url) == Parsed([])
    ensures ConvertToAbsoluteUrl(url, urlsplit) == HTTP_PREFIX + url
    ensures ConvertToAbsoluteUrl(ConvertToAbsoluteUrl(url, urlsplit), urlsplit) == HTTP_PREFIX + HTTP_PREFIX + url
  {
    assert urlsplit(WithHttp(url)) == Parsed([]);
  }

  /** A URL already starting `http://` and a host is kept as it is (`http://w3.org` stays). */
  lemma NormaliserKeepsHttpUrls(rest: string, urlsplit: string -> SplitResult)
    requires UrlSplitLaws(urlsplit)
    requires rest != [] && !EndsNetloc(rest[0]) && !DroppedBySplit(rest[0])
    ensures ConvertToAbsoluteUrl(HTTP_PREFIX + rest, urlsplit) == HTTP_PREFIX + rest
  {
    assert urlsplit(WithHttp(rest)) != Parsed([]);
  }

  /** `is_valid_long_url(url)`: URLField accepts it and the cleaned URL has at most 2048 characters. */
  predicate IsValidLongUrl(url: string, urlField: string -> CleanResult)
  {
    match urlField(url)
    case ValidationError => false
    case Cleaned(cleaned) => |cleaned| <= MAX_LONG_URL_LENGTH
  }

  /**
   * The length bound applies to the cleaned URL: when URLField does not
   * shorten the URL (it may keep it, add a scheme or reject it), a valid
   * URL fits in 2048 characters and a longer one is refused.
   */
  lemma LongUrlLengthBound(url: string, urlField: string -> CleanResult)
    requires urlField(url).Cleaned? ==> |urlField(url).url| >= |url|
    ensures IsValidLongUrl(url, urlField) ==> |url| <= MAX_LONG_URL_LENGTH
    ensures |url| > MAX_LONG_URL_LENGTH ==> !IsValidLongUrl(url, urlField)
  {
  }

  /** `'http://www.' + '0' * 3000 + '.com'` is rejected unless URLField shortens it. */
  lemma OverlongUrlRejected(urlField: string -> CleanResult)
    requires var u := "http://www." + seq(3000, _ => '0') + ".com";
      urlField(u).Cleaned? ==> |urlField(u).url| >= |u|
    ensures !IsValidLongUrl("http://www." + seq(3000, _ => '0') + ".com", urlField)
  {
    LongUrlLengthBound("http://www." + seq(3000, _ => '0') + ".com", urlField);
  }
}
