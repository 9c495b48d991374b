/**
 * The library calls the views make and whose code lies outside this model:
 * `urllib.parse.urlsplit`, `django.forms.URLField().clean`, the
 * `UrlRecordSerializer` validation and `random.sample`. Each is passed in as
 * a function value; the facts the proofs need about one are stated as a
 * predicate over that function.
 */
module Collaborators {
  import opened Models

  /** `urlsplit(url).netloc`, or the `ValueError` urlsplit raises (e.g. on an unbalanced `[` in the host). */
  datatype SplitResult = Parsed(netloc: string) | SplitFailed

  /** `URLField().clean(url)`: the cleaned URL, or the `ValidationError` it raises. */
  datatype CleanResult = Cleaned(url: string) | ValidationError

  /** `serializer.is_valid()` together with `validated_data['long_url']` and `['short_url']`. */
  datatype Validation = Validated(longUrl: string, shortUrl: string) | NotValid

  const HTTP_PREFIX: string := "http://"

  function WithHttp(rest: string): string
  {
    HTTP_PREFIX + rest
  }

  /** The characters that end a netloc in urlsplit, and the ones it deletes before parsing. */
  predicate EndsNetloc(c: char)
  {
    c == '/' || c == '?' || c == '#'
  }

  predicate DroppedBySplit(c: char)
  {
    c == '\t' || c == '\r' || c == '\n'
  }

  /**
   * Two facts about `urlsplit` on `"http://" + rest`. When `rest` is empty
   * or starts with `/`, `?` or `#`, the netloc is empty. When `rest` starts
   * with any other character that is not tab, CR or LF (which urlsplit
   * deletes first), the netloc is non-empty or urlsplit raises.
   */
  ghost predicate UrlSplitLaws(urlsplit: string -> SplitResult)
  {
    (forall rest :: rest != [] && !EndsNetloc(rest[0]) && !DroppedBySplit(rest[0]) ==>
       urlsplit(WithHttp(rest)) != Parsed([])) &&
    (forall rest :: (rest == [] || EndsNetloc(rest[0])) ==> urlsplit(WithHttp(rest)) == Parsed([]))
  }

  /**
   * The scheme check of `HttpResponseRedirect`: it accepts `http`, `https`
   * and `ftp` URLs (and URLs without a scheme). The one fact used here is
   * that every `"http://" + rest` is accepted.
   */
  ghost predicate RedirectSchemeLaws(allowsRedirect: string -> bool)
  {
    forall rest :: allowsRedirect(WithHttp(rest))
  }

  /** The model fields' `max_length` validators: what the serializer accepts fits in a row. */
  ghost predicate SerializerLaws(serializer: (string, string) -> Validation)
  {
    forall longUrl, shortUrl :: serializer(longUrl, shortUrl).Validated? ==>
      WithinFieldBounds(NewRecord(serializer(longUrl, shortUrl).longUrl, serializer(longUrl, shortUrl).shortUrl))
  }
}
