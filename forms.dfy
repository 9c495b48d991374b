/** `UrlMappingForm`: the submission form's two fields and their bounds. */
module Forms {
  import opened Wrappers
  import opened Models
  import opened Collaborators
  import opened PyStr
  import opened Urls

  /** `form.cleaned_data`. */
  datatype FormData = FormData(longUrl: string, shortUrl: string)

  /**
   * `UrlMappingForm(data).is_valid()` and its `cleaned_data`: `long_url` is
   * a required URL field of at most 2048 characters; `short_url` is an
   * optional text field, stripped, of at most 32 characters and without a
   * NUL character (empty means "generate one").
   */
  function CleanMappingForm(rawLongUrl: string, rawShortUrl: string, urlField: string -> CleanResult): Option<FormData>
  {
    match urlField(rawLongUrl)
    case ValidationError => None
    case Cleaned(longUrl) =>
      if |longUrl| > MAX_LONG_URL_LENGTH then None
      else
        var shortUrl := Strip(rawShortUrl);
        if |shortUrl| > MAX_SHORT_URL_LENGTH || '\0' in shortUrl then None
        else Some(FormData(longUrl, shortUrl))
  }

  /** What the form accepts fits the model's fields. */
  lemma FormDataWithinFieldBounds(rawLongUrl: string, rawShortUrl: string, urlField: string -> CleanResult)
    ensures CleanMappingForm(rawLongUrl, rawShortUrl, urlField).Some? ==>
      var d := CleanMappingForm(rawLongUrl, rawShortUrl, urlField).value;
      WithinFieldBounds(NewRecord(d.longUrl, d.shortUrl)) && d.shortUrl == Strip(rawShortUrl) &&
      '\0' !in d.shortUrl
  {
  }

  /**
   * The form's `long_url` check is `is_valid_long_url`'s: it accepts a
   * submission exactly when the view's validator accepts the URL and the
   * stripped code fits 32 characters and holds no NUL. An empty code is
   * always accepted.
   */
  lemma FormAgreesWithLongUrlValidator(rawLongUrl: string, rawShortUrl: string, urlField: string -> CleanResult)
    ensures CleanMappingForm(rawLongUrl, rawShortUrl, urlField).Some? <==>
      IsValidLongUrl(rawLongUrl, urlField) && |Strip(rawShortUrl)| <= MAX_SHORT_URL_LENGTH &&
      '\0' !in Strip(rawShortUrl)
    ensures CleanMappingForm(rawLongUrl, "", urlField).Some? <==> IsValidLongUrl(rawLongUrl, urlField)
  {
    assert Strip("") == "";
  }
}
