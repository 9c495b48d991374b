# URL shortener: short-code engine

A Dafny model of the short-code engine of a Django URL shortener
(`urlshortener/views.py` over the `UrlRecord` model of
`urlshortener/models.py`). A record maps a short code (`short_url`) to a
long URL (`long_url`) and counts its visits (`visit_count`).

- `Models`: the record, the field bounds (`MAX_LONG_URL_LENGTH = 2048`,
  `MAX_SHORT_URL_LENGTH = 32`), the default count 0, and the store
  `UrlRecord.objects` as a class over a sequence of records. `short_url` is
  not declared unique, so the store can hold duplicates, and
  `objects.get(short_url=...)` has three outcomes: none, one, several.
- `Urls`: `convert_to_absolute_url`, which prepends `http://` when urlsplit
  finds no netloc and returns the input unchanged if urlsplit raises, and
  `is_valid_long_url` (URLField check plus the 2048 bound on the cleaned URL).
- `ShortCodes`: `is_valid_short_url`, the anchored pattern
  `^[A-Za-z0-9]{1,32}$` under `re.match` plus the reserved word `api`, and
  the 62-character alphabet of the generator. Python's `$` also matches just
  before a final newline, so `"abc\n"` passes; the model keeps this.
- `Views`: `generate_random_short_url` (at most five candidates, each
  checked against the store; the first free one is returned, else an
  exhaustion error); `UrlRecordListCreateView.create` (normalise, validate,
  generate, validate, serializer, existence check, one write);
  `UrlRecordRetrieveView.get` (code from path, body or query, one trailing
  `/` removed, read-only); `handle_redirect` (read, `visit_count += 1`,
  save, redirect; 404 on zero or several matches). `HttpResponseRedirect`
  refuses a URL whose scheme is not `http`, `https` or `ftp` by raising
  `DisallowedRedirect`, which the handler does not catch. Such a record,
  e.g. an `ftps://` URL that URLField accepted, has its visit counted and
  saved, and the answer is Django's 400 for a suspicious operation.
- `Errors`: `ErrorReason` values 1000–1005, their titles, detail texts and
  HTTP statuses, and the one-error JSON:API body.
- `ClientIp` and `PyStr`: `get_client_ip`, with Python's `str.split` and
  `str.strip`.
- `Forms`: `UrlMappingForm`'s field rules: bounds, stripping and the
  NUL-character check of a text field.
- `Collaborators`: the library calls the code makes but whose code is not
  part of this model. `urlsplit`, `URLField().clean`, the serializer's
  validation and `random.sample` are passed in as function values.
  `UrlSplitLaws` states two facts about CPython's `urlsplit` on a string
  `http://` + rest. When rest is empty or starts with `/`, `?` or `#`,
  the netloc is empty. When rest starts with any other character that is
  not tab, CR or LF, the netloc is non-empty or `urlsplit` raises.
  `SerializerLaws` says the serializer only accepts values within the
  model's `max_length`s. `HttpResponseRedirect`'s scheme check is the
  parameter `allowsRedirect`. `RedirectSchemeLaws` says that it accepts
  every `http://` URL.

The model follows the code as written; in particular:
- `handle_redirect` does not validate the code.
- Uniqueness of codes rests only on the existence check in `create`. There
  is no unique constraint and no atomic insert.
- The visit counter is a read-modify-write, not an atomic increment.
- The existence check and the write use the serializer's
  `validated_data`, which may differ from the validated input.

Create, retrieve and redirect are each given by a function of the records
(`CreateResponse`, `Retrieve`, `RedirectResponse` with
`RecordsAfterRedirect`). The methods `Create` and `HandleRedirect` are
proved to compute them on a `Store`. The lemmas are about those functions.

## Model

| member | source | states |
|---|---|---|
| `PyStr.Strip` | urlshortener/views.py:42 | `ip.strip()` returns the part of the input between its leading and trailing whitespace; the result neither starts nor ends with whitespace |
| `PyStr.StripIdempotent` | urlshortener/views.py:42 | stripping a stripped string changes nothing |
| `PyStr.Split` | urlshortener/views.py:39 | `split(',')` yields at least one piece and no piece contains the separator |
| `PyStr.JoinSplit` | urlshortener/views.py:39 | joining the pieces of `split(sep)` with `sep` gives back the input |
| `PyStr.LastPieceIsSuffixAfterLastSep` | urlshortener/views.py:39 | `split(sep)[-1]` is the suffix after the last separator, or the whole string when there is none |
| `ClientIp.ForwardedForGivesLastEntry` | urlshortener/views.py:38-42 | with a non-empty `X-Forwarded-For`, the IP is the stripped last comma-separated entry: a suffix of the header after its last comma, comma-free |
| `ClientIp.RemoteAddrFallback` | urlshortener/views.py:40-42 | otherwise the stripped `REMOTE_ADDR` is returned, and a missing one is the error of `None.strip()` |
| `ClientIp.ClientIpIsStripped` | urlshortener/views.py:42 | the returned IP has no surrounding whitespace |
| `Models.Get` | urlshortener/views.py:325 | a unique result of `objects.get(short_url=c)` is a record that carries `c` |
| `Models.GetDoesNotExist` | urlshortener/views.py:331 | `DoesNotExist` is raised exactly when no record carries the code |
| `Models.GetUniqueIsOnlyMatch` | urlshortener/views.py:325 | the record `get` returns is the only one carrying the code |
| `Models.GetMultiple` | urlshortener/views.py:333-335 | `MultipleObjectsReturned` is raised exactly when two records carry the code, which the model field allows (no unique constraint) |
| `Models.UniqueCodesRuleOutMultiple` | urlshortener/views.py:333-335 | in a store with unique codes the "multiple mappings" branch cannot happen |
| `Models.GetAfterAppendingFreshCode` | urlshortener/views.py:262-265 | after saving a record whose code no record had, `get` on that code returns exactly the new record |
| `Models.Store.Insert` | urlshortener/views.py:265 | `serializer.save()` appends one record and changes nothing else |
| `Models.Store.Save` | urlshortener/views.py:327 | `record.save()` replaces that one row and changes nothing else |
| `Errors.ValueFromValueRoundTrip` | urlshortener/views.py:127-136 | reason values are 1000–1005 and pairwise distinct (`@enum.unique`): `ErrorReason(value)` recovers the reason and no other value names it |
| `Errors.StatusTable` | urlshortener/views.py:142-173 | 1000 → 500; 1001, 1002, 1005 → 400; 1003 → 409; 1004 → 404 |
| `Errors.DecimalString` | urlshortener/views.py:188 | `str(n)` is a non-empty string of decimal digits with no leading zero unless `n` is 0 |
| `Errors.DecimalRoundTrip` | urlshortener/views.py:188-191 | reading `str(n)` back as a decimal number gives `n` |
| `Errors.CanonicalDecimalUnique` | urlshortener/views.py:188 | a digit string without a leading zero (or `"0"`) that reads back as `n` is `str(n)`; so the canonical form is unique |
| `Errors.ErrorResponseBody` | urlshortener/views.py:175-193 | an error response has the reason's status and exactly one error, whose `code` and `status` strings read back as the reason value and the status and start with a non-zero digit (so each is the canonical `str(...)` of its number), with the reason's title |
| `Errors.ErrorCodeIdentifiesReason` | urlshortener/views.py:188 | a client can recover the reason from the error's `code` string |
| `Urls.NormaliserOnlyPrefixes` | urlshortener/views.py:56-62 | the URL is kept exactly when urlsplit finds a netloc or raises; otherwise the result is `http://` + URL |
| `Urls.NormaliseTwiceIffFixedPoint` | urlshortener/views.py:56-62 | normalising twice equals normalising once exactly when the once-normalised URL has a netloc or cannot be split |
| `Urls.NormaliserIdempotent` | urlshortener/views.py:56-62 | normalising is idempotent on every URL that is non-empty and does not start with `/`, `?`, `#`, tab, CR or LF |
| `Urls.NormaliserNotIdempotentWithoutHost` | urlshortener/views.py:56-62 | the empty URL and URLs starting `/`, `?` or `#` without netloc get the prefix again on a second pass (`http://http:///...`) |
| `Urls.NormaliserKeepsHttpUrls` | urlshortener/views.py:57-58 | `http://` followed by a host is returned unchanged (`http://w3.org` stays) |
| `Urls.LongUrlLengthBound` | urlshortener/views.py:74-82 | when URLField does not shorten the URL, a valid long URL has at most 2048 characters and a longer one is rejected |
| `Urls.OverlongUrlRejected` | urlshortener/tests.py:101 | `'http://www.' + '0'*3000 + '.com'` is rejected unless URLField shortens it |
| `ShortCodes.ValidShortUrlCharacterised` | urlshortener/views.py:85-102 | valid exactly when not `api` and 1–32 ASCII letters or digits, optionally followed by one newline |
| `ShortCodes.ValidShortUrlHasOnlyAlnum` | urlshortener/views.py:85-98 | every character of a valid code is in `[A-Za-z0-9]`, except perhaps a final newline |
| `ShortCodes.ValidShortUrlFitsField` | urlshortener/views.py:85 | the pattern's bound equals `MAX_SHORT_URL_LENGTH`; a valid code has 1–32 characters, 33 only with a final newline |
| `ShortCodes.ShortUrlLengthExamples` | urlshortener/tests.py:116-122 | a code of 32 characters is accepted; 0, 33, 34 and 3000 characters are rejected |
| `ShortCodes.ShortUrlCharacterExamples` | urlshortener/tests.py:108-114 | the test's seven strings `; drop urlrecords --`, `#`, `/*`, `/* --`, `--`, `'''` and `"""` are rejected |
| `ShortCodes.ShortUrlRetrieveExamples` | urlshortener/tests.py:48-64 | `und3rsc0red_patt3rn/withS1ash` is rejected and `1mp0ssib1eR3c0rd` is accepted |
| `ShortCodes.ShortUrlReservedAndNewlineExamples` | urlshortener/views.py:85-101 | `api` is rejected but `Api` accepted; because of `$`, `short` and `api` followed by a newline are accepted |
| `ShortCodes.CharSetIsAlnumClass` | urlshortener/views.py:117 | `ascii_letters + digits` has 62 characters and is exactly the class `[A-Za-z0-9]` |
| `ShortCodes.CharSetHasNoRepeats` | urlshortener/views.py:117 | no character occurs twice in the alphabet |
| `ShortCodes.SampleIsValidShortUrl` | urlshortener/views.py:117-121 | a sample of 1–32 characters is a valid code unless it is `api`; a sample of the default length 6 always is |
| `ShortCodes.ReservedWordIsASample` | urlshortener/views.py:100-101 | with length 3 the generator could draw `api`, which the validator refuses |
| `Forms.FormDataWithinFieldBounds` | urlshortener/models.py:26-41 | data the form accepts fits the model's field bounds; `short_url` is stripped and holds no NUL character |
| `Forms.FormAgreesWithLongUrlValidator` | urlshortener/models.py:27-41 | the form accepts a submission exactly when `is_valid_long_url` accepts its URL and the stripped code has at most 32 characters and no NUL character; an empty code is allowed |
| `Views.FirstUnusedCharacterised` | urlshortener/views.py:120-124 | generation fails exactly when all five candidates are taken, and otherwise returns the earliest free candidate |
| `Views.GenerateRandomShortUrl` | urlshortener/views.py:105-124 | returns the first free candidate after 1 to 5 existence checks (5 on exhaustion); the code is a sample of the requested length and no record carries it |
| `Views.GeneratedCodeIsValid` | urlshortener/views.py:86-124 | with the default length a generated code passes `is_valid_short_url` and has 6 characters |
| `Views.Create` | urlshortener/views.py:223-270 | the response is the one `CreateResponse` gives; on `Created(r)` the store gains exactly `r` at the end, on any error it is unchanged |
| `Views.CreateSucceedsExactlyWhenAllChecksPass` | urlshortener/views.py:235-268 | create succeeds exactly when URL, code, serializer and existence checks all pass; the record holds the validated URL and code, count 0, status 201 |
| `Views.CreateFailsAtFirstFailingCheck` | urlshortener/views.py:235-270 | the first failing check decides the error: invalid URL (with the normalised URL), exhaustion (empty code), invalid code. Once those pass, a serializer rejection gives MALFORMED_DATA and a validated code already stored gives SHORT_URL_ALREADY_EXISTS (409) with that code; conversely each of these errors implies its check failed; no other error occurs |
| `Views.ExhaustionReportedAsInvalidShortUrl` | urlshortener/views.py:240-245 | with no code given, create reports an invalid empty short_url exactly when all five candidates are taken |
| `Views.CreatePreservesUniqueCodes` | urlshortener/views.py:262-265 | the written code was absent from the store, so unique codes stay unique |
| `Views.CreatePreservesFieldBounds` | urlshortener/views.py:257-265 | with the serializer's max-length validation, every stored record keeps `long_url` ≤ 2048 and `short_url` ≤ 32 |
| `Views.RepeatedCreateConflicts` | urlshortener/views.py:262-263 | posting the same explicit code again after it was created yields `SHORT_URL_ALREADY_EXISTS` |
| `Views.RetrieveOutcomes` | urlshortener/views.py:302-310 | on any store: 400 exactly for an invalid code; a valid absent code gives 404 and every 404 has a valid code; a 200 has a valid stored code and a record carrying it. In a store with unique codes, every valid stored code gives 200 |
| `Views.RetrieveRefusesDuplicates` | urlshortener/views.py:303-308 | when two records share the code, retrieve answers 404 |
| `Views.RequestedShortUrlSources` | urlshortener/views.py:288-297 | the path's code wins with one trailing `/` removed, then the body's, then the query's; none gives `''` |
| `Views.RetrieveExamples` | urlshortener/tests.py:48-64 | an absent valid code is 404; a missing code and `und3rsc0red_patt3rn/withS1ash` are 400 |
| `Views.HandleRedirect` | urlshortener/views.py:313-341 | the response and the new store are those `RedirectResponse` and `RecordsAfterRedirect` give; the count is saved before the redirect's scheme check |
| `Views.GetFindsOnlyMatch` | urlshortener/views.py:325 | when exactly one record carries the code, `get` returns that record |
| `Views.RedirectCountsOneVisit` | urlshortener/views.py:325-330 | on a unique match: a redirect (302) to its `long_url` when its scheme is allowed, otherwise `DisallowedRedirect` (400); either way its count rises by exactly 1 and every other record is unchanged |
| `Views.RedirectFailsWithoutUniqueMatch` | urlshortener/views.py:331-341 | with no match or several, the answer is 404 and the store is unchanged |
| `Views.RedirectOnlyRaisesCounts` | urlshortener/views.py:326-327 | a redirect changes no URL and no code, and raises each count by 0 or 1 |
| `Views.GetDependsOnlyOnCodes` | urlshortener/views.py:325 | the lookup's outcome depends only on the records' codes |
| `Views.RedirectKeepsLookup` | urlshortener/views.py:326-327 | after a redirect every code finds what it found before, and unique codes stay unique |
| `Views.CreateThenResolve` | urlshortener/views.py:250-268 | after a successful create, redirecting the new code goes to its URL when the scheme check allows it (else it is refused) and leaves its count at 1; when the stored (validated) code passes `is_valid_short_url`, retrieving it by query returns it. The stored code need not pass: it is the serializer's `validated_data` |
| `Views.W3Scenario` | urlshortener/tests.py:91-97 | `long_url = "w3.org"` without a code is stored as `http://w3.org` under a 6-character free code with count 0; a redirect then goes to `http://w3.org` and counts 1 |

## Left out

- Logging: `logging.basicConfig` and every `logger` call are output only.
- The handlers call `get_client_ip` only inside log messages. Its `AttributeError`, raised when neither header is present, would abort the request (in `handle_redirect`, after `record.save()`). The handler models do not include that abort.
- Django and REST-framework plumbing: `Response`, `HttpResponseRedirect`, template rendering, parsing of `request.META` and `request.data`. Responses are a datatype of outcomes with a status function. Request fields are optional strings.
- The `index` form view. Only `UrlMappingForm`'s field rules are modelled.
- The listing view (`UrlRecordListCreateView.get` and its queryset). It orders by a field the model does not have.
- Routing (`urls.py`) and the serializer's field list. `handle_redirect` is not routed in `urls.py`; it is modelled as written.
- Timestamps: `last_modified` and `expire_time` / `one_minute_later`. They depend on the clock and no handler reads them.
- Concurrency: the exists-then-save race in `create` and the read-modify-write of `visit_count` in `handle_redirect` are not modelled. Every handler runs alone on the store, and nothing here claims atomicity.
- The internals of `urlsplit`, `URLField().clean`, the serializer's `is_valid`, `random.sample` and `HttpResponseRedirect`'s scheme check. They are parameters. Their behaviour enters only as hypotheses of individual members: `UrlSplitLaws`, `SerializerLaws`, `DrawsSamples` and `RedirectSchemeLaws`. Also, `Urls.LongUrlLengthBound` and `Urls.OverlongUrlRejected` assume URLField does not shorten the URL. `Views.W3Scenario` assumes concrete results of urlsplit, URLField and the serializer on its inputs.
- Urls.NormaliserIdempotent: proved from `UrlSplitLaws`. These are two stated facts about `urlsplit`, not derived from its code.
- Views.CreatePreservesFieldBounds: proved from `SerializerLaws`. The database itself may not enforce `max_length`.
- Views.GenerateRandomShortUrl: requires that each candidate is a sample of the requested length. The `ValueError` that `random.sample` raises for a length above 62 is not modelled; the only caller passes 6.
- Payload values that are not strings (JSON numbers, lists) are not modelled.
- `visit_count` is an unbounded natural number. The database's integer width is not modelled.
- Exceptions other than `DoesNotExist`, `MultipleObjectsReturned` and the redirect's `DisallowedRedirect` are not modelled. That includes database errors, which the bare `except` in the retrieve view would also turn into 404.
