/**
 * The short-code engine of the views: the code generator, the create
 * handler, the retrieve handler and the redirect handler, each over the
 * record store. Each state-changing handler is a method tied to a function
 * that gives its response (and so its writes); the lemmas below are about
 * those functions.
 */
module Views {
  import opened Wrappers
  import opened Models
  import opened Collaborators
  import opened Urls
  import opened ShortCodes
  import opened Errors

  /** `RETRY_LIMIT` of `generate_random_short_url`. */
  const RETRY_LIMIT: nat := 5

  /**
   * The library calls the handlers make: `urlsplit`, `URLField().clean`,
   * the serializer's validation, and `random.sample(CHAR_SET, length)` as
   * the candidate it yields on the k-th attempt.
   */
  datatype Env = Env(
    urlsplit: string -> SplitResult,
    urlField: string -> CleanResult,
    serializer: (string, string) -> Validation,
    sample: nat -> string)

  /** What `random.sample(CHAR_SET, length)` guarantees of every candidate it yields. */
  ghost predicate DrawsSamples(sample: nat -> string, length: nat)
  {
    forall k :: 0 <= k < RETRY_LIMIT ==> IsSample(sample(k), length)
  }

  /** The responses of the handlers. */
  datatype Response =
    | Created(record: Record)                                        // Response(serializer.data, status=201)
    | Retrieved(record: Record)                                      // Response(serializer.data)
    | ApiError(reason: ErrorReason, longUrl: string, shortUrl: string) // UrlAPIErrorResponse(reason, ...)
    | Redirect(location: string)                                     // HttpResponseRedirect(location)
    | RedirectFailed                                                 // redirect_failed.html, status 404
    | RedirectRefused(location: string)                              // DisallowedRedirect: a SuspiciousOperation, 400

  function StatusCode(response: Response): nat
  {
    match response
    case Created(_) => 201
    case Retrieved(_) => 200
    case ApiError(reason, _, _) => HttpStatus(reason)
    case Redirect(_) => 302
    case RedirectFailed => 404
    case RedirectRefused(_) => 400
  }

  // ---------------------------------------------------------------------
  // generate_random_short_url
  // ---------------------------------------------------------------------

  /** A free code, or the `RuntimeError` raised when every attempt collided. */
  datatype Generation = Generated(code: string) | Exhausted

  /** The first candidate, from attempt `attempt` on, that no record carries. */
  function FirstUnused(records: seq<Record>, sample: nat -> string, attempt: nat): Generation
    requires attempt <= RETRY_LIMIT
    decreases RETRY_LIMIT - attempt
  {
    if attempt == RETRY_LIMIT then Exhausted
    else if !HasCode(records, sample(attempt)) then Generated(sample(attempt))
    else FirstUnused(records, sample, attempt + 1)
  }

  /**
   * Generation fails exactly when every remaining candidate is taken, and
   * otherwise yields the earliest candidate that is free.
   */
  lemma {:induction false} FirstUnusedCharacterised(records: seq<Record>, sample: nat -> string, attempt: nat)
    requires attempt <= RETRY_LIMIT
    ensures FirstUnused(records, sample, attempt).Exhausted? <==>
      forall k :: attempt <= k < RETRY_LIMIT ==> HasCode(records, sample(k))
    ensures FirstUnused(records, sample, attempt).Generated? ==>
      exists k :: attempt <= k < RETRY_LIMIT && FirstUnused(records, sample, attempt).code == sample(k) &&
        !HasCode(records, sample(k)) && forall j :: attempt <= j < k ==> HasCode(records, sample(j))
    decreases RETRY_LIMIT - attempt
  {
    if attempt < RETRY_LIMIT && HasCode(records, sample(attempt)) {
      FirstUnusedCharacterised(records, sample, attempt + 1);
      if FirstUnused(records, sample, attempt).Generated? {
        var k :| attempt + 1 <= k < RETRY_LIMIT && FirstUnused(records, sample, attempt).code == sample(k) &&
          !HasCode(records, sample(k)) && forall j :: attempt + 1 <= j < k ==> HasCode(records, sample(j));
        assert forall j :: attempt <= j < k ==> HasCode(records, sample(j));
      }
    }
  }

  /**
   * `generate_random_short_url(length)`: at most five candidates, each
   * checked against the store once; the first free one is returned. `checks`
   * counts the existence queries made.
   */
  method GenerateRandomShortUrl(store: Store, length: nat, sample: nat -> string) returns (result: Generation, checks: nat)
    requires DrawsSamples(sample, length)
    ensures result == FirstUnused(store.records, sample, 0)
    ensures 1 <= checks <= RETRY_LIMIT
    ensures result.Exhausted? ==> checks == RETRY_LIMIT
    ensures result.Generated? ==>
      result.code == sample(checks - 1) && IsSample(result.code, length) && !HasCode(store.records, result.code)
  {
    checks := 0;
    for attempt := 0 to RETRY_LIMIT
      invariant checks == attempt
      invariant FirstUnused(store.records, sample, attempt) == FirstUnused(store.records, sample, 0)
    {
      var candidate := sample(attempt);
      checks := checks + 1;
      if !HasCode(store.records, candidate) {
        assert IsSample(candidate, length);
        return Generated(candidate), checks;
      }
    }
    return Exhausted, checks;
  }

  /** With the default length, a generated code always passes `is_valid_short_url`. */
  lemma GeneratedCodeIsValid(records: seq<Record>, sample: nat -> string)
    requires DrawsSamples(sample, DEFAULT_SHORT_URL_LENGTH)
    requires FirstUnused(records, sample, 0).Generated?
    ensures IsValidShortUrl(FirstUnused(records, sample, 0).code)
    ensures |FirstUnused(records, sample, 0).code| == DEFAULT_SHORT_URL_LENGTH
  {
    FirstUnusedCharacterised(records, sample, 0);
    var k :| 0 <= k < RETRY_LIMIT && FirstUnused(records, sample, 0).code == sample(k);
    SampleIsValidShortUrl(sample(k), DEFAULT_SHORT_URL_LENGTH);
  }

  // ---------------------------------------------------------------------
  // UrlRecordListCreateView.create
  // ---------------------------------------------------------------------

  /** The `long_url` and `short_url` entries of `request.data`. */
  datatype CreateRequest = CreateRequest(longUrl: Option<string>, shortUrl: Option<string>)

  /** `convert_to_absolute_url(request.data.get('long_url', ''))`. */
  function NormalisedLongUrl(req: CreateRequest, env: Env): string
  {
    ConvertToAbsoluteUrl(OrEmpty(req.longUrl), env.urlsplit)
  }

  /** The code create goes on with: the one given, else a generated one; `None` when generation raised. */
  function ChosenShortUrl(records: seq<Record>, req: CreateRequest, env: Env): Option<string>
  {
    var given := OrEmpty(req.shortUrl);
    if given != "" then Some(given)
    else match FirstUnused(records, env.sample, 0)
      case Generated(code) => Some(code)
      case Exhausted => None
  }

  /** The response of `create`; the store gains `record` exactly when it is `Created(record)`. */
  function CreateResponse(records: seq<Record>, req: CreateRequest, env: Env): Response
  {
    var longUrl := NormalisedLongUrl(req, env);
    if !IsValidLongUrl(longUrl, env.urlField) then ApiError(InvalidLongUrl, longUrl, "")
    else match ChosenShortUrl(records, req, env)
      case None => ApiError(InvalidShortUrl, "", "")
      case Some(shortUrl) =>
        if !IsValidShortUrl(shortUrl) then ApiError(InvalidShortUrl, "", shortUrl)
        else match env.serializer(longUrl, shortUrl)
          case NotValid => ApiError(MalformedData, "", "")
          case Validated(validLongUrl, validShortUrl) =>
            if HasCode(records, validShortUrl) then ApiError(ShortUrlAlreadyExists, "", validShortUrl)
            else Created(NewRecord(validLongUrl, validShortUrl))
  }

  /**
   * `UrlRecordListCreateView.create`: normalise, validate, generate when no
   * code is given, validate the code, run the serializer, check for an
   * existing record, then write once. Every failure leaves the store as it was.
   */
  method Create(store: Store, req: CreateRequest, env: Env) returns (response: Response)
    requires DrawsSamples(env.sample, DEFAULT_SHORT_URL_LENGTH)
    modifies store
    ensures response == CreateResponse(old(store.records), req, env)
    ensures response.Created? ==> store.records == old(store.records) + [response.record]
    ensures !response.Created? ==> store.records == old(store.records)
  {
    var longUrl := ConvertToAbsoluteUrl(OrEmpty(req.longUrl), env.urlsplit);
    if !IsValidLongUrl(longUrl, env.urlField) {
      return ApiError(InvalidLongUrl, longUrl, "");
    }
    var shortUrl := OrEmpty(req.shortUrl);
    if shortUrl == "" {
      var generation, _ := GenerateRandomShortUrl(store, DEFAULT_SHORT_URL_LENGTH, env.sample);
      if generation.Exhausted? {
        return ApiError(InvalidShortUrl, "", shortUrl);
      }
      shortUrl := generation.code;
    }
    if !IsValidShortUrl(shortUrl) {
      return ApiError(InvalidShortUrl, "", shortUrl);
    }
    match env.serializer(longUrl, shortUrl)
    case NotValid =>
      return ApiError(MalformedData, "", "");
    case Validated(validLongUrl, validShortUrl) =>
      if HasCode(store.records, validShortUrl) {
        return ApiError(ShortUrlAlreadyExists, "", validShortUrl);
      }
      var record := NewRecord(validLongUrl, validShortUrl);
      store.Insert(record);
      return Created(record);
  }

  /**
   * Create succeeds exactly when every check passes, in order; the record
   * written holds the serializer's validated URL and code and a zero count.
   */
  lemma CreateSucceedsExactlyWhenAllChecksPass(records: seq<Record>, req: CreateRequest, env: Env)
    ensures var r := CreateResponse(records, req, env);
      r.Created? <==>
        IsValidLongUrl(NormalisedLongUrl(req, env), env.urlField) &&
        ChosenShortUrl(records, req, env).Some? &&
        IsValidShortUrl(ChosenShortUrl(records, req, env).value) &&
        env.serializer(NormalisedLongUrl(req, env), ChosenShortUrl(records, req, env).value).Validated? &&
        !HasCode(records, env.serializer(NormalisedLongUrl(req, env), ChosenShortUrl(records, req, env).value).shortUrl)
    ensures var r := CreateResponse(records, req, env);
      r.Created? ==>
        var v := env.serializer(NormalisedLongUrl(req, env), ChosenShortUrl(records, req, env).value);
        r.record == Record(v.longUrl, v.shortUrl, 0) && StatusCode(r) == 201
  {
  }

  /**
   * The first failing check decides the error, and each error carries the
   * input that failed: the normalised URL, the empty code after an
   * exhausted generator, the rejected code, the serializer's rejection, or
   * the validated code already taken (409).
   */
  lemma CreateFailsAtFirstFailingCheck(records: seq<Record>, req: CreateRequest, env: Env)
    ensures var longUrl := NormalisedLongUrl(req, env);
      !IsValidLongUrl(longUrl, env.urlField) ==>
        CreateResponse(records, req, env) == ApiError(InvalidLongUrl, longUrl, "")
    ensures IsValidLongUrl(NormalisedLongUrl(req, env), env.urlField) && ChosenShortUrl(records, req, env).None? ==>
        CreateResponse(records, req, env) == ApiError(InvalidShortUrl, "", "")
    ensures (IsValidLongUrl(NormalisedLongUrl(req, env), env.urlField) && ChosenShortUrl(records, req, env).Some? &&
             !IsValidShortUrl(ChosenShortUrl(records, req, env).value)) ==>
        CreateResponse(records, req, env) == ApiError(InvalidShortUrl, "", ChosenShortUrl(records, req, env).value)
    ensures (IsValidLongUrl(NormalisedLongUrl(req, env), env.urlField) && ChosenShortUrl(records, req, env).Some? &&
             IsValidShortUrl(ChosenShortUrl(records, req, env).value)) ==>
      var v := env.serializer(NormalisedLongUrl(req, env), ChosenShortUrl(records, req, env).value);
      (v.NotValid? ==> CreateResponse(records, req, env) == ApiError(MalformedData, "", "")) &&
      (v.Validated? && HasCode(records, v.shortUrl) ==>
        CreateResponse(records, req, env) == ApiError(ShortUrlAlreadyExists, "", v.shortUrl))
    ensures var r := CreateResponse(records, req, env);
      r.ApiError? && r.reason == MalformedData ==>
        IsValidShortUrl(ChosenShortUrl(records, req, env).value) &&
        env.serializer(NormalisedLongUrl(req, env), ChosenShortUrl(records, req, env).value).NotValid?
    ensures var r := CreateResponse(records, req, env);
      r.ApiError? && r.reason == ShortUrlAlreadyExists ==> HasCode(records, r.shortUrl) && StatusCode(r) == 409
    ensures var r := CreateResponse(records, req, env);
      !r.Created? ==> r.ApiError? && r.reason in {InvalidLongUrl, InvalidShortUrl, MalformedData, ShortUrlAlreadyExists}
  {
  }

  /**
   * With no code given, the generator's exhaustion (all five candidates
   * taken) is reported as an invalid short_url with an empty code.
   */
  lemma ExhaustionReportedAsInvalidShortUrl(records: seq<Record>, req: CreateRequest, env: Env)
    requires IsValidLongUrl(NormalisedLongUrl(req, env), env.urlField)
    requires OrEmpty(req.shortUrl) == ""
    requires DrawsSamples(env.sample, DEFAULT_SHORT_URL_LENGTH)
    ensures (forall k :: 0 <= k < RETRY_LIMIT ==> HasCode(records, env.sample(k))) <==>
      CreateResponse(records, req, env) == ApiError(InvalidShortUrl, "", "")
  {
    FirstUnusedCharacterised(records, env.sample, 0);
    if FirstUnused(records, env.sample, 0).Generated? {
      GeneratedCodeIsValid(records, env.sample);
    }
  }

  /** A create that succeeds writes a code no record had, so a store with unique codes keeps them unique. */
  lemma CreatePreservesUniqueCodes(records: seq<Record>, req: CreateRequest, env: Env)
    requires UniqueCodes(records)
    requires CreateResponse(records, req, env).Created?
    ensures !HasCode(records, CreateResponse(records, req, env).record.shortUrl)
    ensures UniqueCodes(records + [CreateResponse(records, req, env).record])
  {
  }

  /** Under the model fields' `max_length` validators, every record create writes fits its fields. */
  lemma CreatePreservesFieldBounds(records: seq<Record>, req: CreateRequest, env: Env)
    requires SerializerLaws(env.serializer)
    requires AllWithinFieldBounds(records)
    requires CreateResponse(records, req, env).Created?
    ensures AllWithinFieldBounds(records + [CreateResponse(records, req, env).record])
  {
    var longUrl := NormalisedLongUrl(req, env);
    var shortUrl := ChosenShortUrl(records, req, env).value;
    assert env.serializer(longUrl, shortUrl).Validated?;
  }

  /** Posting the same explicit code again, after it was created, is a conflict and writes nothing. */
  lemma RepeatedCreateConflicts(records: seq<Record>, req: CreateRequest, env: Env)
    requires OrEmpty(req.shortUrl) != ""
    requires CreateResponse(records, req, env).Created?
    ensures var rec := CreateResponse(records, req, env).record;
      CreateResponse(records + [rec], req, env) == ApiError(ShortUrlAlreadyExists, "", rec.shortUrl)
  {
    var rec := CreateResponse(records, req, env).record;
    assert (records + [rec])[|records|] == rec;
  }

  // ---------------------------------------------------------------------
  // UrlRecordRetrieveView.get
  // ---------------------------------------------------------------------

  /** The code from the URL path, the request body and the query string. */
  datatype RetrieveRequest = RetrieveRequest(path: string, body: Option<string>, query: Option<string>)

  /** The path's code with one trailing `/` removed, else the body's, else the query's. */
  function RequestedShortUrl(req: RetrieveRequest): string
  {
    if req.path != "" then
      (if req.path[|req.path| - 1] == '/' then req.path[..|req.path| - 1] else req.path)
    else if OrEmpty(req.body) != "" then OrEmpty(req.body)
    else OrEmpty(req.query)
  }

  /**
   * `UrlRecordRetrieveView.get`: 400 for a code the validator refuses, the
   * record when exactly one carries the code, 404 otherwise (the bare
   * `except` also turns `MultipleObjectsReturned` into 404).
   */
  function Retrieve(records: seq<Record>, req: RetrieveRequest): Response
  {
    var shortUrl := RequestedShortUrl(req);
    if IsValidShortUrl(shortUrl) then
      match Get(records, shortUrl)
      case Unique(i) => Retrieved(records[i])
      case _ => ApiError(ShortUrlMappingNotExists, "", shortUrl)
    else ApiError(InvalidShortUrl, "", shortUrl)
  }

  /**
   * The three outcomes of a retrieve, by status, on any store; a found
   * record carries the requested code. Only with unique codes is every
   * valid stored code found (duplicates answer 404).
   */
  lemma RetrieveOutcomes(records: seq<Record>, req: RetrieveRequest)
    ensures var code := RequestedShortUrl(req); var r := Retrieve(records, req);
      (StatusCode(r) == 400 <==> !IsValidShortUrl(code)) &&
      (IsValidShortUrl(code) && !HasCode(records, code) ==> StatusCode(r) == 404) &&
      (StatusCode(r) == 200 ==> IsValidShortUrl(code) && HasCode(records, code)) &&
      (UniqueCodes(records) && IsValidShortUrl(code) && HasCode(records, code) ==> StatusCode(r) == 200) &&
      (StatusCode(r) == 404 ==> IsValidShortUrl(code)) &&
      (r.Retrieved? ==> r.record in records && r.record.shortUrl == code)
  {
    var code := RequestedShortUrl(req);
    GetDoesNotExist(records, code);
    if UniqueCodes(records) {
      UniqueCodesRuleOutMultiple(records, code);
    }
  }

  /** With duplicates in the store, a retrieve of their code is a 404, not one of the records. */
  lemma RetrieveRefusesDuplicates(records: seq<Record>, req: RetrieveRequest, i: nat, j: nat)
    requires i < j < |records|
    requires records[i].shortUrl == records[j].shortUrl == RequestedShortUrl(req)
    requires IsValidShortUrl(RequestedShortUrl(req))
    ensures Retrieve(records, req) == ApiError(ShortUrlMappingNotExists, "", RequestedShortUrl(req))
  {
    GetMultiple(records, RequestedShortUrl(req));
  }

  /** Where the code comes from, and that only one trailing slash is removed. */
  lemma RequestedShortUrlSources(code: string, body: Option<string>, query: Option<string>)
    requires code != ""
    ensures RequestedShortUrl(RetrieveRequest(code + "/", body, query)) == code
    ensures RequestedShortUrl(RetrieveRequest(code, body, query)) == code || code[|code| - 1] == '/'
    ensures RequestedShortUrl(RetrieveRequest("", Some(code), query)) == code
    ensures RequestedShortUrl(RetrieveRequest("", None, Some(code))) == code
    ensures RequestedShortUrl(RetrieveRequest("", Some(""), Some(code))) == code
    ensures RequestedShortUrl(RetrieveRequest("", None, None)) == ""
  {
    assert (code + "/")[..|code|] == code;
  }

  /** The test cases: an absent valid code is 404; no code, or a code with `_` and `/`, is 400. */
  lemma RetrieveExamples(records: seq<Record>)
    requires !HasCode(records, "1mp0ssib1eR3c0rd")
    ensures StatusCode(Retrieve(records, RetrieveRequest("", None, Some("1mp0ssib1eR3c0rd")))) == 404
    ensures StatusCode(Retrieve(records, RetrieveRequest("", None, None))) == 400
    ensures StatusCode(Retrieve(records, RetrieveRequest("", None, Some("und3rsc0red_patt3rn/withS1ash")))) == 400
  {
    ShortUrlRetrieveExamples();
    GetDoesNotExist(records, "1mp0ssib1eR3c0rd");
  }

  // ---------------------------------------------------------------------
  // handle_redirect
  // ---------------------------------------------------------------------

  /**
   * The response of `handle_redirect(request, short_url)`. `allowsRedirect`
   * is the scheme check of `HttpResponseRedirect`, which raises
   * `DisallowedRedirect` for a URL whose scheme is not allowed; that
   * happens after the visit was saved and is not caught by the handler.
   */
  function RedirectResponse(records: seq<Record>, shortUrl: string, allowsRedirect: string -> bool): Response
  {
    match Get(records, shortUrl)
    case Unique(i) =>
      if allowsRedirect(records[i].longUrl) then Redirect(records[i].longUrl)
      else RedirectRefused(records[i].longUrl)
    case _ => RedirectFailed
  }

  /**
   * The store after `handle_redirect`: the one matching record has its count
   * raised by one, whether or not the redirect itself is then refused.
   */
  function RecordsAfterRedirect(records: seq<Record>, shortUrl: string): seq<Record>
  {
    match Get(records, shortUrl)
    case Unique(i) => records[i := records[i].(visitCount := records[i].visitCount + 1)]
    case _ => records
  }

  /**
   * `handle_redirect`: look the code up, and on a unique match raise its
   * `visit_count` by one, save it and redirect to its `long_url` (refused
   * for a disallowed scheme); on no match or several, answer 404 and write
   * nothing. The code is not validated.
   */
  method HandleRedirect(store: Store, shortUrl: string, allowsRedirect: string -> bool) returns (response: Response)
    modifies store
    ensures response == RedirectResponse(old(store.records), shortUrl, allowsRedirect)
    ensures store.records == RecordsAfterRedirect(old(store.records), shortUrl)
  {
    match Get(store.records, shortUrl)
    case Unique(i) =>
      var record := store.records[i];
      record := record.(visitCount := record.visitCount + 1);
      store.Save(i, record);
      if allowsRedirect(record.longUrl) {
        response := Redirect(record.longUrl);
      } else {
        response := RedirectRefused(record.longUrl);
      }
    case _ =>
      response := RedirectFailed;
  }

  /** `get` names record `i` exactly when it is the one record carrying the code. */
  lemma GetFindsOnlyMatch(records: seq<Record>, shortUrl: string, i: nat)
    requires i < |records| && records[i].shortUrl == shortUrl
    requires forall j :: 0 <= j < |records| && records[j].shortUrl == shortUrl ==> j == i
    ensures Get(records, shortUrl) == Unique(i)
  {
    GetDoesNotExist(records, shortUrl);
    GetMultiple(records, shortUrl);
    GetUniqueIsOnlyMatch(records, shortUrl, i);
  }

  /**
   * On a unique match, the redirect goes to that record's URL (or is
   * refused with 400 when its scheme is not allowed); either way its count
   * rises by exactly one and every other record, and its other fields, stay
   * as they were.
   */
  lemma RedirectCountsOneVisit(records: seq<Record>, shortUrl: string, i: nat, allowsRedirect: string -> bool)
    requires i < |records| && records[i].shortUrl == shortUrl
    requires forall j :: 0 <= j < |records| && records[j].shortUrl == shortUrl ==> j == i
    ensures allowsRedirect(records[i].longUrl) ==>
      RedirectResponse(records, shortUrl, allowsRedirect) == Redirect(records[i].longUrl) &&
      StatusCode(RedirectResponse(records, shortUrl, allowsRedirect)) == 302
    ensures !allowsRedirect(records[i].longUrl) ==>
      RedirectResponse(records, shortUrl, allowsRedirect) == RedirectRefused(records[i].longUrl) &&
      StatusCode(RedirectResponse(records, shortUrl, allowsRedirect)) == 400
    ensures var after := RecordsAfterRedirect(records, shortUrl);
      |after| == |records| &&
      after[i] == Record(records[i].longUrl, records[i].shortUrl, records[i].visitCount + 1) &&
      forall j :: 0 <= j < |records| && j != i ==> after[j] == records[j]
  {
    GetFindsOnlyMatch(records, shortUrl, i);
  }

  /** With no matching record, or with several, the answer is 404 and nothing is written. */
  lemma RedirectFailsWithoutUniqueMatch(records: seq<Record>, shortUrl: string, allowsRedirect: string -> bool)
    requires !HasCode(records, shortUrl) ||
      exists i, j :: 0 <= i < j < |records| && records[i].shortUrl == shortUrl && records[j].shortUrl == shortUrl
    ensures RedirectResponse(records, shortUrl, allowsRedirect) == RedirectFailed
    ensures StatusCode(RedirectResponse(records, shortUrl, allowsRedirect)) == 404
    ensures RecordsAfterRedirect(records, shortUrl) == records
  {
    GetDoesNotExist(records, shortUrl);
    GetMultiple(records, shortUrl);
  }

  /** A redirect never lowers a count and never changes a URL or a code. */
  lemma RedirectOnlyRaisesCounts(records: seq<Record>, shortUrl: string)
    ensures var after := RecordsAfterRedirect(records, shortUrl);
      |after| == |records| &&
      forall j :: 0 <= j < |records| ==>
        after[j].longUrl == records[j].longUrl && after[j].shortUrl == records[j].shortUrl &&
        records[j].visitCount <= after[j].visitCount <= records[j].visitCount + 1
  {
  }

  /** `get` depends only on the codes of the records, so a redirect does not change what later lookups find. */
  lemma {:induction false} GetDependsOnlyOnCodes(a: seq<Record>, b: seq<Record>, shortUrl: string)
    requires |a| == |b|
    requires forall j :: 0 <= j < |a| ==> a[j].shortUrl == b[j].shortUrl
    ensures Get(a, shortUrl) == Get(b, shortUrl)
  {
    if a != [] {
      GetDependsOnlyOnCodes(a[1..], b[1..], shortUrl);
    }
  }

  /** After a redirect the same code finds the same record, so each further redirect adds one more visit. */
  lemma RedirectKeepsLookup(records: seq<Record>, shortUrl: string, other: string)
    ensures Get(RecordsAfterRedirect(records, shortUrl), other) == Get(records, other)
    ensures UniqueCodes(records) ==> UniqueCodes(RecordsAfterRedirect(records, shortUrl))
  {
    RedirectOnlyRaisesCounts(records, shortUrl);
    GetDependsOnlyOnCodes(RecordsAfterRedirect(records, shortUrl), records, other);
  }

  // ---------------------------------------------------------------------
  // Create, then resolve
  // ---------------------------------------------------------------------

  /**
   * After a successful create, resolving the new code redirects to the
   * stored URL (a URL whose scheme `HttpResponseRedirect` accepts, as every
   * `http://` URL is under `RedirectSchemeLaws`) and counts exactly one
   * visit, and a retrieve by query finds the new record, whatever
   * duplicates the store held for other codes.
   */
  lemma CreateThenResolve(records: seq<Record>, req: CreateRequest, env: Env, allowsRedirect: string -> bool)
    requires CreateResponse(records, req, env).Created?
    ensures var rec := CreateResponse(records, req, env).record; var after := records + [rec];
      rec.visitCount == 0 &&
      RedirectResponse(after, rec.shortUrl, allowsRedirect) ==
        (if allowsRedirect(rec.longUrl) then Redirect(rec.longUrl) else RedirectRefused(rec.longUrl)) &&
      RecordsAfterRedirect(after, rec.shortUrl) == records + [rec.(visitCount := 1)] &&
      (IsValidShortUrl(rec.shortUrl) ==>
        Retrieve(after, RetrieveRequest("", None, Some(rec.shortUrl))) == Retrieved(rec))
  {
    var rec := CreateResponse(records, req, env).record;
    GetAfterAppendingFreshCode(records, rec);
  }

  /**
   * `create` with `long_url = "w3.org"` and no code: the URL is stored as
   * `http://w3.org` under the first free 6-character candidate with count 0,
   * and redirecting that code goes to `http://w3.org` and counts 1.
   */
  lemma W3Scenario(records: seq<Record>, env: Env, allowsRedirect: string -> bool)
    requires UrlSplitLaws(env.urlsplit)
    requires RedirectSchemeLaws(allowsRedirect)
    requires env.urlsplit("w3.org") == Parsed("")
    requires env.urlField("http://w3.org") == Cleaned("http://w3.org")
    requires DrawsSamples(env.sample, DEFAULT_SHORT_URL_LENGTH)
    requires !HasCode(records, env.sample(0))
    requires env.serializer("http://w3.org", env.sample(0)) == Validated("http://w3.org", env.sample(0))
    ensures var r := CreateResponse(records, CreateRequest(Some("w3.org"), Some("")), env);
      r == Created(Record("http://w3.org", env.sample(0), 0)) &&
      |r.record.shortUrl| == DEFAULT_SHORT_URL_LENGTH &&
      RedirectResponse(records + [r.record], r.record.shortUrl, allowsRedirect) == Redirect("http://w3.org") &&
      RecordsAfterRedirect(records + [r.record], r.record.shortUrl)[|records|].visitCount == 1
  {
    var req := CreateRequest(Some("w3.org"), Some(""));
    assert NormalisedLongUrl(req, env) == "http://w3.org";
    assert IsValidLongUrl("http://w3.org", env.urlField);
    assert FirstUnused(records, env.sample, 0) == Generated(env.sample(0));
    GeneratedCodeIsValid(records, env.sample);
    assert ChosenShortUrl(records, req, env) == Some(env.sample(0));
    assert CreateResponse(records, req, env) == Created(Record("http://w3.org", env.sample(0), 0));
    assert allowsRedirect(WithHttp("w3.org"));
    CreateThenResolve(records, req, env, allowsRedirect);
  }
}
