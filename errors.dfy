/**
 * `ErrorReason` and the table `UrlAPIErrorResponse.ATTRIBUTES_FOR_REASON`:
 * each reason has a numeric code, a title, a detail template and an HTTP
 * status, and an error response carries exactly one JSON:API error object.
 */
module Errors {
  import opened Wrappers

  /** The members of the `@enum.unique` class `ErrorReason`. */
  datatype ErrorReason =
    | InternalServerError
    | InvalidLongUrl
    | InvalidShortUrl
    | ShortUrlAlreadyExists
    | ShortUrlMappingNotExists
    | MalformedData

  /** `reason.value`. */
  function Value(reason: ErrorReason): nat
  {
    match reason
    case InternalServerError => 1000
    case InvalidLongUrl => 1001
    case InvalidShortUrl => 1002
    case ShortUrlAlreadyExists => 1003
    case ShortUrlMappingNotExists => 1004
    case MalformedData => 1005
  }

  /** `ErrorReason(value)`: the member with that value, if there is one. */
  function FromValue(value: int): Option<ErrorReason>
  {
    if value == 1000 then Some(InternalServerError)
    else if value == 1001 then Some(InvalidLongUrl)
    else if value == 1002 then Some(InvalidShortUrl)
    else if value == 1003 then Some(ShortUrlAlreadyExists)
    else if value == 1004 then Some(ShortUrlMappingNotExists)
    else if value == 1005 then Some(MalformedData)
    else None
  }

  /** `@enum.unique`: the values are pairwise distinct, so each value names one reason. */
  lemma ValueFromValueRoundTrip(reason: ErrorReason, value: int)
    ensures FromValue(Value(reason)) == Some(reason)
    ensures FromValue(value) == Some(reason) <==> Value(reason) == value
    ensures 1000 <= Value(reason) <= 1005
  {
  }

  /** `ATTRIBUTES_FOR_REASON[reason]['status_code']`. */
  function HttpStatus(reason: ErrorReason): nat
  {
    match reason
    case InternalServerError => 500
    case InvalidLongUrl => 400
    case InvalidShortUrl => 400
    case ShortUrlAlreadyExists => 409
    case ShortUrlMappingNotExists => 404
    case MalformedData => 400
  }

  /** Every status in the table is an HTTP error status; only the internal error is a server error. */
  lemma StatusTable(reason: ErrorReason)
    ensures 400 <= HttpStatus(reason) <= 599
    ensures HttpStatus(reason) >= 500 <==> reason == InternalServerError
    ensures HttpStatus(reason) == 400 <==> reason in {InvalidLongUrl, InvalidShortUrl, MalformedData}
    ensures HttpStatus(reason) == 409 <==> reason == ShortUrlAlreadyExists
    ensures HttpStatus(reason) == 404 <==> reason == ShortUrlMappingNotExists
  {
  }

  /** `ATTRIBUTES_FOR_REASON[reason]['title']`. */
  function Title(reason: ErrorReason): string
  {
    match reason
    case InternalServerError => "Internal server error"
    case InvalidLongUrl => "Invalid long_url"
    case InvalidShortUrl => "Invalid short_url"
    case ShortUrlAlreadyExists => "short_url already exists"
    case ShortUrlMappingNotExists => "short_url has no mapping"
    case MalformedData => "Malformed data"
  }

  /** `detail_template.substitute(long_url=..., short_url=...)`; `$$` in a template stands for `$`. */
  function Detail(reason: ErrorReason, longUrl: string, shortUrl: string): string
  {
    match reason
    case InternalServerError => "The server cannot handle this request."
    case InvalidLongUrl => "long_url:`" + longUrl + "` is not a valid URL"
    case InvalidShortUrl => "short_url:`" + shortUrl + "` cannot match pattern: ^[A-Za-z0-9]{1,32}$"
    case ShortUrlAlreadyExists => "short_url:`" + shortUrl + "` is occupied. Please pick another short_url"
    case ShortUrlMappingNotExists => "There is no URL to redirect for short_url:`" + shortUrl + "`"
    case MalformedData => "Are you malicious?"
  }

  function DigitChar(d: nat): char
    requires d < 10
  {
    ('0' as int + d) as char
  }

  /** `str(n)` for a non-negative integer: canonical, so no leading zero except in `"0"` itself. */
  function DecimalString(n: nat): (s: string)
    ensures |s| >= 1
    ensures forall i :: 0 <= i < |s| ==> '0' <= s[i] <= '9'
    ensures s[0] == '0' ==> n == 0
  {
    if n < 10 then [DigitChar(n)] else DecimalString(n / 10) + [DigitChar(n % 10)]
  }

  /** Reads a non-empty string of decimal digits back as a number: the partner of `DecimalString`. */
  function ParseDecimal(s: string): Option<nat>
  {
    if s == [] || !('0' <= s[|s| - 1] <= '9') then None
    else
      var d := s[|s| - 1] as int - '0' as int;
      if |s| == 1 then Some(d)
      else match ParseDecimal(s[..|s| - 1])
        case None => None
        case Some(v) => Some(10 * v + d)
  }

  lemma {:induction false} DecimalRoundTrip(n: nat)
    ensures ParseDecimal(DecimalString(n)) == Some(n)
  {
    if n >= 10 {
      var s := DecimalString(n);
      DecimalRoundTrip(n / 10);
      assert s[..|s| - 1] == DecimalString(n / 10);
    }
  }

  /** No other canonical digit string reads back as `n`: `str(n)` is the only one. */
  lemma {:induction false} CanonicalDecimalUnique(s: string, n: nat)
    requires s != [] && (s[0] != '0' || |s| == 1)
    requires ParseDecimal(s) == Some(n)
    ensures s == DecimalString(n)
  {
    var d := s[|s| - 1] as int - '0' as int;
    assert 0 <= d < 10 && DigitChar(d) == s[|s| - 1];
    if |s| == 1 {
      assert n == d;
    } else {
      var prefix := s[..|s| - 1];
      var v := ParseDecimal(prefix).value;
      assert n == 10 * v + d;
      assert prefix[0] == s[0];
      CanonicalDecimalUnique(prefix, v);
      assert v != 0 by {
        assert DecimalString(0) == ['0'];
      }
      assert n / 10 == v && n % 10 == d;
      assert DecimalString(n) == prefix + [DigitChar(d)];
      assert s == prefix + [s[|s| - 1]];
    }
  }

  /** One entry of the `errors` list in the JSON:API body. */
  datatype ErrorObject = ErrorObject(code: string, title: string, detail: string, status: string)

  /** The body `{'errors': [error]}` and status of `UrlAPIErrorResponse(reason, long_url=..., short_url=...)`. */
  datatype ErrorBody = ErrorBody(status: nat, errors: seq<ErrorObject>)

  function ErrorResponseBody(reason: ErrorReason, longUrl: string, shortUrl: string): (b: ErrorBody)
    ensures b.status == HttpStatus(reason)
    ensures |b.errors| == 1
    ensures ParseDecimal(b.errors[0].code) == Some(Value(reason))
    ensures ParseDecimal(b.errors[0].status) == Some(b.status)
    ensures b.errors[0].code[0] != '0' && b.errors[0].status[0] != '0'
    ensures b.errors[0].title == Title(reason)
  {
    DecimalRoundTrip(Value(reason));
    DecimalRoundTrip(HttpStatus(reason));
    var error := ErrorObject(DecimalString(Value(reason)), Title(reason),
                             Detail(reason, longUrl, shortUrl), DecimalString(HttpStatus(reason)));
    ErrorBody(HttpStatus(reason), [error])
  }

  /** The error `code` string names the reason back: a client can recover it with `ErrorReason(int(code))`. */
  lemma ErrorCodeIdentifiesReason(reason: ErrorReason, longUrl: string, shortUrl: string)
    ensures var b := ErrorResponseBody(reason, longUrl, shortUrl);
      ParseDecimal(b.errors[0].code).Some? &&
      FromValue(ParseDecimal(b.errors[0].code).value) == Some(reason)
  {
    var b := ErrorResponseBody(reason, longUrl, shortUrl);
    assert ParseDecimal(b.errors[0].code) == Some(Value(reason));
    ValueFromValueRoundTrip(reason, Value(reason));
  }
}
