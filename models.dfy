/**
 * The `UrlRecord` model: its field bounds, its defaults and the record
 * store (`UrlRecord.objects`). `short_url` carries no uniqueness
 * constraint, so the store may hold several records with one code.
 */
module Models {

  const MAX_LONG_URL_LENGTH: nat := 2048
  const MAX_SHORT_URL_LENGTH: nat := 32
  /** `visit_count = models.IntegerField(default=0)`. */
  const DEFAULT_VISIT_COUNT: nat := 0

  /** One `UrlRecord` row, reduced to the fields the views read and write. */
  datatype Record = Record(longUrl: string, shortUrl: string, visitCount: nat)

  /** A record created with the model's default `visit_count`. */
  function NewRecord(longUrl: string, shortUrl: string): Record
  {
    Record(longUrl, shortUrl, DEFAULT_VISIT_COUNT)
  }

  /** The `max_length` of both model fields hold. */
  predicate WithinFieldBounds(r: Record)
  {
    |r.longUrl| <= MAX_LONG_URL_LENGTH && |r.shortUrl| <= MAX_SHORT_URL_LENGTH
  }

  predicate AllWithinFieldBounds(records: seq<Record>)
  {
    forall i :: 0 <= i < |records| ==> WithinFieldBounds(records[i])
  }

  /** `UrlRecord.objects.filter(short_url=code).exists()`. */
  predicate HasCode(records: seq<Record>, code: string)
  {
    exists i :: 0 <= i < |records| && records[i].shortUrl == code
  }

  /** No two records share a `short_url`: what the views try to keep, not what the model enforces. */
  predicate UniqueCodes(records: seq<Record>)
  {
    forall i, j :: 0 <= i < j < |records| ==> records[i].shortUrl != records[j].shortUrl
  }

  /** The three outcomes of `UrlRecord.objects.get(short_url=code)`. */
  datatype Lookup =
    | DoesNotExist
    | Unique(index: nat)
    | MultipleObjectsReturned

  /** `UrlRecord.objects.get(short_url=code)`, with the record as its index in the store. */
  function Get(records: seq<Record>, code: string): (r: Lookup)
    ensures r.Unique? ==> r.index < |records| && records[r.index].shortUrl == code
  {
    if records == [] then DoesNotExist
    else
      var rest := Get(records[1..], code);
      if records[0].shortUrl == code then
        (if rest.DoesNotExist? then Unique(0) else MultipleObjectsReturned)
      else
        match rest
        case Unique(i) => Unique(i + 1)
        case _ => rest
  }

  /** `get` finds nothing exactly when no record carries the code. */
  lemma {:induction false} GetDoesNotExist(records: seq<Record>, code: string)
    ensures Get(records, code).DoesNotExist? <==> !HasCode(records, code)
  {
    if records != [] {
      GetDoesNotExist(records[1..], code);
      if HasCode(records[1..], code) {
        var i :| 0 <= i < |records[1..]| && records[1..][i].shortUrl == code;
        assert records[i + 1].shortUrl == code;
      }
      if HasCode(records, code) && records[0].shortUrl != code {
        var i :| 0 <= i < |records| && records[i].shortUrl == code;
        assert records[1..][i - 1].shortUrl == code;
      }
    }
  }

  /** A unique result is the only record carrying the code. */
  lemma {:induction false} GetUniqueIsOnlyMatch(records: seq<Record>, code: string, j: nat)
    requires Get(records, code).Unique?
    requires j < |records| && records[j].shortUrl == code
    ensures j == Get(records, code).index
  {
    var rest := Get(records[1..], code);
    if records[0].shortUrl == code {
      GetDoesNotExist(records[1..], code);
    } else {
      assert j > 0;
      GetUniqueIsOnlyMatch(records[1..], code, j - 1);
    }
  }

  /** `MultipleObjectsReturned` is raised exactly when two records carry the code. */
  lemma {:induction false} GetMultiple(records: seq<Record>, code: string)
    ensures Get(records, code).MultipleObjectsReturned? <==>
      exists i, j :: 0 <= i < j < |records| && records[i].shortUrl == code && records[j].shortUrl == code
  {
    if records != [] {
      var tail := records[1..];
      GetMultiple(tail, code);
      GetDoesNotExist(tail, code);
      if Get(records, code).MultipleObjectsReturned? {
        if records[0].shortUrl == code {
          var k :| 0 <= k < |tail| && tail[k].shortUrl == code;
          assert records[k + 1].shortUrl == code;
        } else {
          var i, j :| 0 <= i < j < |tail| && tail[i].shortUrl == code && tail[j].shortUrl == code;
          assert records[i + 1].shortUrl == code && records[j + 1].shortUrl == code;
        }
      }
      if exists i, j :: 0 <= i < j < |records| && records[i].shortUrl == code && records[j].shortUrl == code {
        var i, j :| 0 <= i < j < |records| && records[i].shortUrl == code && records[j].shortUrl == code;
        assert tail[j - 1].shortUrl == code;
        if i > 0 {
          assert tail[i - 1].shortUrl == code;
        }
      }
    }
  }

  /** In a store whose codes are unique, `get` never raises `MultipleObjectsReturned`. */
  lemma UniqueCodesRuleOutMultiple(records: seq<Record>, code: string)
    requires UniqueCodes(records)
    ensures !Get(records, code).MultipleObjectsReturned?
  {
    GetMultiple(records, code);
  }

  /** Appending a record with a fresh code makes that record the unique match. */
  lemma GetAfterAppendingFreshCode(records: seq<Record>, r: Record)
    requires !HasCode(records, r.shortUrl)
    ensures Get(records + [r], r.shortUrl) == Unique(|records|)
  {
    var s := records + [r];
    GetDoesNotExist(s, r.shortUrl);
    GetMultiple(s, r.shortUrl);
    assert s[|records|].shortUrl == r.shortUrl;
    assert forall k :: 0 <= k < |records| ==> s[k] == records[k];
    GetUniqueIsOnlyMatch(s, r.shortUrl, |records|);
  }

  /** `UrlRecord.objects`: the table of records, which the views read and append to or update in place. */
  class Store {
    var records: seq<Record>

    constructor ()
      ensures records == []
    {
      records := [];
    }

    /** `serializer.save()` for a new record: one row is added at the end. */
    method Insert(r: Record)
      modifies this
      ensures records == old(records) + [r]
    {
      records := records + [r];
    }

    /** `record.save()` for an existing row: that row is replaced, nothing else changes. */
    method Save(i: nat, r: Record)
      requires i < |records|
      modifies this
      ensures records == old(records)[i := r]
    {
      records := records[i := r];
    }
  }
}
