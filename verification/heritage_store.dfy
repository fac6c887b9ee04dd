/**
 * The stored heritage records and the read operations over them: listing all
 * records newest first and counting them. The document store is modelled as
 * the sequence of records in insertion order; whether it can be reached is a
 * parameter of each operation.
 */
module HeritageStore {
  import opened Results
  import opened FormBody
  import opened Images

  /** The raw `lat` and `lng` body values; the float parse applied to them is not modelled. */
  datatype Coordinates = Coordinates(lat: BodyValue, lng: BodyValue)

  /** One stored submission. */
  datatype HeritageRecord = HeritageRecord(
    id: nat,
    createdAt: int,
    serialNumber: BodyValue,
    fields: map<string, Scalar>,
    coordinates: Coordinates,
    images: CategoryImages)

  /** The stored records, oldest first. */
  type Store = seq<HeritageRecord>

  predicate NewestFirst(s: seq<HeritageRecord>) {
    forall i, j :: 0 <= i < j < |s| ==> s[i].createdAt >= s[j].createdAt
  }

  predicate UniqueIds(s: seq<HeritageRecord>) {
    forall i, j :: 0 <= i < j < |s| ==> s[i].id != s[j].id
  }

  /** Places `x` into a newest-first sequence, ahead of every record not newer than it. */
  function InsertNewestFirst(x: HeritageRecord, s: seq<HeritageRecord>): (r: seq<HeritageRecord>)
    requires NewestFirst(s)
    ensures NewestFirst(r)
    ensures multiset(r) == multiset(s) + multiset{x}
    ensures |r| > 0 && (r[0] == x || (|s| > 0 && r[0] == s[0]))
    decreases |s|
  {
    if |s| == 0 || x.createdAt >= s[0].createdAt then [x] + s
    else
      assert s == [s[0]] + s[1..];
      [s[0]] + InsertNewestFirst(x, s[1..])
  }

  /** The records of `s` ordered by `createdAt`, newest first. */
  function SortNewestFirst(s: seq<HeritageRecord>): (r: seq<HeritageRecord>)
    ensures NewestFirst(r)
    ensures multiset(r) == multiset(s)
    decreases |s|
  {
    if |s| == 0 then []
    else
      assert s == [s[0]] + s[1..];
      InsertNewestFirst(s[0], SortNewestFirst(s[1..]))
  }

  /** The reply to a listing request. */
  datatype ListResponse =
    | Listed(records: seq<HeritageRecord>)   // 200 with every record
    | ListFailed(error: string)              // 500

  /**
   * All stored records, newest first, or a failure when the store cannot be
   * read (`fault` carries the store's error).
   */
  function ListSubmissions(store: Store, fault: Option<string>): (r: ListResponse)
    ensures r.Listed? <==> fault.None?
    ensures r.Listed? ==> NewestFirst(r.records) && multiset(r.records) == multiset(store)
    ensures r.ListFailed? ==> r.error == "Failed to fetch submissions"
  {
    if fault.Some? then ListFailed("Failed to fetch submissions")
    else Listed(SortNewestFirst(store))
  }

  /** The reply to the health probe. */
  datatype ProbeResponse =
    | Counted(count: nat, message: string, timestamp: string)  // 200
    | ProbeFailed(error: string, details: string)              // 500

  /**
   * The health probe: the number of stored records, or a failure carrying the
   * store's error. The timestamp is supplied by the caller.
   */
  function Probe(store: Store, fault: Option<string>, timestamp: string): (r: ProbeResponse)
    ensures r.Counted? <==> fault.None?
    ensures r.Counted? ==> r.count == |store| && r.message == "Test endpoint working"
    ensures r.ProbeFailed? ==> r.error == "Test failed" && r.details == fault.value
  {
    if fault.Some? then ProbeFailed("Test failed", fault.value)
    else Counted(|store|, "Test endpoint working", timestamp)
  }

  /**
   * A record strictly newer than every other stored record heads the listing.
   */
  lemma {:induction false} StrictlyNewestListedFirst(store: Store, x: HeritageRecord)
    requires x in store
    requires forall y :: y in store && y != x ==> y.createdAt < x.createdAt
    ensures ListSubmissions(store, None).Listed?
    ensures ListSubmissions(store, None).records[0] == x
  {
    var r := SortNewestFirst(store);
    assert x in multiset(store);
    assert x in multiset(r);
    assert x in r;
    var k :| 0 <= k < |r| && r[k] == x;
    assert r[0] in multiset(r);
    assert r[0] in store;
    assert r[0].createdAt >= r[k].createdAt;
  }

  /** A record appended with a creation time later than all stored ones heads the listing. */
  lemma {:induction false} AppendedNewestListedFirst(store: Store, x: HeritageRecord)
    requires forall i :: 0 <= i < |store| ==> store[i].createdAt < x.createdAt
    ensures ListSubmissions(store + [x], None).records[0] == x
  {
    var s := store + [x];
    assert s[|store|] == x;
    forall y | y in s && y != x
      ensures y.createdAt < x.createdAt
    {
      var k :| 0 <= k < |s| && s[k] == y;
      assert s[k] == store[k];
    }
    StrictlyNewestListedFirst(s, x);
  }

  /** Every stored record appears in the listing. */
  lemma ListingKeepsEveryRecord(store: Store)
    ensures forall x :: x in store ==> x in ListSubmissions(store, None).records
  {
    var r := ListSubmissions(store, None).records;
    forall x | x in store
      ensures x in r
    {
      assert x in multiset(store);
    }
  }
}
