/** The network store: the records of `networks.json`, kept sorted by logical name. */
module NetworkStore {
  import opened NetworkTypes
  import opened Ordering

  /** Insertion that keeps equal names in arrival order, as a stable sort does. */
  function InsertByName(records: seq<NetworkRecord>, record: NetworkRecord): seq<NetworkRecord> {
    if records == [] then [record] else
      var n := |records| - 1;
      if Leq(records[n].name, record.name) then records + [record]
      else InsertByName(records[..n], record) + [records[n]]
  }

  function SortByName(records: seq<NetworkRecord>): seq<NetworkRecord> {
    if records == [] then [] else
      var n := |records| - 1;
      InsertByName(SortByName(records[..n]), records[n])
  }

  predicate SortedByName(records: seq<NetworkRecord>) {
    forall i, j :: 0 <= i < j < |records| ==> Leq(records[i].name, records[j].name)
  }

  predicate DistinctNames(records: seq<NetworkRecord>) {
    forall i, j :: 0 <= i < j < |records| ==> records[i].name != records[j].name
  }

  lemma {:induction false} InsertKeepsElements(records: seq<NetworkRecord>, record: NetworkRecord)
    ensures multiset(InsertByName(records, record)) == multiset(records) + multiset{record}
  {
    if records != [] {
      var n := |records| - 1;
      InsertKeepsElements(records[..n], record);
      assert records[..n] + [records[n]] == records;
    }
  }

  lemma {:induction false} InsertKeepsOrder(records: seq<NetworkRecord>, record: NetworkRecord)
    requires SortedByName(records)
    ensures SortedByName(InsertByName(records, record))
  {
    if records != [] {
      var n := |records| - 1;
      if Leq(records[n].name, record.name) {
        forall i | 0 <= i < n
          ensures Leq(records[i].name, record.name)
        {
          LeqTransitive(records[i].name, records[n].name, record.name);
        }
      } else {
        LeqTotal(records[n].name, record.name);
        InsertKeepsOrder(records[..n], record);
        InsertKeepsElements(records[..n], record);
        var front := InsertByName(records[..n], record);
        forall i | 0 <= i < |front|
          ensures Leq(front[i].name, records[n].name)
        {
          assert front[i] in multiset(front);
          assert front[i] == record || front[i] in records[..n];
        }
      }
    }
  }

  /** Sorting loses nothing, adds nothing, and orders by name. */
  lemma {:induction false} SortIsSortedPermutation(records: seq<NetworkRecord>)
    ensures SortedByName(SortByName(records))
    ensures multiset(SortByName(records)) == multiset(records)
  {
    if records != [] {
      var n := |records| - 1;
      SortIsSortedPermutation(records[..n]);
      InsertKeepsOrder(SortByName(records[..n]), records[n]);
      InsertKeepsElements(SortByName(records[..n]), records[n]);
      assert records[..n] + [records[n]] == records;
    }
  }

  function WithRecord(records: seq<NetworkRecord>, record: NetworkRecord): seq<NetworkRecord> {
    SortByName(records + [record])
  }

  /** `retain` of every record under another name. */
  function WithoutName(records: seq<NetworkRecord>, name: string): (kept: seq<NetworkRecord>)
    ensures forall r :: r in kept <==> r in records && r.name != name
  {
    if records == [] then [] else
      var n := |records| - 1;
      WithoutName(records[..n], name) + (if records[n].name != name then [records[n]] else [])
  }

  predicate StoreOk(records: seq<NetworkRecord>) {
    SortedByName(records) && DistinctNames(records)
  }

  predicate NameStored(records: seq<NetworkRecord>, name: string) {
    exists r :: r in records && r.name == name
  }

  lemma PublishKeepsStore(records: seq<NetworkRecord>, record: NetworkRecord)
    requires DistinctNames(records) && !NameStored(records, record.name)
    ensures StoreOk(WithRecord(records, record))
    ensures forall r :: r in WithRecord(records, record) <==> r in records || r == record
  {
    var after := WithRecord(records, record);
    SortIsSortedPermutation(records + [record]);
    forall r
      ensures r in after <==> r in records || r == record
    {
      assert r in after <==> r in multiset(after);
      assert r in records + [record] <==> r in multiset(records + [record]);
    }
    DistinctSurvivesPermutation(records + [record], after);
  }

  lemma DistinctSurvivesPermutation(a: seq<NetworkRecord>, b: seq<NetworkRecord>)
    requires multiset(a) == multiset(b) && DistinctNames(a)
    ensures DistinctNames(b)
  {
    forall i, j | 0 <= i < j < |b|
      ensures b[i].name != b[j].name
    {
      if b[i].name == b[j].name {
        assert b[i] in multiset(b) && b[j] in multiset(b);
        var x :| 0 <= x < |a| && a[x] == b[i];
        var y :| 0 <= y < |a| && a[y] == b[j];
        assert x == y;
        OnceInDistinct(a, x);
        TwiceIn(b, i, j);
      }
    }
  }

  lemma OnceInDistinct(a: seq<NetworkRecord>, x: nat)
    requires DistinctNames(a) && x < |a|
    ensures multiset(a)[a[x]] == 1
  {
    assert a == a[..x] + [a[x]] + a[x + 1..];
    assert a[x] !in a[..x] && a[x] !in a[x + 1..];
  }

  lemma TwiceIn(b: seq<NetworkRecord>, i: nat, j: nat)
    requires i < j < |b| && b[i] == b[j]
    ensures multiset(b)[b[i]] >= 2
  {
    assert b == b[..j] + [b[j]] + b[j + 1..];
    assert b[i] in b[..j];
  }

  lemma {:induction false} UnpublishKeepsStore(records: seq<NetworkRecord>, name: string)
    requires DistinctNames(records)
    ensures DistinctNames(WithoutName(records, name))
    ensures SortedByName(records) ==> SortedByName(WithoutName(records, name))
  {
    if records != [] {
      var n := |records| - 1;
      UnpublishKeepsStore(records[..n], name);
      var kept := WithoutName(records[..n], name);
      forall i | 0 <= i < |kept|
        ensures kept[i].name != records[n].name && (SortedByName(records) ==> Leq(kept[i].name, records[n].name))
      {
        assert kept[i] in records[..n];
      }
    }
  }
}
