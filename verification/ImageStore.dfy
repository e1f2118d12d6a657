/** The two-table image store: references, digests, and the optimistic delete of a digest. */
module ImageStore {
  import opened Wrappers
  import opened Ordering

  datatype ImageRecord = ImageRecord(reference: string, digest: string, mediaType: string, manifest: string,
                                     createdAt: nat)

  datatype DeletePlan = DeletePlan(digest: string, references: seq<string>)

  /** What a permit was issued for; the permit itself is consumed by the call. */
  datatype Permit = Permit(reference: string, digest: string)

  datatype StoreError = DeleteNotFound | DeleteConflict | DeleteInventoryChanged | Unauthorized | Database

  type References = map<string, ImageRecord>

  /** The references that point at a digest. */
  function Pointing(references: References, digest: string): set<string> {
    set r | r in references && references[r].digest == digest
  }

  function Inventory(s: seq<string>): set<string> {
    set x | x in s
  }

  predicate Ascending(s: seq<string>) {
    forall i, j :: 0 <= i < j < |s| ==> Leq(s[i], s[j]) && s[i] != s[j]
  }

  /** An ascending list is determined by its elements, so comparing lists compares inventories. */
  lemma {:induction false} AscendingUnique(a: seq<string>, b: seq<string>)
    requires Ascending(a) && Ascending(b) && forall x :: x in a <==> x in b
    ensures a == b
  {
    assert (a != [] ==> a[0] in a) && (b != [] ==> b[0] in b);
    if a != [] && b != [] {
      FirstIsLeast(a, b[0]);
      FirstIsLeast(b, a[0]);
      LeqAntisymmetric(a[0], b[0]);
      assert a == [a[0]] + a[1..] && b == [b[0]] + b[1..];
      forall x
        ensures x in a[1..] <==> x in b[1..]
      {
        assert x in a <==> x == a[0] || x in a[1..];
        assert x in b <==> x == b[0] || x in b[1..];
      }
      AscendingUnique(a[1..], b[1..]);
    }
  }

  lemma FirstIsLeast(s: seq<string>, x: string)
    requires Ascending(s) && x in s
    ensures Leq(s[0], x)
  {
    LeqReflexive(x);
  }

  function InsertAscending(s: seq<string>, x: string): seq<string> {
    if s == [] then [x]
    else if Leq(x, s[0]) then [x] + s
    else [s[0]] + InsertAscending(s[1..], x)
  }

  lemma {:induction false} InsertAscendingCorrect(s: seq<string>, x: string)
    requires Ascending(s) && x !in s
    ensures Ascending(InsertAscending(s, x))
    ensures forall y :: y in InsertAscending(s, x) <==> y in s || y == x
  {
    if s != [] {
      if Leq(x, s[0]) {
        forall i | 0 <= i < |s|
          ensures Leq(x, s[i])
        {
          FirstIsLeast(s, s[i]);
          LeqTransitive(x, s[0], s[i]);
        }
      } else {
        LeqTotal(x, s[0]);
        InsertAscendingCorrect(s[1..], x);
        var rest := InsertAscending(s[1..], x);
        assert s == [s[0]] + s[1..];
        forall i | 0 <= i < |rest|
          ensures Leq(s[0], rest[i]) && s[0] != rest[i]
        {
          assert rest[i] in rest;
          if rest[i] != x {
            FirstIsLeast(s, rest[i]);
            var j :| 0 <= j < |s[1..]| && s[1..][j] == rest[i];
            assert s[j + 1] == rest[i];
          }
        }
      }
    }
  }

  /** `SELECT reference ... WHERE digest = ? ORDER BY reference`. */
  method Select(references: References, digest: string) returns (listed: seq<string>)
    ensures Ascending(listed) && forall r :: r in listed <==> r in Pointing(references, digest)
  {
    listed := [];
    var todo := Pointing(references, digest);
    while todo != {}
      invariant todo <= Pointing(references, digest)
      invariant Ascending(listed)
      invariant forall r :: r in listed <==> r in Pointing(references, digest) && r !in todo
      decreases todo
    {
      var r :| r in todo;
      InsertAscendingCorrect(listed, r);
      listed, todo := InsertAscending(listed, r), todo - {r};
    }
  }

  /** One permit per planned reference, in order, each for that reference and the planned digest. */
  predicate PermitsMatch(plan: DeletePlan, permits: seq<Permit>) {
    && |permits| == |plan.references|
    && forall i :: 0 <= i < |permits| ==> permits[i].reference == plan.references[i] && permits[i].digest == plan.digest
  }

  /** The planned references, in order, are all that point at the digest. */
  predicate Current(plan: DeletePlan, references: References) {
    Ascending(plan.references) && Inventory(plan.references) == Pointing(references, plan.digest)
  }

  class LocalImageStore {
    var references: References
    var digests: map<string, ImageRecord>
    ghost var faults: nat  // how often the database failed a transaction

    /** Every reference is filed under its own name and points at a digest that has a row. */
    ghost predicate Valid()
      reads this
    {
      && (forall r :: r in references ==> references[r].reference == r && references[r].digest in digests)
      && (forall d :: d in digests ==> digests[d].digest == d)
    }

    constructor ()
      ensures Valid() && references == map[] && digests == map[]
    {
      references, digests, faults := map[], map[], 0;
    }

    /** Both rows are written in one transaction, or neither is. */
    method PutReference(reference: string, digest: string, mediaType: string, manifest: string, now: nat)
      returns (ok: bool)
      requires Valid()
      modifies this
      ensures Valid() && faults >= old(faults) && (ok <==> faults == old(faults))
      ensures !ok ==> references == old(references) && digests == old(digests)
      ensures ok ==> var record := ImageRecord(reference, digest, mediaType, manifest, now);
                     references == old(references)[reference := record] && digests == old(digests)[digest := record]
    {
      ok := *;
      if ok {
        var record := ImageRecord(reference, digest, mediaType, manifest, now);
        references, digests := references[reference := record], digests[digest := record];
      } else {
        faults := faults + 1;
      }
    }

    /** Removes the reference only while it still points at the given digest; the digest row stays. */
    method RemoveReferenceIfDigest(reference: string, digest: string) returns (removed: bool)
      requires Valid()
      modifies this
      ensures Valid() && digests == old(digests) && faults == old(faults)
      ensures removed <==> reference in old(references) && old(references)[reference].digest == digest
      ensures references == if removed then old(references) - {reference} else old(references)
    {
      removed := reference in references && references[reference].digest == digest;
      if removed {
        references := references - {reference};
      }
    }

    /** The inventory of a delete, or the reason there is none. */
    method PrepareDigestDelete(digest: string, force: bool) returns (r: Result<DeletePlan, StoreError>)
      requires Valid()
      ensures r == Err(DeleteNotFound) <==> Pointing(references, digest) == {}
      ensures r == Err(DeleteConflict) <==> !force && |Pointing(references, digest)| > 1
      ensures r.Ok? <==> |Pointing(references, digest)| == 1 || (force && Pointing(references, digest) != {})
      ensures r.Ok? ==> r.value.digest == digest && Ascending(r.value.references)
                        && Inventory(r.value.references) == Pointing(references, digest)
    {
      var listed := Select(references, digest);
      ListedCount(listed);
      assert Inventory(listed) == Pointing(references, digest);
      if listed == [] {
        return Err(DeleteNotFound);
      }
      assert listed[0] in Pointing(references, digest);
      if !force && |listed| != 1 {
        return Err(DeleteConflict);
      }
      return Ok(DeletePlan(digest, listed));
    }

    /**
     * Whatever was written since the plan was made, the delete either leaves both tables as they
     * are or removes exactly the planned references and the digest row. It goes ahead exactly
     * when every planned reference has its permit, the planned references in order are still all
     * that point at the digest, and the database works.
     */
    method ExecuteDigestDelete(plan: DeletePlan, permits: seq<Permit>) returns (r: Result<bool, StoreError>)
      requires Valid()
      modifies this
      ensures Valid() && faults >= old(faults)
      ensures r.Err? ==> references == old(references) && digests == old(digests)
      ensures r.Ok? ==>
                r.value && references == old(references) - Inventory(plan.references)
                && digests == old(digests) - {plan.digest}
      ensures r == Err(DeleteNotFound) <==> plan.references == []
      ensures r == Err(Unauthorized) <==> plan.references != [] && !PermitsMatch(plan, permits)
      ensures r == Err(Database) <==> faults != old(faults)
      ensures r.Ok? <==> plan.references != [] && PermitsMatch(plan, permits) && faults == old(faults)
                         && Current(plan, old(references))
      ensures r.Err? ==> r.error in {DeleteNotFound, Unauthorized, Database, DeleteInventoryChanged}
    {
      if plan.references == [] {
        return Err(DeleteNotFound);
      }
      var expected := seq(|plan.references|,
                          i requires 0 <= i < |plan.references| => Permit(plan.references[i], plan.digest));
      if permits != expected {
        return Err(Unauthorized);
      }
      var failed: bool := *;
      if failed {
        faults := faults + 1;
        return Err(Database);
      }
      var current := Select(references, plan.digest);
      if Current(plan, references) {
        SameInventory(current, plan.references, Pointing(references, plan.digest));
      }
      if current != plan.references {
        return Err(DeleteInventoryChanged);
      }
      assert current[0] in Pointing(references, plan.digest);
      assert Inventory(plan.references) == Pointing(references, plan.digest);
      references := references - Inventory(plan.references);
      digests := digests - {plan.digest};
      return Ok(true);
    }

    /** The deletion step of a prune: the selected references go, the digest rows stay. */
    method PruneReferences(selected: seq<string>) returns (removed: nat)
      requires Valid()
      modifies this
      ensures Valid() && digests == old(digests) && faults == old(faults)
      ensures references == old(references) - Inventory(selected)
      ensures removed == |old(references).Keys| - |references.Keys|
    {
      removed, references := DeleteEach(references, selected);
    }
  }

  /** One `DELETE` per selected reference; a reference selected twice is counted once. */
  method DeleteEach(references: References, selected: seq<string>) returns (removed: nat, kept: References)
    ensures kept == references - Inventory(selected)
    ensures removed == |references.Keys| - |kept.Keys|
  {
    removed, kept := 0, references;
    ghost var gone: set<string> := {};
    for i := 0 to |selected|
      invariant gone == Inventory(selected[..i]) && kept == references - gone
      invariant removed + |kept.Keys| == |references.Keys|
    {
      InventoryGrows(selected, i);
      DropNext(references, gone, selected[i]);
      DropSize(kept, selected[i]);
      removed := removed + if selected[i] in kept then 1 else 0;
      kept, gone := kept - {selected[i]}, gone + {selected[i]};
    }
    assert selected[..|selected|] == selected;
  }

  lemma InventoryGrows(s: seq<string>, i: nat)
    requires i < |s|
    ensures Inventory(s[..i + 1]) == Inventory(s[..i]) + {s[i]}
  {
    assert s[..i + 1] == s[..i] + [s[i]];
  }

  lemma DropNext(references: References, gone: set<string>, r: string)
    ensures references - gone - {r} == references - (gone + {r})
  {
  }

  lemma DropSize(references: References, r: string)
    ensures |(references - {r}).Keys| == |references.Keys| - if r in references then 1 else 0
  {
    var fewer := references - {r};
    if r in references {
      assert references.Keys == fewer.Keys + {r};
    } else {
      assert references.Keys == fewer.Keys;
    }
  }

  lemma SameInventory(a: seq<string>, b: seq<string>, inventory: set<string>)
    requires Ascending(a) && Ascending(b)
    requires (forall x :: x in a <==> x in inventory) && Inventory(b) == inventory
    ensures a == b
  {
    forall x
      ensures x in a <==> x in b
    {
      assert x in b <==> x in Inventory(b);
    }
    AscendingUnique(a, b);
  }

  lemma {:induction false} ListedCount(s: seq<string>)
    requires Ascending(s)
    ensures |Inventory(s)| == |s|
  {
    if s != [] {
      ListedCount(s[1..]);
      assert s == [s[0]] + s[1..];
      assert Inventory(s) == {s[0]} + Inventory(s[1..]);
      assert s[0] !in s[1..];
    }
  }
}
