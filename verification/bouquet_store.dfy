/** The bouquet collection store: the in-memory `bouquets` list and the four
    actions that replace it with an updated copy. Persistence is not modelled. */
module BouquetStore {
  import opened Wrappers
  import opened Bouquets

  /** The store starts with no bouquets. */
  const InitialBouquets: seq<Bouquet> := []

  /** `addBouquet`: append `{ id: freshId, ...d }`. The id the store would mint
      with `uuidv4()` is the parameter `freshId`. */
  function AddBouquet(bs: seq<Bouquet>, d: Details, freshId: string): (r: seq<Bouquet>)
    ensures |r| == |bs| + 1
    ensures r[..|bs|] == bs
    ensures r[|bs|] == Bouquet(freshId, d)
  {
    bs + [Bouquet(freshId, d)]
  }

  /** `updateBouquet`: spread `p` into every record whose id is `id`. */
  function UpdateBouquet(bs: seq<Bouquet>, id: string, p: Patch): (r: seq<Bouquet>)
    ensures |r| == |bs|
    ensures forall i :: 0 <= i < |bs| && bs[i].id == id ==> r[i] == Merge(bs[i], p)
    ensures forall i :: 0 <= i < |bs| && bs[i].id != id ==> r[i] == bs[i]
  {
    if bs == [] then []
    else [if bs[0].id == id then Merge(bs[0], p) else bs[0]] + UpdateBouquet(bs[1..], id, p)
  }

  /** `deleteBouquet`: keep the records whose id is not `id`. */
  function DeleteBouquet(bs: seq<Bouquet>, id: string): (r: seq<Bouquet>)
    ensures |r| <= |bs|
    ensures forall i :: 0 <= i < |r| ==> r[i].id != id
    ensures forall b :: multiset(r)[b] == if b.id == id then 0 else multiset(bs)[b]
    ensures IsSubsequence(r, bs)
  {
    if bs == [] then []
    else
      assert bs == [bs[0]] + bs[1..];
      var rest := DeleteBouquet(bs[1..], id);
      if bs[0].id == id then rest
      else
        assert ([bs[0]] + rest)[1..] == rest;
        [bs[0]] + rest
  }

  /** `togglePurchased`: negate `purchased` on every record whose id is `id`. */
  function TogglePurchased(bs: seq<Bouquet>, id: string): (r: seq<Bouquet>)
    ensures |r| == |bs|
    ensures forall i :: 0 <= i < |bs| ==> r[i].id == bs[i].id
    ensures forall i :: 0 <= i < |bs| && bs[i].id == id ==>
      r[i].details == bs[i].details.(purchased := !bs[i].details.purchased)
    ensures forall i :: 0 <= i < |bs| && bs[i].id != id ==> r[i] == bs[i]
  {
    if bs == [] then []
    else
      var b := bs[0];
      [if b.id == id then b.(details := b.details.(purchased := !b.details.purchased)) else b]
        + TogglePurchased(bs[1..], id)
  }

  // ----- addBouquet -----

  /** Appending a record with a fresh id keeps the ids unique. */
  lemma AddPreservesUniqueIds(bs: seq<Bouquet>, d: Details, freshId: string)
    requires UniqueIds(bs)
    requires !HasId(bs, freshId)
    ensures UniqueIds(AddBouquet(bs, d, freshId))
    ensures HasId(AddBouquet(bs, d, freshId), freshId)
  {
    var r := AddBouquet(bs, d, freshId);
    assert r[|bs|].id == freshId;
    forall i, j | 0 <= i < |r| && 0 <= j < |r| && i != j
      ensures r[i].id != r[j].id
    {
      if i < |bs| && j < |bs| {
        assert r[i] == bs[i] && r[j] == bs[j];
      } else if i < |bs| {
        assert r[i] == bs[i];
      } else {
        assert r[j] == bs[j];
      }
    }
  }

  /** Deleting commutes with concatenation. */
  lemma {:induction false} DeleteAppend(a: seq<Bouquet>, b: seq<Bouquet>, id: string)
    ensures DeleteBouquet(a + b, id) == DeleteBouquet(a, id) + DeleteBouquet(b, id)
    decreases |a|
  {
    if a == [] {
      assert a + b == b;
    } else {
      assert (a + b)[0] == a[0];
      assert (a + b)[1..] == a[1..] + b;
      DeleteAppend(a[1..], b, id);
    }
  }

  /** Deleting the id just added restores the collection. */
  lemma DeleteUndoesAdd(bs: seq<Bouquet>, d: Details, freshId: string)
    requires !HasId(bs, freshId)
    ensures DeleteBouquet(AddBouquet(bs, d, freshId), freshId) == bs
  {
    DeleteAppend(bs, [Bouquet(freshId, d)], freshId);
    DeleteUnknownIdIsNoop(bs, freshId);
    assert DeleteBouquet([Bouquet(freshId, d)], freshId) == [];
  }

  // ----- updateBouquet -----

  /** Updating an id no record has changes nothing. */
  lemma UpdateUnknownIdIsNoop(bs: seq<Bouquet>, id: string, p: Patch)
    requires !HasId(bs, id)
    ensures UpdateBouquet(bs, id, p) == bs
  {
    var r := UpdateBouquet(bs, id, p);
    assert forall i :: 0 <= i < |bs| ==> r[i] == bs[i];
  }

  /** A partial without an `id` key leaves every id where it was, and so
      keeps the ids unique. */
  lemma UpdateWithoutIdKeepsIds(bs: seq<Bouquet>, id: string, p: Patch)
    requires p.id.None?
    ensures forall i :: 0 <= i < |bs| ==> UpdateBouquet(bs, id, p)[i].id == bs[i].id
    ensures UniqueIds(bs) ==> UniqueIds(UpdateBouquet(bs, id, p))
  {
    var r := UpdateBouquet(bs, id, p);
    assert forall i :: 0 <= i < |bs| ==> r[i].id == bs[i].id;
  }

  /** Updating with the full partial of `d` keeps every id and gives each
      matching record exactly the fields `d`. */
  lemma UpdateWithAllKeys(bs: seq<Bouquet>, id: string, d: Details)
    requires HasAllKeys(d)
    ensures var r := UpdateBouquet(bs, id, PatchOf(d));
      && |r| == |bs|
      && (forall i :: 0 <= i < |bs| ==> r[i].id == bs[i].id)
      && (forall i :: 0 <= i < |bs| && bs[i].id == id ==> r[i].details == d)
      && (forall i :: 0 <= i < |bs| && bs[i].id != id ==> r[i] == bs[i])
  {
    var p := PatchOf(d);
    var r := UpdateBouquet(bs, id, p);
    forall i | 0 <= i < |bs| && bs[i].id == id ensures r[i] == Bouquet(bs[i].id, d) {
      assert r[i] == Merge(bs[i], p);
    }
  }

  /** A partial that carries an `id` key overwrites the id of the record it
      is spread into: updating "a" with `{ id: "b" }` in a collection holding
      "a" and "b" leaves two records with id "b". */
  lemma UpdateWithIdCanBreakUniqueness(d: Details)
    ensures UniqueIds([Bouquet("a", d), Bouquet("b", d)])
    ensures !UniqueIds(UpdateBouquet([Bouquet("a", d), Bouquet("b", d)], "a", EmptyPatch.(id := Some("b"))))
  {
    var r := UpdateBouquet([Bouquet("a", d), Bouquet("b", d)], "a", EmptyPatch.(id := Some("b")));
    assert r[0].id == "b" && r[1].id == "b";
  }

  // ----- deleteBouquet -----

  /** Deleting an id no record has changes nothing. */
  lemma {:induction false} DeleteUnknownIdIsNoop(bs: seq<Bouquet>, id: string)
    requires !HasId(bs, id)
    ensures DeleteBouquet(bs, id) == bs
    decreases |bs|
  {
    if bs != [] {
      assert bs[0].id != id;
      assert !HasId(bs[1..], id) by {
        forall i | 0 <= i < |bs[1..]| ensures bs[1..][i].id != id {
          assert bs[1..][i] == bs[i + 1];
        }
      }
      DeleteUnknownIdIsNoop(bs[1..], id);
      assert bs == [bs[0]] + bs[1..];
    }
  }

  /** After a delete no record has the id, and deleting again changes nothing. */
  lemma DeleteIdempotent(bs: seq<Bouquet>, id: string)
    ensures !HasId(DeleteBouquet(bs, id), id)
    ensures DeleteBouquet(DeleteBouquet(bs, id), id) == DeleteBouquet(bs, id)
  {
    DeleteUnknownIdIsNoop(DeleteBouquet(bs, id), id);
  }

  /** Every record that survives a delete was in the collection before. */
  lemma DeleteKeepsOnlyOldRecords(bs: seq<Bouquet>, id: string, b: Bouquet)
    requires b in DeleteBouquet(bs, id)
    ensures b in bs && b.id != id
  {
    var r := DeleteBouquet(bs, id);
    assert multiset(r)[b] > 0;
  }

  lemma UniqueIdsTail(bs: seq<Bouquet>)
    requires UniqueIds(bs) && bs != []
    ensures UniqueIds(bs[1..])
  {
    var tail := bs[1..];
    forall i, j | 0 <= i < |tail| && 0 <= j < |tail| && i != j
      ensures tail[i].id != tail[j].id
    {
      assert tail[i] == bs[i + 1] && tail[j] == bs[j + 1];
    }
  }

  lemma UniqueIdsCons(b: Bouquet, rest: seq<Bouquet>)
    requires UniqueIds(rest)
    requires forall k :: 0 <= k < |rest| ==> rest[k].id != b.id
    ensures UniqueIds([b] + rest)
  {
    var r := [b] + rest;
    forall i, j | 0 <= i < |r| && 0 <= j < |r| && i != j
      ensures r[i].id != r[j].id
    {
      if i > 0 && j > 0 {
        assert r[i] == rest[i - 1] && r[j] == rest[j - 1];
      } else if i > 0 {
        assert r[i] == rest[i - 1];
      } else {
        assert r[j] == rest[j - 1];
      }
    }
  }

  /** Deleting keeps the ids unique. */
  lemma {:induction false} DeletePreservesUniqueIds(bs: seq<Bouquet>, id: string)
    requires UniqueIds(bs)
    ensures UniqueIds(DeleteBouquet(bs, id))
    decreases |bs|
  {
    if bs != [] {
      var tail := bs[1..];
      UniqueIdsTail(bs);
      DeletePreservesUniqueIds(tail, id);
      var rest := DeleteBouquet(tail, id);
      if bs[0].id != id {
        forall k | 0 <= k < |rest| ensures rest[k].id != bs[0].id {
          DeleteKeepsOnlyOldRecords(tail, id, rest[k]);
          var m :| 0 <= m < |tail| && tail[m] == rest[k];
          assert tail[m] == bs[m + 1];
        }
        UniqueIdsCons(bs[0], rest);
      }
    }
  }

  // ----- togglePurchased -----

  /** Toggling twice restores the collection. */
  lemma ToggleTwiceRestores(bs: seq<Bouquet>, id: string)
    ensures TogglePurchased(TogglePurchased(bs, id), id) == bs
  {
    var r := TogglePurchased(TogglePurchased(bs, id), id);
    forall i | 0 <= i < |bs| ensures r[i] == bs[i] {
      assert r[i].id == bs[i].id;
    }
  }

  /** Toggling an id no record has changes nothing. */
  lemma ToggleUnknownIdIsNoop(bs: seq<Bouquet>, id: string)
    requires !HasId(bs, id)
    ensures TogglePurchased(bs, id) == bs
  {
    var r := TogglePurchased(bs, id);
    assert forall i :: 0 <= i < |bs| ==> r[i] == bs[i];
  }

  /** Toggling keeps every id in place, hence keeps the ids unique. */
  lemma TogglePreservesUniqueIds(bs: seq<Bouquet>, id: string)
    requires UniqueIds(bs)
    ensures UniqueIds(TogglePurchased(bs, id))
  {
  }

  /** On a record with a unique id, toggling is the update that writes the
      negated flag. */
  lemma ToggleIsUpdateOfFlag(bs: seq<Bouquet>, k: int)
    requires UniqueIds(bs)
    requires 0 <= k < |bs|
    ensures TogglePurchased(bs, bs[k].id)
         == UpdateBouquet(bs, bs[k].id, EmptyPatch.(purchased := Some(!bs[k].details.purchased)))
  {
    var p := EmptyPatch.(purchased := Some(!bs[k].details.purchased));
    var t := TogglePurchased(bs, bs[k].id);
    var u := UpdateBouquet(bs, bs[k].id, p);
    forall i | 0 <= i < |bs| ensures t[i] == u[i] {
      if i == k {
        assert t[i].details == u[i].details;
      }
    }
  }
}
