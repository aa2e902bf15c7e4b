/** Sequences of store actions starting from the empty store. */
module StoreRuns {
  import opened Wrappers
  import opened Bouquets
  import opened BouquetStore

  /** One call into the store. `Add` carries the id `uuidv4()` returned. */
  datatype Action =
    | Add(details: Details, freshId: string)
    | Update(id: string, patch: Patch)
    | Delete(id: string)
    | Toggle(id: string)

  function Apply(bs: seq<Bouquet>, a: Action): seq<Bouquet> {
    match a
    case Add(d, freshId) => AddBouquet(bs, d, freshId)
    case Update(id, p) => UpdateBouquet(bs, id, p)
    case Delete(id) => DeleteBouquet(bs, id)
    case Toggle(id) => TogglePurchased(bs, id)
  }

  function Run(bs: seq<Bouquet>, acts: seq<Action>): seq<Bouquet>
    decreases |acts|
  {
    if acts == [] then bs else Run(Apply(bs, acts[0]), acts[1..])
  }

  /** The conditions the uniqueness invariant needs of one action: a freshly
      minted id is new, and an update's partial carries no `id` key. */
  predicate Permitted(bs: seq<Bouquet>, a: Action) {
    match a
    case Add(_, freshId) => !HasId(bs, freshId)
    case Update(_, p) => p.id.None?
    case _ => true
  }

  /** Every action of the run is permitted in the state it is applied to. */
  predicate PermittedRun(bs: seq<Bouquet>, acts: seq<Action>)
    decreases |acts|
  {
    acts == [] || (Permitted(bs, acts[0]) && PermittedRun(Apply(bs, acts[0]), acts[1..]))
  }

  lemma ApplyPreservesUniqueIds(bs: seq<Bouquet>, a: Action)
    requires UniqueIds(bs) && Permitted(bs, a)
    ensures UniqueIds(Apply(bs, a))
  {
    match a
    case Add(d, freshId) => AddPreservesUniqueIds(bs, d, freshId);
    case Update(id, p) => UpdateWithoutIdKeepsIds(bs, id, p);
    case Delete(id) => DeletePreservesUniqueIds(bs, id);
    case Toggle(id) => TogglePreservesUniqueIds(bs, id);
  }

  lemma {:induction false} RunPreservesUniqueIds(bs: seq<Bouquet>, acts: seq<Action>)
    requires UniqueIds(bs) && PermittedRun(bs, acts)
    ensures UniqueIds(Run(bs, acts))
    decreases |acts|
  {
    if acts != [] {
      ApplyPreservesUniqueIds(bs, acts[0]);
      RunPreservesUniqueIds(Apply(bs, acts[0]), acts[1..]);
    }
  }

  /** Every collection reachable from the initial empty store by permitted
      actions has unique ids. */
  lemma ReachableUniqueIds(acts: seq<Action>)
    requires PermittedRun(InitialBouquets, acts)
    ensures UniqueIds(Run(InitialBouquets, acts))
  {
    RunPreservesUniqueIds(InitialBouquets, acts);
  }
}
