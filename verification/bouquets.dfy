/** The bouquet record and the shallow object spread that updates it. */
module Bouquets {
  import opened Wrappers

  /** Every field of a bouquet except its id: what `addBouquet` receives
      (`Omit<Bouquet, "id">`). `size`, `category` and `description` are not in
      the store's interface but travel in the object the form builds, and the
      edit form reads them back. Optional keys are `Option`s. */
  datatype Details = Details(
    name: string,
    price: real,
    image: Option<string>,
    purchased: bool,
    isSold: bool,
    size: Option<string>,
    category: Option<string>,
    description: Option<string>
  )

  /** A stored record: `{ id, ...details }`. */
  datatype Bouquet = Bouquet(id: string, details: Details)

  /** A `Partial<Bouquet>`: `None` means the key is absent from the object. */
  datatype Patch = Patch(
    id: Option<string>,
    name: Option<string>,
    price: Option<real>,
    image: Option<string>,
    purchased: Option<bool>,
    isSold: Option<bool>,
    size: Option<string>,
    category: Option<string>,
    description: Option<string>
  )

  /** The partial with no keys. */
  const EmptyPatch := Patch(None, None, None, None, None, None, None, None, None)

  /** A key the partial carries overrides the record's; an absent key keeps it. */
  function Override<T>(key: Option<T>, current: Option<T>): Option<T> {
    if key.Some? then key else current
  }

  /** `{ ...b, ...p }`: every key present in `p` replaces the record's value,
      every key `p` omits keeps it. The id is a key like any other. */
  function Merge(b: Bouquet, p: Patch): (r: Bouquet)
    ensures r.id == (if p.id.Some? then p.id.value else b.id)
    ensures r.details.name == (if p.name.Some? then p.name.value else b.details.name)
    ensures r.details.price == (if p.price.Some? then p.price.value else b.details.price)
    ensures r.details.image == (if p.image.Some? then p.image else b.details.image)
    ensures r.details.purchased == (if p.purchased.Some? then p.purchased.value else b.details.purchased)
    ensures r.details.isSold == (if p.isSold.Some? then p.isSold.value else b.details.isSold)
    ensures r.details.size == (if p.size.Some? then p.size else b.details.size)
    ensures r.details.category == (if p.category.Some? then p.category else b.details.category)
    ensures r.details.description == (if p.description.Some? then p.description else b.details.description)
  {
    var d := b.details;
    Bouquet(
      p.id.GetOr(b.id),
      Details(
        p.name.GetOr(d.name),
        p.price.GetOr(d.price),
        Override(p.image, d.image),
        p.purchased.GetOr(d.purchased),
        p.isSold.GetOr(d.isSold),
        Override(p.size, d.size),
        Override(p.category, d.category),
        Override(p.description, d.description)))
  }

  /** Spreading the empty partial copies the record. */
  lemma MergeEmptyPatch(b: Bouquet)
    ensures Merge(b, EmptyPatch) == b
  {
  }

  /** Spreading the same partial twice is the same as spreading it once. */
  lemma MergeIdempotent(b: Bouquet, p: Patch)
    ensures Merge(Merge(b, p), p) == Merge(b, p)
  {
  }

  /** Every optional key of `d` holds a value, as in the object the form submits. */
  predicate HasAllKeys(d: Details) {
    d.image.Some? && d.size.Some? && d.category.Some? && d.description.Some?
  }

  /** The partial carrying the keys of `d` and no id. Spreading it keeps the
      record's id and, when `d` has all its keys, replaces everything else. */
  function PatchOf(d: Details): (p: Patch)
    ensures p.id.None?
    ensures forall b: Bouquet :: Merge(b, p).id == b.id
    ensures HasAllKeys(d) ==> forall b: Bouquet :: Merge(b, p) == Bouquet(b.id, d)
  {
    Patch(None, Some(d.name), Some(d.price), d.image, Some(d.purchased), Some(d.isSold),
          d.size, d.category, d.description)
  }

  predicate HasId(bs: seq<Bouquet>, id: string) {
    exists i :: 0 <= i < |bs| && bs[i].id == id
  }

  /** No two positions of the collection hold the same id. */
  predicate UniqueIds(bs: seq<Bouquet>) {
    forall i, j :: 0 <= i < |bs| && 0 <= j < |bs| && i != j ==> bs[i].id != bs[j].id
  }

  /** `a` is `b` with some elements removed, the rest in their original order. */
  ghost predicate IsSubsequence(a: seq<Bouquet>, b: seq<Bouquet>)
    decreases |b|
  {
    if a == [] then true
    else if b == [] then false
    else (a[0] == b[0] && IsSubsequence(a[1..], b[1..])) || IsSubsequence(a, b[1..])
  }
}
