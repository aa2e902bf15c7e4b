/** The add/edit bouquet form: its field state, the transitions its handlers
    make, and `handleSubmit`, which validates, normalises and dispatches to the
    store. Alerts, closing the modal and rendering are not modelled. */
module BouquetForm {
  import opened Wrappers
  import opened Text
  import opened Bouquets
  import opened BouquetStore

  /** The form's state hooks. Every text input holds a string; `selectedImage`
      is `string | null`. */
  datatype FormState = FormState(
    name: string,
    price: string,
    size: string,
    category: string,
    description: string,
    image: string,
    selectedImage: Option<string>,
    purchased: bool
  )

  /** The image stored when neither a picked image nor a URL was given. */
  const PlaceholderImage: string :=
    "https://images.unsplash.com/photo-1560743641-3914f2c45636?w=400"

  /** Every text field empty, no picked image, not purchased. */
  predicate IsCleared(f: FormState) {
    && f.name == "" && f.price == "" && f.size == "" && f.category == ""
    && f.description == "" && f.image == "" && f.selectedImage.None? && !f.purchased
  }

  /** `resetForm`. */
  function ResetForm(f: FormState): (r: FormState)
    ensures IsCleared(r)
  {
    FormState("", "", "", "", "", "", None, false)
  }

  /** `x || ""` for an optional string. */
  function OrEmpty(x: Option<string>): string {
    x.GetOr("")
  }

  /** `x || null` for an optional string: the empty string is falsy too. */
  function NonEmptyOrNull(x: Option<string>): (r: Option<string>)
    ensures r.Some? <==> x.Some? && x.value != ""
    ensures r.Some? ==> r == x
  {
    if x.Some? && x.value != "" then x else None
  }

  /** The form filled from the record being edited. `show` stands for
      `Number.prototype.toString`. */
  function Prefilled(b: Bouquet, show: real -> string): FormState {
    var d := b.details;
    FormState(d.name, show(d.price), OrEmpty(d.size), OrEmpty(d.category),
              OrEmpty(d.description), OrEmpty(d.image), NonEmptyOrNull(d.image), d.purchased)
  }

  /** The effect run when `visible` or `editItem` changes: on opening, prefill
      from the record in edit mode and reset in add mode; while hidden, leave
      the form alone. */
  function OnOpen(f: FormState, visible: bool, editItem: Option<Bouquet>, show: real -> string): (r: FormState)
    ensures !visible ==> r == f
    ensures visible && editItem.None? ==> IsCleared(r)
    ensures visible && editItem.Some? ==>
      var d := editItem.value.details;
      && r.name == d.name && r.price == show(d.price)
      && (d.size.Some? ==> r.size == d.size.value) && (d.size.None? ==> r.size == "")
      && (d.category.Some? ==> r.category == d.category.value) && (d.category.None? ==> r.category == "")
      && (d.description.Some? ==> r.description == d.description.value)
      && (d.description.None? ==> r.description == "")
      && (d.image.Some? ==> r.image == d.image.value) && (d.image.None? ==> r.image == "")
      && (r.selectedImage.Some? <==> d.image.Some? && d.image.value != "")
      && (r.selectedImage.Some? ==> r.selectedImage == d.image)
      && r.purchased == d.purchased
  {
    if !visible then f
    else if editItem.Some? then Prefilled(editItem.value, show)
    else ResetForm(f)
  }

  /** `removeImage`: forget the picked image and the URL, nothing else. */
  function RemoveImage(f: FormState): (r: FormState)
    ensures r.selectedImage.None? && r.image == ""
    ensures r.(image := f.image, selectedImage := f.selectedImage) == f
  {
    f.(selectedImage := None, image := "")
  }

  /** The URL input's `onChangeText`: store the text, and drop the picked image
      when the text is non-empty and not a local `file://` URI. */
  function TypeImageUrl(f: FormState, text: string): (r: FormState)
    ensures r.image == text
    ensures text != "" && !StartsWith(text, "file://") ==> r.selectedImage.None?
    ensures text == "" || StartsWith(text, "file://") ==> r.selectedImage == f.selectedImage
    ensures r.(image := f.image, selectedImage := f.selectedImage) == f
  {
    var selected := if text != "" && !StartsWith(text, "file://") then None else f.selectedImage;
    f.(image := text, selectedImage := selected)
  }

  /** The state update after the gallery or camera returned an asset `uri`. */
  function PickImage(f: FormState, uri: string): (r: FormState)
    ensures r.selectedImage == Some(uri) && r.image == uri
    ensures r.(image := f.image, selectedImage := f.selectedImage) == f
  {
    f.(selectedImage := Some(uri), image := uri)
  }

  /** The submit guard: the trimmed name and the trimmed price are both non-empty. */
  predicate CanSubmit(f: FormState) {
    Trim(f.name) != "" && Trim(f.price) != ""
  }

  /** `parseFloat(price) || 0`. `parsed` is what `parseFloat` returned, `None`
      standing for NaN; NaN and zero both give zero. */
  function PriceOrZero(parsed: Option<real>): (r: real)
    ensures r == 0.0 <==> parsed.None? || parsed.value == 0.0
    ensures parsed.Some? ==> r == parsed.value
  {
    if parsed.Some? && parsed.value != 0.0 then parsed.value else 0.0
  }

  /** `selectedImage || image.trim() || placeholder`. */
  function ChooseImage(selected: Option<string>, url: string): (r: string)
    ensures r != ""
    ensures selected.Some? && selected.value != "" ==> r == selected.value
    ensures (selected.None? || selected.value == "") && Trim(url) != "" ==> r == Trim(url)
    ensures (selected.None? || selected.value == "") && Trim(url) == "" ==> r == PlaceholderImage
  {
    if selected.Some? && selected.value != "" then selected.value
    else if Trim(url) != "" then Trim(url)
    else PlaceholderImage
  }

  /** The object `handleSubmit` sends to the store. `parse` stands for
      `parseFloat`. */
  function SubmittedDetails(f: FormState, parse: string -> Option<real>): (d: Details)
    ensures HasAllKeys(d)
    ensures d.name == Trim(f.name) && d.size.value == Trim(f.size)
    ensures d.category.value == Trim(f.category) && d.description.value == Trim(f.description)
    ensures Trim(d.name) == d.name && Trim(d.size.value) == d.size.value
    ensures Trim(d.category.value) == d.category.value
    ensures Trim(d.description.value) == d.description.value
    ensures d.price == PriceOrZero(parse(f.price))
    ensures d.image == Some(ChooseImage(f.selectedImage, f.image)) && d.image.value != ""
    ensures d.purchased == f.purchased && !d.isSold
  {
    TrimIdempotent(f.name);
    TrimIdempotent(f.size);
    TrimIdempotent(f.category);
    TrimIdempotent(f.description);
    Details(
      Trim(f.name),
      PriceOrZero(parse(f.price)),
      Some(ChooseImage(f.selectedImage, f.image)),
      f.purchased,
      false,
      Some(Trim(f.size)),
      Some(Trim(f.category)),
      Some(Trim(f.description)))
  }

  /** The store call a submit makes, if any. */
  datatype StoreCall =
    | NoCall
    | AddCall(details: Details)
    | UpdateCall(id: string, patch: Patch)

  /** What a submit leaves behind: the form, the store call, and the collection. */
  datatype Submission = Submission(form: FormState, call: StoreCall, bouquets: seq<Bouquet>)

  /** `handleSubmit` against the collection `bs`. `freshId` is the id
      `addBouquet` would mint. */
  function HandleSubmit(
    f: FormState, editItem: Option<Bouquet>, parse: string -> Option<real>,
    bs: seq<Bouquet>, freshId: string): (r: Submission)
    ensures !CanSubmit(f) ==> r == Submission(f, NoCall, bs)
    ensures CanSubmit(f) ==> IsCleared(r.form) && !r.call.NoCall?
    ensures CanSubmit(f) && editItem.Some? ==>
      && r.call == UpdateCall(editItem.value.id, PatchOf(SubmittedDetails(f, parse)))
      && r.bouquets == UpdateBouquet(bs, editItem.value.id, r.call.patch)
    ensures CanSubmit(f) && editItem.None? ==>
      && r.call == AddCall(SubmittedDetails(f, parse))
      && r.bouquets == AddBouquet(bs, r.call.details, freshId)
  {
    if !CanSubmit(f) then Submission(f, NoCall, bs)
    else
      var d := SubmittedDetails(f, parse);
      if editItem.Some? then
        var p := PatchOf(d);
        Submission(ResetForm(f), UpdateCall(editItem.value.id, p), UpdateBouquet(bs, editItem.value.id, p))
      else
        Submission(ResetForm(f), AddCall(d), AddBouquet(bs, d, freshId))
  }

  // ----- properties of submit -----

  /** A submit is rejected exactly when the name or the price is blank. */
  lemma SubmitRejectedIffBlank(
    f: FormState, editItem: Option<Bouquet>, parse: string -> Option<real>,
    bs: seq<Bouquet>, freshId: string)
    ensures HandleSubmit(f, editItem, parse, bs, freshId).call.NoCall?
        <==> AllWhitespace(f.name) || AllWhitespace(f.price)
  {
  }

  /** An add-mode submit appends exactly one record, carrying the fresh id and
      the normalised fields, after the unchanged old records. */
  lemma SubmitAddAppends(
    f: FormState, parse: string -> Option<real>, bs: seq<Bouquet>, freshId: string)
    requires CanSubmit(f)
    ensures HandleSubmit(f, None, parse, bs, freshId).bouquets
         == bs + [Bouquet(freshId, SubmittedDetails(f, parse))]
  {
  }

  /** An edit-mode submit keeps the collection's length and every id, gives
      each record with the edited id the normalised fields, and leaves the
      other records alone. */
  lemma SubmitEditUpdates(
    f: FormState, item: Bouquet, parse: string -> Option<real>, bs: seq<Bouquet>, freshId: string)
    requires CanSubmit(f)
    ensures var r := HandleSubmit(f, Some(item), parse, bs, freshId).bouquets;
      && |r| == |bs|
      && (forall i :: 0 <= i < |bs| ==> r[i].id == bs[i].id)
      && (forall i :: 0 <= i < |bs| && bs[i].id == item.id ==> r[i].details == SubmittedDetails(f, parse))
      && (forall i :: 0 <= i < |bs| && bs[i].id != item.id ==> r[i] == bs[i])
  {
    var d := SubmittedDetails(f, parse);
    assert HandleSubmit(f, Some(item), parse, bs, freshId).bouquets == UpdateBouquet(bs, item.id, PatchOf(d));
    UpdateWithAllKeys(bs, item.id, d);
  }

  /** A submit keeps the ids unique, provided an add mints an id not in use. */
  lemma SubmitPreservesUniqueIds(
    f: FormState, editItem: Option<Bouquet>, parse: string -> Option<real>,
    bs: seq<Bouquet>, freshId: string)
    requires UniqueIds(bs)
    requires editItem.None? ==> !HasId(bs, freshId)
    ensures UniqueIds(HandleSubmit(f, editItem, parse, bs, freshId).bouquets)
  {
    if CanSubmit(f) {
      var d := SubmittedDetails(f, parse);
      if editItem.Some? {
        UpdateWithoutIdKeepsIds(bs, editItem.value.id, PatchOf(d));
      } else {
        AddPreservesUniqueIds(bs, d, freshId);
      }
    }
  }

  /** Opening a record for editing and submitting it unchanged leaves the
      collection as it was, when the record already looks like something the
      form produces and the price survives `toString` then `parseFloat`. */
  lemma EditUnchangedIsNoop(
    f: FormState, b: Bouquet, show: real -> string, parse: string -> Option<real>,
    bs: seq<Bouquet>, freshId: string)
    requires HasAllKeys(b.details)
    requires b.details.name != "" && Trim(b.details.name) == b.details.name
    requires Trim(show(b.details.price)) != "" && parse(show(b.details.price)) == Some(b.details.price)
    requires Trim(b.details.size.value) == b.details.size.value
    requires Trim(b.details.category.value) == b.details.category.value
    requires Trim(b.details.description.value) == b.details.description.value
    requires b.details.image.value != "" && !b.details.isSold
    requires forall i :: 0 <= i < |bs| && bs[i].id == b.id ==> bs[i] == b
    ensures HandleSubmit(OnOpen(f, true, Some(b), show), Some(b), parse, bs, freshId).bouquets == bs
  {
    var g := Prefilled(b, show);
    assert OnOpen(f, true, Some(b), show) == g;
    assert CanSubmit(g);
    var d := SubmittedDetails(g, parse);
    assert d.image == b.details.image by {
      assert g.selectedImage == b.details.image;
    }
    assert d == b.details;
    var r := HandleSubmit(g, Some(b), parse, bs, freshId).bouquets;
    assert r == UpdateBouquet(bs, b.id, PatchOf(d));
    forall i | 0 <= i < |bs| ensures r[i] == bs[i] {
      if bs[i].id == b.id {
        assert r[i] == Merge(bs[i], PatchOf(d)) == Bouquet(b.id, d);
      }
    }
  }

  /** A blank form cannot be submitted. */
  lemma ClearedFormIsRejected(f: FormState)
    requires IsCleared(f)
    ensures !CanSubmit(f)
  {
    assert Trim(f.name) == [];
  }

  /** After picking an image, submit stores that image. */
  lemma PickedImageIsSubmitted(f: FormState, uri: string, parse: string -> Option<real>)
    requires uri != ""
    ensures SubmittedDetails(PickImage(f, uri), parse).image == Some(uri)
  {
  }

  /** After removing the image, submit stores the placeholder. */
  lemma RemovedImageFallsBackToPlaceholder(f: FormState, parse: string -> Option<real>)
    ensures SubmittedDetails(RemoveImage(f), parse).image == Some(PlaceholderImage)
  {
    assert Trim("") == "";
  }

  /** After typing a web URL, submit stores the trimmed URL, or the placeholder
      if the URL is blank. */
  lemma TypedUrlIsSubmitted(f: FormState, text: string, parse: string -> Option<real>)
    requires text != "" && !StartsWith(text, "file://")
    ensures Trim(text) != "" ==> SubmittedDetails(TypeImageUrl(f, text), parse).image == Some(Trim(text))
    ensures Trim(text) == "" ==> SubmittedDetails(TypeImageUrl(f, text), parse).image == Some(PlaceholderImage)
  {
  }
}
