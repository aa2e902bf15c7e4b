# Bouquet catalogue: store, form and theme model

A Dafny model of the logic core of a small React Native catalogue app for
flower bouquets. The model has three parts.

- **The bouquet store** (`store/useBouquetStore.ts`). It holds an ordered list
  of records and has four actions: `addBouquet`, `updateBouquet`,
  `deleteBouquet` and `togglePurchased`. Each action is a pure function from
  the old `seq<Bouquet>` to the new one. The `{ ...b, ...updated }` spread is
  modelled field by field (`Bouquets.Merge`).
- **The add/edit form** (`components/Modal.tsx`). Its state hooks form a
  `FormState`. The model covers the handlers that change that state: the
  open/prefill effect, `resetForm`, `removeImage`, the URL input, and the
  state update after an image is picked. It also covers `handleSubmit`: the
  guard on the trimmed name and price, the normalisation (trimming, the image
  fallback chain, `isSold: false`), and the dispatch to add or update.
  `String.prototype.trim` is modelled exactly, using the ECMAScript whitespace
  set (module `Text`).
- **The theme store** (`store/themeStore.ts`). One flag that starts as light
  mode, plus `toggleDarkMode`.

Inputs the code gets from outside are parameters:
- `freshId` is the id `uuidv4()` returns. `AddBouquet` accepts any id. The
  lemmas that need the id to be unused (`AddPreservesUniqueIds`,
  `DeleteUndoesAdd`, and the uniqueness lemmas built on them) require it.
- `parse: string -> Option<real>` stands for `parseFloat`, with `None` for NaN.
- `show: real -> string` stands for `Number.prototype.toString`.

Behaviour of the code worth knowing:
- An update can change a record's id: the partial is spread after the record
  (store/useBouquetStore.ts:39). `UpdateWithoutIdKeepsIds` proves ids are
  kept when the partial has no `id` key; `UpdateWithIdCanBreakUniqueness`
  shows two records ending with the same id when it has one.
- The stored price is `parseFloat(price) || 0`: NaN and zero give 0, and a
  negative result is stored as it is (components/Modal.tsx:150).
- An edit-mode submit writes `isSold: false` (components/Modal.tsx:159).
- An empty size, category or description is stored as `""`, not left out
  (components/Modal.tsx:151-153).

## Model

| member | source | states |
|---|---|---|
| Text.Trim | components/Modal.tsx:143-156 | the result is the only substring that drops nothing but whitespace at both ends and neither starts nor ends with whitespace; it is empty exactly when the input is all whitespace |
| Text.TrimOfUnique | components/Modal.tsx:143-156 | at most one string is the trimming of a given string, so `IsTrimOf` fully specifies `Trim` |
| Text.TrimIdempotent | components/Modal.tsx:149-156 | trimming an already trimmed value changes nothing |
| Bouquets.Merge | store/useBouquetStore.ts:39 | every key the partial carries, the id included, replaces the record's value; every key it omits keeps the old value |
| Bouquets.MergeEmptyPatch | store/useBouquetStore.ts:39 | spreading a partial with no keys leaves the record unchanged |
| Bouquets.MergeIdempotent | store/useBouquetStore.ts:39 | spreading the same partial twice gives the same result as spreading it once |
| Bouquets.PatchOf | components/Modal.tsx:148-163 | the object the form passes to update carries no id, so the record keeps its id; when every optional key is present, all other fields are replaced |
| BouquetStore.AddBouquet | store/useBouquetStore.ts:29-33 | the result is the old list, unchanged and in order, plus exactly one new last record made of the fresh id and the input fields |
| BouquetStore.AddPreservesUniqueIds | store/useBouquetStore.ts:29-33 | adding with an id not already present keeps ids unique, and the new id is then present |
| BouquetStore.DeleteUndoesAdd | store/useBouquetStore.ts:29-46 | deleting the id just added with a fresh id restores the original list |
| BouquetStore.UpdateBouquet | store/useBouquetStore.ts:36-41 | length and positions are kept; each record with the matching id becomes the partial spread into it; every other record is unchanged |
| BouquetStore.UpdateUnknownIdIsNoop | store/useBouquetStore.ts:36-41 | updating an id that no record has returns the original list |
| BouquetStore.UpdateWithoutIdKeepsIds | store/useBouquetStore.ts:36-41 | with a partial that has no id key, every position keeps its id, so unique ids stay unique |
| BouquetStore.UpdateWithAllKeys | store/useBouquetStore.ts:36-41 | updating with the complete partial of some details keeps every id and gives each matching record exactly those details |
| BouquetStore.UpdateWithIdCanBreakUniqueness | store/useBouquetStore.ts:39 | concrete case: with a partial `{ id: "b" }`, updating "a" in the unique list [a, b] leaves two records with id "b" |
| BouquetStore.DeleteBouquet | store/useBouquetStore.ts:43-46 | no record with the id remains; every other record keeps its number of copies; the result is an order-preserving subsequence of the input and is no longer than it |
| BouquetStore.DeleteAppend | store/useBouquetStore.ts:43-46 | deleting from a concatenation equals concatenating the deletions from each part |
| BouquetStore.DeleteUnknownIdIsNoop | store/useBouquetStore.ts:43-46 | deleting an id that no record has returns the original list |
| BouquetStore.DeleteIdempotent | store/useBouquetStore.ts:43-46 | after a delete the id is absent, and deleting it again changes nothing |
| BouquetStore.DeleteKeepsOnlyOldRecords | store/useBouquetStore.ts:43-46 | every record that survives a delete was in the input and has a different id |
| BouquetStore.DeletePreservesUniqueIds | store/useBouquetStore.ts:43-46 | deleting keeps ids unique |
| BouquetStore.TogglePurchased | store/useBouquetStore.ts:48-53 | length and ids are kept; matching records have `purchased` negated and every other field unchanged; non-matching records are unchanged |
| BouquetStore.ToggleTwiceRestores | store/useBouquetStore.ts:48-53 | toggling the same id twice returns the original list |
| BouquetStore.ToggleUnknownIdIsNoop | store/useBouquetStore.ts:48-53 | toggling an id that no record has returns the original list |
| BouquetStore.TogglePreservesUniqueIds | store/useBouquetStore.ts:48-53 | toggling keeps ids unique |
| BouquetStore.ToggleIsUpdateOfFlag | store/useBouquetStore.ts:36-53 | when ids are unique, toggling a record equals updating it with the partial `{ purchased: !purchased }` |
| StoreRuns.ApplyPreservesUniqueIds | store/useBouquetStore.ts:29-53 | any one action keeps ids unique, given that an add uses a fresh id and an update's partial has no id |
| StoreRuns.RunPreservesUniqueIds | store/useBouquetStore.ts:29-53 | any sequence of such permitted actions keeps ids unique |
| StoreRuns.ReachableUniqueIds | store/useBouquetStore.ts:27-53 | every list reachable from the initial empty store through permitted actions has unique ids |
| ThemeStore.ToggleDarkMode | store/themeStore.ts:10 | the toggled state has the opposite dark-mode flag |
| ThemeStore.ToggleDarkModeTwice | store/themeStore.ts:10 | toggling twice returns the original state |
| ThemeStore.ToggleTimesParity | store/themeStore.ts:9-10 | after n toggles the flag has flipped exactly when n is odd |
| ThemeStore.DarkModeAfterToggles | store/themeStore.ts:9-10 | dark mode starts off, and after n toggles from the start it is on exactly when n is odd |
| BouquetForm.ResetForm | components/Modal.tsx:84-93 | afterwards every text field is empty, no image is selected and `purchased` is false |
| BouquetForm.NonEmptyOrNull | components/Modal.tsx:76 | `x \|\| null` keeps a non-empty string and turns an absent or empty one into null |
| BouquetForm.OnOpen | components/Modal.tsx:67-82 | a hidden modal leaves the form as it is; opening in add mode clears it; opening in edit mode gives `Prefilled`, which copies each field from the record, with `""`, null or false for absent values, and selects the image only when it is non-empty |
| BouquetForm.RemoveImage | components/Modal.tsx:181-184 | the selected image and the URL field are cleared and nothing else changes |
| BouquetForm.TypeImageUrl | components/Modal.tsx:353-358 | the URL field takes the typed text; non-empty text not starting with `file://` (`Text.StartsWith`, ECMAScript `startsWith`) clears the selected image, otherwise the selection is kept; nothing else changes |
| BouquetForm.PickImage | components/Modal.tsx:113-117 | after a successful pick, both the selected image and the URL field hold the asset's uri, and nothing else changes |
| BouquetForm.PriceOrZero | components/Modal.tsx:150 | the price is the parsed number, and it is zero exactly when parsing gave NaN or zero |
| BouquetForm.ChooseImage | components/Modal.tsx:154-157 | the image is the selected image if that is non-empty, otherwise the trimmed URL if non-empty, otherwise the placeholder; it is never empty |
| BouquetForm.SubmittedDetails | components/Modal.tsx:148-160 | name, size, category and description are the trimmed inputs and are themselves trimmed; the price comes from `PriceOrZero`; the image comes from `ChooseImage` and is non-empty; `purchased` is copied; `isSold` is false; every optional key is present |
| BouquetForm.HandleSubmit | components/Modal.tsx:142-170 | a form failing `CanSubmit` (trimmed name and trimmed price both non-empty) makes no store call and leaves the form and list unchanged; a valid one clears the form and makes exactly one call: update with the edited id in edit mode, add otherwise |
| BouquetForm.SubmitRejectedIffBlank | components/Modal.tsx:142-146 | a submit makes no store call exactly when the name or the price is all whitespace |
| BouquetForm.SubmitAddAppends | components/Modal.tsx:162-166 | an add-mode submit appends one record with the fresh id and the normalised fields after the unchanged old list |
| BouquetForm.SubmitEditUpdates | components/Modal.tsx:162-166 | an edit-mode submit keeps length and ids, gives each matching record the normalised fields, and leaves the other records unchanged |
| BouquetForm.SubmitPreservesUniqueIds | components/Modal.tsx:162-166 | a submit keeps ids unique, given that an add mints an unused id |
| BouquetForm.EditUnchangedIsNoop | components/Modal.tsx:67-166 | opening a well-formed record for editing and submitting it without changes leaves the list as it was, given that `parseFloat` reads back the price `toString` wrote |
| BouquetForm.ClearedFormIsRejected | components/Modal.tsx:142-146 | a cleared form cannot be submitted |
| BouquetForm.PickedImageIsSubmitted | components/Modal.tsx:154-157 | after a non-empty image is picked, submit stores exactly that image |
| BouquetForm.RemovedImageFallsBackToPlaceholder | components/Modal.tsx:181-184 | after the image is removed, submit stores the placeholder image |
| BouquetForm.TypedUrlIsSubmitted | components/Modal.tsx:353-358 | after a web URL is typed, submit stores the trimmed URL, or the placeholder if it is blank |

## Left out

- Persistence (`persist`, `createJSONStorage`, AsyncStorage under the key `bouquet-storage`): library I/O with hidden JSON serialisation. The store is modelled as in-memory state only, with no subscriber notification.
- Id generation (`uuidv4`): randomness. The minted id is the parameter `freshId`, and freshness is a precondition only of the lemmas that need it (`AddPreservesUniqueIds`, `DeleteUndoesAdd` and the uniqueness lemmas built on them).
- `parseFloat` and `Number.prototype.toString`: floating-point text conversion. They are the parameters `parse` and `show`. Prices are mathematical reals, so IEEE rounding, infinities and negative zero are not modelled.
- BouquetStore.AddBouquet: the input cannot carry an `id` key. At store/useBouquetStore.ts:30 the input is spread after the minted id, so an object with an `id` key (assignable to `Omit<Bouquet, "id">` when it is not a fresh literal) would replace the fresh id and could duplicate an existing one. `Details` has no id, so the model does not express this; the only caller, the form, never passes one (components/Modal.tsx:148-165).
- A partial whose key is present but holds `undefined`: the `Patch` type only has "key absent" or "key holds a value". The form never builds such a partial.
- Image picking and the camera (permission requests, the async pickers, their alerts): device APIs. Only the state update after a successful pick is modelled (`PickImage`).
- The single-field setters (`setName`, `setPrice`, `setSize`, `setCategory`, `setDescription`, the `purchased` switch, `handleCategorySelect`): each assigns one field. `handleClose` is `resetForm` followed by `onClose`, and `onClose` belongs to the caller.
- The validation alert and `onClose` after a submit: UI effects. The model keeps only the form state, the store call and the resulting list.
- Rendering, styles, colours, navigation, `components/BouquetItem.tsx`, `types/theme.ts` and `types/Buket.ts`: UI and type declarations with no behaviour.
- Search filtering and statistics: they belong to the screens, not to the store or the form, and are not part of this model.
