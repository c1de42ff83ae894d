# Parts inventory: storage adapter, pagination hook and controller

A Dafny model of the sequential core of a client-side parts-inventory app.
It has three parts:

- **Storage adapter** (`src/api.ts`). `saveParts` writes the whole parts list to the
  single local-storage key `parts-inventory`. `loadPartsFromStorage` reads the key back.
  The reader accepts a legacy bare array and a `{parts, timestamp}` envelope.
  It expires envelopes older than 24 hours, filters envelope parts through a structural
  validator, and clears corrupt data.
- **Pagination hook** (`src/hooks/usePagination.ts`). It holds the committed page, the page
  size and the page-jump editor. It derives `totalPages` and the visible slice.
- **Inventory controller** (`src/App.tsx`). It does the initial load with a fallback to the
  sample list, adds and removes parts, and runs the `saving` / `hasUnsavedChanges` flag protocol.

Modules:

- `Wrappers` holds `Option`.
- `Seqs` holds `Filter`, the model of `Array.prototype.filter`, and the subsequence relation.
- `Decimal` holds `toString` and a simplified `parseInt` for page numbers.
- `Storage`, `Pagination` and `Inventory` model the three source files.

Modelling choices:

- **Storage slot.** The slot is `Option<Stored>`, and `None` means the key is absent.
  A present slot is held in its already-parsed form:
  - `Blank` is the empty string.
  - `Corrupt` means `JSON.parse` throws.
  - `Arr` is the legacy bare array.
  - `Obj` is any other object. Its `parts` is `Some` only when that property is an array.
    Its `timestamp` is `Some` only when that property is a finite number, held as a real.
  - `Other` is `null` or a primitive.
- **Parts.** A parts element is a `Val`. It is a `Record` whose properties are classified
  the way `typeof` sees them, or a `NonObject`. A property holding an array or an object is
  a `Ref` carrying that value's identity, since `!==` compares such values by reference.
- **Serialisation.** Stringify followed by parse is taken to be the identity on these values.
- **Parameters.** The clock (`now`), the generated id of a new part and whether the store
  accepts a write (`writeFails`) are all parameters. So is whether storage can be accessed at
  all on the initial load (`readFails` of `Inventory.Mount`).

Behaviour of the code worth knowing:

- `saveParts` writes the bare array (src/api.ts:62-63), while the reader also accepts the
  timestamped envelope (src/api.ts:96-118). So data this app writes is never expired or
  filtered when it is read back (`Storage.SaveLoadRoundTrip` returns the list unchanged).
- The hook has no clamp on `currentPage` (src/hooks/usePagination.ts:4-22). When the list
  shrinks, a page past the end stays committed and shows an empty slice
  (`Pagination.ShrinkLeavesPageEmpty`).
- `totalPages` is `Math.ceil(0 / itemsPerPage)`, which is 0, for an empty list
  (src/hooks/usePagination.ts:9).
- The modelled files contain no sort logic.

## Model

| member | source | states |
|---|---|---|
| `Storage.Save` | src/api.ts:54-76 | Resolves iff the argument is an array and the write is accepted. On success the slot holds exactly that array in the bare (legacy) shape. On rejection the slot is untouched. |
| `Storage.Load` | src/api.ts:82-127 | On storage that can be read it never fails: a parse error is caught and clears the slot. Storage that throws on access is handled by `Inventory.Mount`. An absent or empty slot yields nothing and stays as it is. The slot is only ever kept or cleared, never rewritten. It is cleared exactly for corrupt data and for expired envelopes, and clearing yields no parts. A legacy array is returned unfiltered. A live envelope yields an order-preserving subsequence of its parts that holds exactly the valid ones. An unrecognised shape yields nothing. Outside the legacy path, every returned part passes the validator. |
| `Seqs.Filter` | src/api.ts:109-117 | The kept elements are exactly the input elements that satisfy the predicate. The result is never longer than the input, and every element satisfies the predicate. |
| `Storage.SaveLoadRoundTrip` | src/api.ts:62-94 | After a successful save of `ps`, a load returns exactly `ps` and leaves the slot as written. |
| `Storage.SaveOverwrites` | src/api.ts:62-63 | The slot after a successful save does not depend on its previous contents. |
| `Storage.RejectedSaveKeepsSlot` | src/api.ts:58-73 | A non-array argument rejects and leaves any slot unchanged. |
| `Storage.ExpiryBoundary` | src/api.ts:99-100 | A non-zero timestamp, fractional or not, expires iff it is more than 86,400,000 ms old. Exactly 24 hours old is fresh, and half a millisecond more is expired. A missing or zero timestamp never expires. |
| `Storage.FreshEnvelopeFilters` | src/api.ts:109-117 | A live envelope loads as the filter of its parts by the validator. The result equals the stored parts iff all of them are valid. |
| `Storage.FreshEnvelopeAppend` | src/api.ts:109-117 | Filtering preserves order: loading an envelope of `ps + qs` gives the result for `ps` followed by the result for `qs`. |
| `Storage.ExpiryExamples` | src/api.ts:97-117 | An envelope 25 hours old yields nothing and clears the slot. One 23 hours old yields its valid records and keeps the slot. |
| `Storage.ValidationExample` | src/api.ts:109-117 | Of a record with negative quantity and a valid record, only the valid one is returned. |
| `Decimal.NatToString` | src/hooks/usePagination.ts:26 | The rendering of a natural number is non-empty, all digits, and has no leading zero. |
| `Decimal.IntToString` | src/hooks/usePagination.ts:26 | `toString` of an integer starts with `-` iff the number is negative, and the rest is the canonical digit string of its magnitude (`Decimal.NatToString`). |
| `Decimal.ParseInt` | src/hooks/usePagination.ts:30 | `parseInt` gives NaN (`None`) iff no digit follows the leading blanks and optional sign. The helpers `TrimStart` and `SkipSign` state exactly what they drop: only leading blanks, and exactly one leading `+` or `-`. |
| `Decimal.ParseRender` | src/hooks/usePagination.ts:26-30 | Parsing the rendering of any integer gives the integer back. |
| `Pagination.Init` | src/hooks/usePagination.ts:3-7 | A fresh hook is on page 1 with the given page size, not editing, with empty input, and its state is valid. |
| `Pagination.DefaultInit` | src/hooks/usePagination.ts:3-11 | With the default page size of 10, a fresh hook shows the first ten items (or all, if fewer). |
| `Pagination.TotalPages` | src/hooks/usePagination.ts:9 | `Math.ceil(n / ipp)`: the least page count whose pages hold all `n` items. It is 0 iff there are no items. |
| `Pagination.PageItemsWindow` | src/hooks/usePagination.ts:10-11 | The visible slice is `items[start .. min(start + ipp, n)]` with `start = (page - 1) * ipp`. It holds at most one page. It is empty, not an error, when `start >= n`. |
| `Pagination.PagesCoverItems` | src/hooks/usePagination.ts:9-11 | Concatenating pages 1 to `totalPages` reproduces the item list exactly. |
| `Pagination.PageNonEmptyIffInRange` | src/hooks/usePagination.ts:9-11 | A page shows at least one item iff it is between 1 and `totalPages`. |
| `Pagination.SetCurrentPage` | src/hooks/usePagination.ts:13-17 | Moves to `page` when `1 <= page <= totalPages`. Otherwise the state is unchanged. Page size and editor are never touched. |
| `Pagination.SetItemsPerPage` | src/hooks/usePagination.ts:19-22 | Sets the new page size and always returns to page 1. The editor fields are unchanged. |
| `Pagination.PageEdit` | src/hooks/usePagination.ts:24-27 | Opens the editor with the pending text set to `currentPage.toString()`, and changes no other field. That text parses back to the committed page. |
| `Pagination.PageInputChange` | src/hooks/usePagination.ts:47-49 | Only the pending text changes, and it becomes the typed value. |
| `Pagination.PageSubmit` | src/hooks/usePagination.ts:29-36 | The page changes only to a value that the pending text parses to and that lies in `[1, totalPages]`. Such a value is always committed. The editor always ends closed and empty. |
| `Pagination.PageKeyPress` | src/hooks/usePagination.ts:38-45 | Enter is exactly submit. Escape closes and empties the editor and changes no other field. Any other key changes nothing. |
| `Pagination.EditThenSubmitKeepsPage` | src/hooks/usePagination.ts:24-36 | Opening the editor and submitting it untouched keeps the page, even a page past the end, and closes the editor. |
| `Pagination.HandlersKeepInRange` | src/hooks/usePagination.ts:13-49 | For a fixed item count, every handler keeps the page at 1 or within `totalPages`, with a positive page size. |
| `Pagination.ShrinkLeavesPageEmpty` | src/hooks/usePagination.ts:9-11 | Page 3 of 25 items at 10 per page is in range. After the list drops to 5 items it is out of range and the visible slice is empty. |
| `Pagination.PageJumpExamples` | src/hooks/usePagination.ts:29-45 | With 3 pages, typing "2" then Enter goes to page 2. Typing "99" then Enter, or pressing Escape, keeps the page. |
| `Inventory.SeedParts` | src/api.ts:19-35 | The sample inventory has 15 records. |
| `Inventory.SeedValid` | src/api.ts:19-35 | Every sample record passes the storage validator. |
| `Inventory.SeedUniqueIds` | src/api.ts:19-35 | The sample ids are distinct. |
| `Inventory.Mount` | src/App.tsx:10-39 | When storage cannot be accessed, the loader throws (its `catch` calls `removeItem` again, src/api.ts:84, 122-125), the app's `catch` ends loading and the list stays empty; the slot is untouched. Otherwise the initial load uses the stored parts when there are any and the sample list when there are none, and the slot is left as the loader's self-healing left it. The list ends non-empty iff storage could be accessed. Loading ends with all flags clear either way. |
| `Inventory.WithId` | src/App.tsx:49-52 | The new record carries the generated id and copies the draft's name, quantity, price and `dateUpdated`, absent when the draft has none. It passes the validator iff the draft's quantity and price are non-negative. |
| `Inventory.AddPart` | src/App.tsx:48-57 | Appends exactly one record, with the supplied id, at the end. Earlier records are unchanged and the list is marked unsaved. |
| `Inventory.RemovePart` | src/App.tsx:59-63 | Keeps exactly the records whose id differs from the removed part's id, each as many times as it occurs, in order, as a subsequence. It never grows the list and marks it unsaved. |
| `Inventory.RemoveKeepsNullIdForTrueId` | src/App.tsx:60 | Removing the part whose id is `true` keeps a part whose id is `null`, since `null !== true`. |
| `Inventory.RemoveComparesObjectIdsByIdentity` | src/App.tsx:60 | A part whose id is a different object is kept, since `!==` compares objects by reference. |
| `Inventory.AddKeepsUniqueIds` | src/App.tsx:43-55 | Adding a record whose id is not yet present keeps ids unique. |
| `Inventory.RemoveAbsentIsIdentity` | src/App.tsx:59-61 | Removing an id that no record carries leaves the list unchanged. |
| `Inventory.RemoveKeepsUniqueIds` | src/App.tsx:60 | Removing keeps ids unique. |
| `Inventory.BeginSave` | src/App.tsx:66-69 | A click while `saving` is a no-op, since the button is disabled (line 110). Otherwise `saving` goes up and the current list is written to the slot, unless the store refuses the write. |
| `Inventory.FinishSave` | src/App.tsx:70-77 | As written: success clears the unsaved flag and failure keeps it. `saving` is false afterwards. The list is untouched. |
| `Inventory.FinishSaveChecked` | src/App.tsx:70-77 | Corrected: the unsaved flag is cleared only when the save succeeded and the list is still the one written. |
| `Inventory.FinishSaveAgreesWithoutInterleaving` | src/App.tsx:66-77 | When the list did not change during the save, the corrected and as-written completions agree. |
| `Inventory.HandleSave` | src/App.tsx:66-77 | As written, with no other event during the wait. Disabled while saving. Otherwise it ends with `saving` false, the list and the `loading` flag unchanged, the flag cleared iff the write went through, and the slot holding the list on success or unchanged on failure. |
| `Inventory.AddDuringSaveLosesDirtyFlag` | src/App.tsx:54-77 | As written, a part added while a save is in flight leaves the flag cleared, although the slot lacks that part. |
| `Inventory.AddDuringSaveKeepsDirtyFlag` | src/App.tsx:54-77 | With the corrected completion, the same interleaving leaves the list marked unsaved. |
| `Inventory.SaveThenReload` | src/App.tsx:22-28 | After a successful save of a non-empty list, a reload shows exactly that list. |
| `Inventory.EmptySaveReloadsSeed` | src/App.tsx:22-28 | After saving an empty list, a reload shows the sample list again. |
| `Inventory.AddRemoveSaveReload` | src/App.tsx:48-77 | Add a part, remove a different one, save and reload: the list is the old list plus the new record, filtered by the removed id. |
| `Inventory.SeedAddRemoveSaveReload` | src/App.tsx:22-77 | The same scenario from empty storage gives the sample list plus the new record, minus the removed id. |

## Left out

- Timing: the 300 ms and 500 ms `setTimeout` delays, `Date.now()` and `Math.random()` in `generateId`. The clock, the fresh id and the write outcome are parameters. Id freshness is assumed where a property needs it (`Inventory.AddKeepsUniqueIds`).
- `localStorage`, `JSON.stringify` and `JSON.parse`: the slot holds already-parsed values. A write failure (quota) is the `writeFails` parameter, and storage that throws on access during the initial load is the `readFails` parameter of `Inventory.Mount`. Stringify never fails on the modelled values.
- Storage.Load: a truthy timestamp that is not a number (a numeric string, `true`) is coerced by JavaScript subtraction. The model treats every non-number timestamp as absent, so as never expired.
- Storage.Load, Storage.ValidPart: only finite numbers are represented. `JSON.parse` turns an overflowing literal such as `1e400` or `-1e400` into `Infinity` or `-Infinity`, and these are not modelled. A timestamp of `-Infinity` would make an envelope expired. `Infinity` would pass the `quantity >= 0` and `price >= 0` checks.
- Inventory.RemovePart: a `null` element of an unfiltered legacy list makes `part.id` throw. The model reads its id as `undefined`.
- Decimal.IntToString: JavaScript writes integers of 10^21 and above in exponent notation (`"1e+21"`, which `parseInt` reads as 1), and integers beyond 2^53 are not exact. The model renders every integer as plain digits, so `Decimal.ParseRender` holds for all of them. Page numbers stay far below these bounds, because array lengths are below 2^32.
- Decimal.ParseInt: JavaScript's `parseInt` without a radix also accepts a `0x` hexadecimal prefix and a wider set of leading whitespace. The model accepts blanks, an optional sign and decimal digits.
- Pagination.SetItemsPerPage, Pagination.SetCurrentPage, Pagination.TotalPages, Pagination.Init: a page size below 1 (`Math.ceil` giving `Infinity` or `NaN`) and fractional page numbers passed to `setCurrentPage` are not modelled. Page size and page are integers, with page size at least 1.
- React mechanics: re-renders, stale closures over `parts` in `handleRemovePart`, and the `loading` screen. Toasts and console logging are left out too.
- `src/components/PartList.tsx`: rendering, `Intl.NumberFormat` and the floating-point total value.
- Sorting: there is no sort logic in the modelled files.
- Storage.Load, Inventory.Mount: the only loader failure modelled is storage that throws on access (`localStorage` null or a `SecurityError`), as a single `readFails` flag; `Storage.Load` itself describes readable storage. A `removeItem` that fails on its own after a successful read is not modelled. `getParts` always resolves (src/api.ts:38-45), so the fallback to the sample list cannot fail.

## Findings

| source | as written | input that shows it | evidently intended | confidence | as-written member | corrected member |
|---|---|---|---|---|---|---|
| src/App.tsx:66-77 | `hasUnsavedChanges` is set to false after `await saveParts(parts)` settles. The parts list can change during the 300 ms wait, because adding a part is not disabled while saving. | Start with empty storage, click Save, and add a part before the save settles. The flag ends false, but storage holds the list without the new part. | Clear the flag only if the list still equals the one that was written. | medium, not executed | `Inventory.FinishSave` (shown by `Inventory.AddDuringSaveLosesDirtyFlag`) | `Inventory.FinishSaveChecked` (shown by `Inventory.AddDuringSaveKeepsDirtyFlag`; it agrees with `Inventory.FinishSave` when nothing happens during the wait, `Inventory.FinishSaveAgreesWithoutInterleaving`) |
