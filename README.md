# RMX proposals: a Dafny model of the quote collection and its editing rules

This project models the logic of a small single-user quoting tool for an
electrical-services company. The tool keeps a list of proposals (quotes) in
browser storage and lets the user create, edit, price, save, delete and share
them. The model covers:

- **Storage** (`storage.dfy`, from `services/storageService.ts`). The
  collection is kept as one stored value. `ProposalStore` is a class whose
  `stored` field is `None` while the storage key was never written. Its five
  operations read, overwrite, prepend, replace by id and filter by id. Each
  mutator reads the collection, transforms it, writes it back and returns it.
  The transformations `ReplaceById` and `RemoveById` are pure functions with
  their own lemmas: order kept, idempotence, unique ids kept, length changes.
- **Display numbers** (`numbering.dfy`). `String(n)` and `padStart(5, '0')`
  build the `RMX-00001` number of a new proposal. Reading the digits back
  gives the count plus one, padding never truncates, and from 100000 on the
  number appears unpadded. The number depends only on how many proposals are
  listed, so after a delete the next new proposal can get a number another
  listed proposal already carries.
- **Item edits and totals** (`items.dfy`, from the handlers in `App.tsx`).
  These are add, remove, description, quantity and price edits, and the total
  as a left fold of the line totals. The well-formedness invariant of a
  proposal's items (non-empty, `total == qty * unit` on every line, unique
  item ids) is preserved by every edit.
- **Share summary** (`share.dfy`). The item lines of the WhatsApp message cut
  each description to 50 characters and add `...` only when it was longer.
- **View controller** (`controller.dfy`, class `App`). It holds the view
  (dashboard, form, preview), the list in memory, the working proposal and the
  notification. The handlers are create, save, delete, rewrite a description,
  the item edits and navigation. Every handler keeps the list in memory equal
  to the stored collection. The description rewrite has two steps around the
  wait for the rewrite service. The second step writes back the proposal the
  first step captured, so edits made during the wait are lost.

Inputs that come from the browser or the outside world are parameters:

- generated ids, the date text and the creation time;
- the answer to the confirmation dialog (`confirmed`);
- the text returned by the rewrite service (`optimized`);
- the result of `parseFloat` (`Option<real>`, where `None` stands for NaN);
- the JavaScript text of a quantity (`showQty`).

Numbers are exact `real`s.

The model follows the code as it stands:

- There is no status, follow-up date, salesperson or management view.
- A stored value that is not valid JSON makes `getProposals` throw; this is not caught.
- The item fields are `desc`, `qty`, `unit` and `total`.

## Model

| member | source | states |
|---|---|---|
| `Storage.ProposalStore.constructor` | services/storageService.ts:4 | a fresh store has nothing under the key |
| `Storage.ProposalStore.Contents` | services/storageService.ts:12-13 | defines what getProposals reads back: the stored collection, or [] when the key is absent; `GetProposals` and `SaveThenGet` state it |
| `Storage.ProposalStore.GetProposals` | services/storageService.ts:11-14 | returns [] when nothing was stored, else exactly the stored collection |
| `Storage.ProposalStore.SaveProposals` | services/storageService.ts:7-9 | overwrites the stored collection with the given one, so it reads back unchanged |
| `Storage.SaveThenGet` | services/storageService.ts:7-14 | getProposals after saveProposals(xs) returns xs, order and elements unchanged |
| `Storage.ProposalStore.AddProposal` | services/storageService.ts:16-21 | returns [p] + the old collection and leaves the store equal to what it returns |
| `Storage.ProposalStore.UpdateProposal` | services/storageService.ts:23-28 | returns ReplaceById(old collection, p) and leaves the store equal to what it returns |
| `Storage.ProposalStore.DeleteProposal` | services/storageService.ts:30-35 | returns RemoveById(old collection, id) and leaves the store equal to what it returns |
| `Storage.ContainsId` | App.tsx:66 | defines `proposals.some(p => p.id === id)`: some listed proposal carries the id; `SavedCollectionFacts` states what a save does in each case |
| `Storage.ReplaceById` | services/storageService.ts:25 | same length; each element with p's id becomes p, every other element is unchanged; no match leaves the collection unchanged |
| `Storage.RemoveById` | services/storageService.ts:32 | keeps exactly the elements whose id differs; the length drops by the number of matches |
| `Storage.RemoveByIdAppend` | services/storageService.ts:32 | filtering distributes over concatenation, so the original order is kept |
| `Storage.RemoveByIdAbsent` | services/storageService.ts:32 | filtering an id that no element carries changes nothing |
| `Storage.RemoveByIdIdempotent` | services/storageService.ts:32 | deleting an id twice leaves the same collection as deleting it once |
| `Storage.ReplaceByIdIdempotent` | services/storageService.ts:25 | updating twice with the same proposal leaves the same collection as updating once |
| `Storage.CountIdUnique` | services/storageService.ts:32 | with unique ids an id occurs exactly once when present, else never |
| `Storage.RemoveByIdShrinksByOne` | services/storageService.ts:30-35 | with unique ids, deleting a present id shortens the collection by exactly one |
| `Storage.ReplaceByIdKeepsUnique` | services/storageService.ts:25 | replacing by id keeps ids unique |
| `Storage.RemoveByIdKeepsUnique` | services/storageService.ts:32 | filtering keeps ids unique |
| `Storage.PrependKeepsUnique` | services/storageService.ts:18 | prepending a proposal with a new id keeps ids unique |
| `Numbering.DecimalStringDigits` | App.tsx:45 | String(n) is a non-empty run of digits with no leading zero |
| `Numbering.DecimalString` | App.tsx:45 | `String(n)` for a count: at least one character; `DecimalStringDigits`, `DecimalRoundTrip` and `DecimalStringLength` state its properties |
| `Numbering.PadStart` | App.tsx:45 | padStart's result is as long as the input or the width, whichever is larger |
| `Numbering.PadStartShape` | App.tsx:45 | padStart never truncates: the result is filler characters followed by the whole input |
| `Numbering.DisplayNumber` | App.tsx:45 | defines the number as "RMX-" + String(count + 1) padded to five digits with "0"; `DisplayNumberRoundTrip`, `DisplayNumberInjective` and `DisplayNumberWidth` state its properties |
| `Numbering.DecimalRoundTrip` | App.tsx:45 | the digits String(n) writes denote n |
| `Numbering.DecimalStringLength` | App.tsx:45 | String(n) has at most k digits exactly when n < 10^k |
| `Numbering.DisplayNumberRoundTrip` | App.tsx:45 | a display number is "RMX-" followed by digits that denote the count plus one |
| `Numbering.DisplayNumberInjective` | App.tsx:45 | different counts give different display numbers |
| `Numbering.DisplayNumberWidth` | App.tsx:45 | below 100000 the number is padded to five digits; from 100000 on it appears unpadded |
| `Controller.NumberRepeatsAfterDelete` | App.tsx:45 | the number depends only on the list length, so saving a new proposal and deleting it hands out the same number again |
| `Controller.SaveTwoDeleteFirst` | App.tsx:66-84 | saving new proposals a then b and deleting a leaves b in front of the old list |
| `Controller.NumberCollidesAfterDelete` | App.tsx:45 | after saving a then b and deleting a, the next new proposal gets the number b still carries in the list: display numbers are not unique |
| `Controller.NewProposalFacts` | App.tsx:42-55 | a new proposal has an empty client, one item with qty 1, unit 0 and line total 0, proposal total 0, the default terms and a number encoding count + 1 |
| `Controller.App.constructor` | App.tsx:24-35 | mounting loads the stored collection into the list and shows the dashboard with no working proposal |
| `Controller.NewProposal` | App.tsx:43-55 | defines the object literal of createNewProposal, with ids, date and clock as parameters; `NewProposalFacts` states its properties |
| `Controller.App.CreateNewProposal` | App.tsx:42-58 | sets the working proposal to the blank proposal for the current list length and switches to the form |
| `Controller.SaveRejected` | App.tsx:61 | defines the guard: no working proposal, or an empty client; `HandleSave` states that a rejected save changes neither list, store nor view |
| `Controller.SavedCollection` | App.tsx:66-72 | defines the collection a save leaves: updateProposal when the id is listed, addProposal otherwise; `SavedCollectionFacts` states its properties |
| `Controller.SavedCollectionFacts` | App.tsx:66-73 | after a save the proposal is listed once (unique ids), other proposals stay, and the list grows only for a new id |
| `Controller.SaveNewThenDelete` | App.tsx:66-84 | deleting a proposal just saved under a new id restores the previous list |
| `Controller.App.HandleSave` | App.tsx:60-76 | no working proposal or an empty client changes neither list, store nor view; otherwise it prepends a new id or updates a listed one, the list becomes the store and the view the dashboard; unique ids stay unique |
| `Controller.App.HandleDelete` | App.tsx:78-84 | without confirmation nothing changes; with it the list and the store lose exactly the proposals with that id, one when ids are unique |
| `Controller.App.BeginOptimize` | App.tsx:86-91 | returns no snapshot when there is no working proposal, no item with that id or an empty description; otherwise captures the working proposal |
| `Controller.App.FinishOptimize` | App.tsx:92-99 | the working proposal becomes the captured snapshot with only that item's description replaced; the items stay well formed |
| `Controller.OptimizeLosesConcurrentEdit` | App.tsx:86-97 | a client name typed while the rewrite is pending is lost when it completes, and kept when the handler returned early |
| `Controller.OptimizeReopensOldProposal` | App.tsx:86-97 | a proposal opened while the rewrite is pending is replaced by the whole proposal the rewrite captured, with only the rewritten description applied, so its id comes back too |
| `Controller.App.EditClient` | App.tsx:302 | only the client of the working proposal changes |
| `Controller.App.AddItem` | App.tsx:319-322 | appends a blank item; with a fresh id the items stay well formed |
| `Controller.App.RemoveItem` | App.tsx:332-337 | removes the item by id only while more than one exists; the items stay well formed |
| `Controller.App.EditItemDesc` | App.tsx:348-351 | changes the description of the matching item only; the items stay well formed |
| `Controller.App.EditItemQty` | App.tsx:368-372 | sets the quantity (0 for unparseable input) and the line total of the matching item; the items stay well formed |
| `Controller.App.EditItemUnit` | App.tsx:373-377 | sets the price (0 for unparseable input) and the line total of the rendered item; the items stay well formed |
| `Controller.App.OpenPreview` | App.tsx:264 | shows the chosen listed proposal read-only |
| `Controller.App.OpenEdit` | App.tsx:273 | opens the chosen listed proposal in the form |
| `Controller.App.BackToDashboard` | App.tsx:286 | returns to the dashboard |
| `Items.FindItem` | App.tsx:88 | returns the first index whose id matches, or None exactly when no item matches |
| `Items.BlankItem` | App.tsx:51 | defines the item {desc "", qty 1, unit 0, total 0} of App.tsx:51 and App.tsx:321; `AddItem` and `NewProposalFacts` state its use |
| `Items.NumberOrZero` | App.tsx:369 | defines `parseFloat(v) \|\| 0` with an unparseable input (NaN) given as None: the parsed value, else 0 |
| `Items.MapWhereId` | App.tsx:94-96 | the matching items become f of themselves, the others stay, and the length is kept (the `map` also of App.tsx:349, 370 and 375) |
| `Items.SetDesc` | App.tsx:94-96 | only the description of the matching items changes; line totals stay correct |
| `Items.SetQty` | App.tsx:370 | qty := q and total := q * unit on the matching items, every other item unchanged; correct line totals stay correct |
| `Items.SetUnit` | App.tsx:375 | unit := u and total := captured qty * u on every item carrying the rendered item's id, so the rendered line stays qty * unit; items with other ids unchanged |
| `Items.AddItem` | App.tsx:321 | appends one blank item {qty 1, unit 0, total 0} after the unchanged items; the total does not change |
| `Items.FilterId` | App.tsx:336 | keeps exactly the items whose id differs, dropping as many as match |
| `Items.FilterIdAppend` | App.tsx:336 | filtering distributes over concatenation, so the kept items stay in their order |
| `Items.RemoveItem` | App.tsx:332-337 | a single item is never removed; otherwise the items with that id are filtered out |
| `Items.TotalAppend` | App.tsx:399 | the total of a concatenation is the sum of the totals |
| `Items.Total` | App.tsx:106 | defines `items.reduce((acc, i) => acc + i.total, 0)` as a left fold (also App.tsx:270 and 399); `TotalIsPriceOfLines`, `TotalAppend`, `TotalCons` and `TotalUpdate` state its properties |
| `Items.TotalCons` | App.tsx:123 | the left-fold total equals the first line total plus the total of the rest |
| `Items.TotalIsPriceOfLines` | App.tsx:106 | with correct line totals the displayed total equals the sum of qty * unit |
| `Items.TotalUpdate` | App.tsx:270 | changing one line changes the total by that line's change |
| `Items.SetQtyAt` | App.tsx:370 | with unique item ids a quantity edit changes exactly one position |
| `Items.SetQtyTotal` | App.tsx:368-372 | with unique item ids a quantity edit changes the total by exactly that line's change |
| `Items.SetUnitKeepsLineTotals` | App.tsx:373-377 | with unique item ids the captured qty is the current one, so every line total stays qty * unit, and the total changes by that line's change |
| `Items.CountItemIdUnique` | App.tsx:336 | with unique item ids an id occurs once when present, else never |
| `Items.SetDescKeepsWellFormed` | App.tsx:348-351 | a description edit keeps the items non-empty, correctly totalled and uniquely identified |
| `Items.SetQtyKeepsWellFormed` | App.tsx:368-372 | a quantity edit keeps the items well formed |
| `Items.SetUnitKeepsWellFormed` | App.tsx:373-377 | a price edit keeps the items well formed |
| `Items.AddItemKeepsWellFormed` | App.tsx:319-322 | adding a blank item with a fresh id keeps the items well formed |
| `Items.FilterIdKeepsUnique` | App.tsx:336 | filtering keeps item ids unique |
| `Items.RemoveItemKeepsWellFormed` | App.tsx:332-337 | removal keeps the items well formed, so the list is never emptied, and removes exactly one item when the id is present |
| `Items.FilterIdTotal` | App.tsx:336 | the total drops by exactly the line totals of the removed items |
| `Items.SetDescTotal` | App.tsx:348-351 | a description edit leaves the total unchanged |
| `Share.TruncateDesc` | App.tsx:112 | shows the first 50 characters of the description, followed by "..." exactly when it is longer than 50 |
| `Share.SummaryLines` | App.tsx:112 | one line per item, in item order, each "- <qty>x <truncated description>" |
| `Share.SummaryLine` | App.tsx:112 | defines one line "- <qty>x <truncated description>", with the quantity text as a parameter; `TruncateDesc` states the truncation |
| `Share.JoinLines` | App.tsx:112 | joining yields "" for no lines and starts with the first line |
| `Share.JoinLinesAppend` | App.tsx:112 | joining two non-empty runs of lines puts exactly one newline between them |
| `Share.JoinLinesLength` | App.tsx:112 | the joined text is one character per gap longer than the lines together |
| `Share.ItemSummary` | App.tsx:112 | defines the summary as the lines of `SummaryLines` joined by `JoinLines`, whose contracts and lemmas state it |

## Left out

- JSON serialisation and `localStorage`: the stored value is the sequence itself, and a stored value that does not parse is not modelled.
- Storage capacity limits and write failures of the browser store.
- Rendering (JSX, styling, `components/UI.tsx`, `constants.tsx`), the print/PDF document and `window.open`/`window.print`.
- The share message apart from its item lines: the header, the currency text, the WhatsApp URL and `encodeURIComponent`.
- The currency text of `Intl.NumberFormat` and the date text of `toLocaleDateString`, both locale-dependent library formatting.
- `Share.SummaryLines`: the text of a quantity is a parameter, because JavaScript's number-to-text conversion is not modelled.
- `Share.TruncateDesc`: counts Unicode scalar values, whereas JavaScript's `substring` and `length` count UTF-16 code units, so descriptions with characters outside the Basic Multilingual Plane are cut differently.
- `Math.random` ids and `Date.now()`: ids and times are parameters, and freshness of a new item id is a hypothesis of the lemmas that need it.
- Floating-point arithmetic and `parseFloat`: numbers are exact reals and the parsed value is a parameter.
- The rewrite service (`services/geminiService.ts`): its answer is an arbitrary string parameter. It returns whitespace-only input unchanged and falls back to the input on error; neither behaviour is modelled.
- The `optimizingId` busy flag, the `loading` flag, and the three-second notification dismissal: timing and async UI state.
- The contact, phone, address, delivery and payment field edits (App.tsx:304-307, 390-391): each replaces one field of the working proposal in the same way as `Controller.App.EditClient`.
