# Quote store of the quote-generator page, modelled in Dafny

The page `dom-manipulation/script.js` keeps an in-memory list of quote
records (`id`, `text`, `category`, optional `timestamp` and `source`) and a
category filter. This project models that record store and the operations
that read or change it:

- **server reconciliation** (`syncQuotesWithServerData`). For each server
  quote, in order, it finds the *first* local record with the same id. If
  there is none, the quote is appended. If that record's text or category
  differs, a conflict is recorded and the slot is overwritten ("server
  wins"). Otherwise nothing happens.
- **the category filter** (`getFilteredQuotes`), the random pick of
  `showRandomQuote` with its empty guard, and the category options of
  `populateCategories`;
- **insertion with validation**: `addQuote` trims both fields first;
  `importFromJsonFile` keeps only the entries whose text and category are
  non-empty strings;
- **the selection of local records** that `postDataToServer` reports;
- **the built-in starting quotes** (`getDefaultQuotes`).

Files, one module each:

- `wrappers.dfy`: `Option` and `Result`.
- `seqs.dfy`: an order-preserving `Filter` (as `Array.prototype.filter`) and its lemmas.
- `quotes.dfy`: the `Quote` and `Conflict` records, `FindIndex` (first match, as
  `findIndex`), `trim`, and `DefaultQuotes`.
- `filtering.dfy`: `Filtered`, `PickIndex` / `RandomQuote`, `CategoryOptions`, `LocalQuotes`.
- `importing.dfy`: parsed import payloads, the validity test, `ImportBatch`.
- `reconciliation.dfy`: the reconciliation pass as the function `Reconcile`
  (a left fold of `Apply` over the server list), an independent reference
  description of its result (`ExpectedStore`, `ExpectedConflicts`) and the lemmas.
- `store.dfy`: class `Store` holding the page's two global variables. Its methods
  change them: `AddQuote`, `ImportFromJson`, `FilterQuotes`, `ClearFilter`, and
  `SyncQuotesWithServerData`. The last is the source's loop, proved to compute `Reconcile`.

The clock (`Date.now()` ids, ISO timestamps) and `Math.random()` are
parameters. The server list is an argument.

Behaviour of `script.js` worth noting:

- Ids are not kept unique. `addQuote` uses `Date.now()` and import does not check
  ids, so lookups use first-match semantics.
- The import test does not trim. A text of only spaces is accepted on import but
  refused by `addQuote`.
- Records appended during reconciliation follow the server's order, so the final
  store depends on that order. With distinct server ids it depends on nothing else.
  When two server quotes share an id, the order also decides which version wins.
- There is no in-flight guard around a sync.
- No cap limits the number of local records selected for posting.

## Model

| member | source | states |
|---|---|---|
| Quotes.FindIndex | dom-manipulation/script.js:346 | the result is the first position whose id matches, and it is absent exactly when no record has that id |
| Quotes.TrimSpec | dom-manipulation/script.js:41-42 | trim returns a contiguous piece s[i..j] of the input with only whitespace before i and after j, and no whitespace at either end; it is empty exactly when the input is all whitespace |
| Quotes.DefaultQuotes | dom-manipulation/script.js:106-114 | the starting collection has five records with ids 1 to 5, distinct ids, non-empty text and category, and no timestamp or source |
| Filtering.FilteredSpec | dom-manipulation/script.js:219-224 | the sentinel "all" returns the whole store; any other value returns exactly the records whose category equals it; a value that no record has returns nothing |
| Filtering.FilteredConcat | dom-manipulation/script.js:223 | the filter keeps store order: filtering a concatenation gives the concatenation of the filtered parts |
| Filtering.PickIndex | dom-manipulation/script.js:16-22 | an empty view gives no index; otherwise floor(u * n) for a draw u in [0, 1) lies in [0, n) |
| Filtering.PickIndexReaches | dom-manipulation/script.js:22 | every position k < n is chosen by some draw (k / n) |
| Filtering.RandomQuote | dom-manipulation/script.js:13-23 | nothing is shown exactly when the filtered view is empty; otherwise the shown quote belongs to the view |
| Filtering.RandomQuoteFromStore | dom-manipulation/script.js:14-23 | nothing is shown exactly when the store is empty (for "all") or no record has the category; a shown quote is in the store and has the selected category unless the filter is "all" |
| Filtering.CategoryOptionsSpec | dom-manipulation/script.js:186-195 | the options are exactly the categories present other than "all", with no repeats, ordered by the position of each category's first record |
| Filtering.LocalQuotesSpec | dom-manipulation/script.js:312 | exactly the records whose source is 'local' are selected; none when no record is local |
| Filtering.LocalQuotesConcat | dom-manipulation/script.js:312 | the local selection keeps store order |
| Importing.ValidQuotesSpec | dom-manipulation/script.js:150-154 | a record is imported exactly when a valid entry (text and category non-empty strings) gives it; every imported record has non-empty text and category; nothing is imported exactly when no entry is valid |
| Importing.ValidQuotesConcat | dom-manipulation/script.js:150-161 | valid entries are kept in the file's order |
| Importing.ImportBatch | dom-manipulation/script.js:144-158 | a parse failure, a non-array, and an array with no valid entry each fail with their own error; otherwise the batch is the non-empty list of valid entries |
| Reconciliation.ReconcileOneAbsent | dom-manipulation/script.js:346-350 | a server quote whose id the store lacks is appended at the end, with no conflict |
| Reconciliation.ReconcileOneConflict | dom-manipulation/script.js:353-363 | a server quote whose first same-id record differs in text or category yields exactly one conflict with the id and both versions, and overwrites that slot only |
| Reconciliation.ReconcileOneIdentical | dom-manipulation/script.js:353-354 | a server quote whose first same-id record has equal text and category changes neither the store nor the conflicts |
| Reconciliation.ReconcileKeepsSlots | dom-manipulation/script.js:345-366 | for any server list, no slot is removed or reordered; every old slot keeps its id and holds its old record or a server quote; the store grows by at most one record per server quote, and only with server quotes |
| Reconciliation.ReconcileConflictsWellFormed | dom-manipulation/script.js:355-360 | each conflict has one id for both versions, versions that differ, a server version from the list, and the detection time; there is at most one per server quote |
| Reconciliation.ReconcileIsExpected | dom-manipulation/script.js:342-370 | with distinct server ids the pass equals a reference description over the original store only. Each first-match slot is overlaid by a differing server quote, unseen quotes are appended in server order, and there is one conflict per differing id |
| Reconciliation.ReconcileGrowth | dom-manipulation/script.js:345-350 | with distinct server ids the store grows by exactly the server quotes with unseen ids, appended after the original slots |
| Reconciliation.ReconcileConverges | dom-manipulation/script.js:362-363 | server wins: after a pass with distinct server ids, every server id resolves to a record with that quote's text and category |
| Reconciliation.ReconcileAgreeing | dom-manipulation/script.js:345-366 | a store that already agrees with every server quote is left unchanged with no conflict |
| Reconciliation.ReconcileIdempotent | dom-manipulation/script.js:342-370 | with distinct server ids a second pass with the same list reports no conflict and leaves the store unchanged |
| Reconciliation.ExampleConflict | dom-manipulation/script.js:353-363 | local {5, "A", "X"} against server {5, "B", "X"} gives one conflict for id 5 and the store holds the server version |
| Reconciliation.ExampleNewId | dom-manipulation/script.js:346-350 | a server quote with id 1001 against the starting quotes is appended with no conflict |
| QuoteStore.Store.constructor | dom-manipulation/script.js:79-88 | loading with nothing stored gives the built-in quotes; the filter starts as "all" (line 6) |
| QuoteStore.Store.AddQuote | dom-manipulation/script.js:40-57 | the quote is refused, leaving the store unchanged, exactly when trimmed text or category is empty; otherwise one record with the trimmed fields and source 'local' is appended |
| QuoteStore.Store.ImportFromJson | dom-manipulation/script.js:144-161 | success exactly when the payload is an array with a valid entry, in which case the valid entries are appended in order and counted; on failure the store is unchanged |
| QuoteStore.Store.FilterQuotes | dom-manipulation/script.js:203-205 | the chosen category becomes the filter |
| QuoteStore.Store.ClearFilter | dom-manipulation/script.js:226-227 | the filter returns to "all" |
| QuoteStore.Store.SyncQuotesWithServerData | dom-manipulation/script.js:342-370 | the loop leaves the store and returns the conflicts exactly as Reconcile describes, so every Reconciliation lemma applies to it |
| QuoteStore.AddedQuoteIsPosted | dom-manipulation/script.js:49-57 | a quote accepted by addQuote is selected for posting, after every earlier local record |

## Left out

- Rendering and notices (`showNotification`, `updateQuoteList`, `updateQuoteCount`, `showConflictNotification`, `showConflictDetails`, `createAddQuoteForm`, `init`): DOM side effects only.
- `localStorage` and `sessionStorage` (`saveQuotes`, `loadQuotes` when something is stored, the saved filter, the last-viewed quote, the session "save" button): browser storage and JSON serialisation. A save happens once after each change and is not modelled. The constructor models only `loadQuotes` with empty storage.
- `exportToJsonFile` and the file reading of `importFromJsonFile` (`FileReader`, `Blob`, the download link, the early return when no file is chosen): file I/O. Import starts from the parsed value, and a parse error is the `Unparsable` payload.
- `fetchQuotesFromServer`, `postDataToServer` and `syncQuotes` beyond their core: the hard-coded server list, the one-second delays, the `try/catch` reporting, and the call order. What remains is the reconciliation they call and the local selection that the post reports.
- `startPeriodicSync` and the two-second initial sync: timers and a checkbox.
- `populateCategories` restoring the selected option in the drop-down: DOM state.
- Filtering.PickIndex: `Math.random()` is a double and the product is rounded. The model takes an exact real draw in [0, 1), so double rounding is not captured.
- Importing.AsQuote: an imported entry is taken to have an integer id. A missing or non-numeric id, and extra keys or non-string `timestamp`/`source` values, are not represented.
- Reconciliation.Reconcile, QuoteStore.Store.SyncQuotesWithServerData: the source reads the clock (`new Date().toISOString()`) once per conflict, inside the `forEach`. The model takes one reading `now` for the whole pass and stamps every conflict of that pass with it. So `detectedAt == now` in Reconciliation.ReconcileConflictsWellFormed relies on this simplification, and the model does not capture distinct timestamps within one pass.
- Reconciliation.ReconcileGrowth, Reconciliation.ReconcileIsExpected, Reconciliation.ReconcileConverges, Reconciliation.ReconcileIdempotent: assume distinct ids in the server list. When two server quotes share an id, a later one can overwrite an earlier one, and a second pass can then report a conflict.
