# Quote store of the Dynamic Quote Generator, in Dafny

The Dynamic Quote Generator (`dom-manipulation/script.js`) is a browser page that keeps
an ordered list of `{text, category}` quotes. It persists the list to `localStorage`
under the key `quotes` and falls back to three built-in quotes when the stored value is
missing or malformed. Users can add quotes through a form. The list can be exported to
and imported from a JSON file, and it is merged with posts fetched from a server. The
page shows one random quote, optionally restricted to the category chosen in a
drop-down. The drop-down's choice is remembered under `lastSelectedCategory`, and the
shown quote's position under the session key `lastQuoteIndex`.

This project models that store.

- `text.dfy` (module `Text`) models `String.prototype.trim` with the exact ECMAScript
  white-space set, the string order that `Array.prototype.sort` uses by default, and
  `String(n)` for an index.
- `json.dfy` (module `Json`) holds parsed JSON as a datatype. `JSON.parse` and
  `JSON.stringify` become a `Codec` value of functions.
- `quotes.dfy` (module `Quotes`) holds the quote record, the three default quotes, the
  shape check `q && typeof q.text === "string" && typeof q.category === "string"`, and
  the conversion of lists to and from JSON arrays. The predicate `RoundTrips` states
  the one property of the JSON library that the round-trip lemmas use: a quote list's
  array, written either way, parses back to itself.
- `roster.dfy` (module `Roster`) computes the drop-down's categories as
  distinct-then-sorted.
- `selection.dfy` (module `Selection`) models the category filter, and the positions in
  the full list that the filtered quotes come from.
- `sync.dfy` (module `Sync`) maps the fetched posts to quotes. `MergeAll` is the
  specification of the merge loop, and the lemmas prove what the merge keeps and what it
  adds.
- `store.dfy` (module `Store`) holds the class `QuoteApp`. Its fields are the `quotes`
  array, `localStorage` and `sessionStorage` (both `map<string, string>`) and the
  drop-down's current value. It has one method per function of the script and per event
  handler. Each method states its whole new state in terms of the old one.

Some pure functions specify the methods and have no contract of their own:

- `Store.LoadedQuotes` and `Store.LocalAfterLoad` give the state after a page load.
- `Store.LastFilter` is `getItem(...) || "all"`.
- `Store.Reselect` is the drop-down's value after an assignment: a value that no option
  carries reads back as `""`.
- `Store.ImportedQuotes` is the import's parse-and-filter step.
- `Selection.Matching` is `selected === "all" ? quotes : quotes.filter(...)`.
- `Sync.MergeOne` and `Sync.MergeAll` are the merge loop.
- `Sync.ServerQuotes` is `data.map(d => ({ text: d.title, category: "Server" }))`, or
  `[]` after a failed fetch; `Sync.SyncOfFetched` states what a sync does with it.
- `Quotes.DefaultQuotes` holds the three built-in quotes of script.js lines 11-15.
- `Quotes.IsQuoteJson` is the shape check of lines 48 and 133, and `Quotes.AllQuotes`
  is `parsed.every(...)` with it.
- `Quotes.Decode` reads the quotes of an array that passed the shape check.
- `Quotes.ValidQuotes` is the import's `parsed.filter(...)` (line 133), and
  `Selection.ByCategory` is the category filter `quotes.filter(...)` (line 179). Each
  one's own contract states only that the result is no longer than the input. What
  they keep is stated by `Quotes.ValidQuotesEmpty`, `Quotes.ValidQuotesAppend`,
  `Quotes.ValidQuotesOfAllQuotes`, `Quotes.ValidQuotesFromItems` and
  `Selection.ByCategoryMembers`.
- `Text.LexLess` is the order the default `sort()` uses at line 158. Its lemmas
  `LexLessIrreflexive`, `LexLessAsymmetric`, `LexLessTransitive` and `LexLessTotal` make
  it a strict total order.
- `Store.ImportOutcome` is the alert an import ends with, given the chosen file.

The lemmas and method contracts in the table below state their properties.

The selection `"all"` is the drop-down's sentinel for "All Categories". A quote whose
category is literally `all` still gets its own option in the roster, and choosing that
option shows every quote (`Selection.MatchingAll`).

## Model

| member | source | states |
|---|---|---|
| Text.TrimStart | dom-manipulation/script.js:92-93 | the result is a suffix of the input, does not start with white space, and only white space was dropped |
| Text.TrimEnd | dom-manipulation/script.js:92-93 | the result is a prefix of the input, does not end with white space, and only white space was dropped |
| Text.Trim | dom-manipulation/script.js:92-93 | `trim()` returns the slice of the input after its leading white space; only white space lies outside it; it has no white space at either end; it is empty exactly when the input is all white space |
| Text.TrimIdempotent | dom-manipulation/script.js:92-93 | trimming a trimmed value changes nothing |
| Text.DecimalString | dom-manipulation/script.js:78 | `String(index)` is a non-empty string of decimal digits without a leading zero |
| Text.DecimalRoundTrip | dom-manipulation/script.js:78 | the stored index string reads back as the index |
| Text.DecimalStringInjective | dom-manipulation/script.js:195 | different positions are stored as different strings |
| Quotes.ToJson | dom-manipulation/script.js:100 | the object `{ text, category }` passes the shape check and reads back as the same quote |
| Quotes.Encode | dom-manipulation/script.js:36 | the serialised list is an array of the same length whose every element passes the shape check and reads back as the quote at that position |
| Quotes.DecodeEncode | dom-manipulation/script.js:36 | decoding the array written by a save gives the saved list |
| Quotes.ValidQuotesEmpty | dom-manipulation/script.js:133-134 | the import filter keeps nothing exactly when no element passes the shape check |
| Quotes.ValidQuotesAppend | dom-manipulation/script.js:133 | filtering a concatenation is the concatenation of the filtered parts, so the filter keeps the original order |
| Quotes.ValidQuotesOfAllQuotes | dom-manipulation/script.js:133 | when every element is well formed, the filter drops nothing |
| Quotes.ValidQuotesFromItems | dom-manipulation/script.js:133 | every quote the filter keeps comes from a well-formed element of the input |
| Roster.Categories | dom-manipulation/script.js:158 | the values of `quotes.map(q => q.category)` are exactly the categories that occur in the list |
| Roster.Dedup | dom-manipulation/script.js:158 | `[...new Set(cs)]` has no repeated value and holds exactly the values of `cs` |
| Roster.Insert | dom-manipulation/script.js:158 | inserting a new value into an ascending list gives an ascending list one longer, holding the old values and the new one |
| Roster.Sort | dom-manipulation/script.js:158 | `sort()` of distinct values is strictly ascending and holds exactly the same values |
| Roster.CategoryRoster | dom-manipulation/script.js:158 | the roster is strictly ascending, has no repeats, and holds exactly the categories that occur in the list |
| Roster.StrictlySortedUnique | dom-manipulation/script.js:158 | two strictly ascending lists with the same values are equal |
| Roster.RosterIsSortedCategorySet | dom-manipulation/script.js:158 | any strictly ascending list of exactly the list's categories is the roster |
| Selection.ByCategoryMembers | dom-manipulation/script.js:179 | the filtered list holds exactly the quotes of the list with that category |
| Selection.Positions | dom-manipulation/script.js:179-195 | every position of a shown quote lies within the list, and the quote there passes the filter |
| Selection.PositionsExact | dom-manipulation/script.js:179-195 | those positions are increasing and include every position whose quote passes the filter |
| Selection.MatchingAtPositions | dom-manipulation/script.js:179 | the filtered list is the full list read at those positions, so it keeps the passing quotes in their original order |
| Selection.MatchingAll | dom-manipulation/script.js:179 | selecting "all" shows the whole list, and the shown positions are 0 to n-1 |
| Sync.HasQuoteIsMembership | dom-manipulation/script.js:238 | comparing text and category is the same as finding the quote in the list |
| Sync.MergeKeepsPrefix | dom-manipulation/script.js:237-241 | the merge never removes or reorders: the old list is a prefix of the new one |
| Sync.MergeCovers | dom-manipulation/script.js:237-241 | every server quote is in the merged list |
| Sync.MergeOnlyAddsBatch | dom-manipulation/script.js:237-241 | the merged list holds nothing but old quotes and server quotes |
| Sync.MergeAppendsOnlyNew | dom-manipulation/script.js:237-241 | every appended quote differs from all quotes before it, so duplicates within one batch are added once |
| Sync.MergeOfPresent | dom-manipulation/script.js:237-241 | when the list already holds every server quote, the merge changes nothing |
| Sync.MergeIdempotent | dom-manipulation/script.js:237-241 | syncing the same batch twice adds nothing the second time |
| Sync.SyncOfFetched | dom-manipulation/script.js:221-241 | a failed fetch leaves the list unchanged; otherwise every fetched title is in the merged list as a "Server" quote, and every quote in it is an old quote or a "Server" quote with a fetched title |
| Sync.MergeKeepsNoDuplicates | dom-manipulation/script.js:237-241 | a list without duplicates stays without duplicates |
| Store.StoredList | dom-manipulation/script.js:39-58 | a page load keeps the stored value exactly when it is present, non-empty, parses, and is an array whose every element passes the shape check; the kept list is that array's quotes in order |
| Store.LoadAfterSave | dom-manipulation/script.js:35-58 | loading after a save restores the saved list exactly |
| Store.ImportOfExport | dom-manipulation/script.js:113-143 | importing an exported file contributes exactly the exported list; a non-empty export is reported as imported with its length, so `ImportFile` appends a second copy, and an empty one is reported as having no valid quotes |
| Store.QuoteApp.constructor | dom-manipulation/script.js:18 | before the page loads, the list is empty |
| Store.QuoteApp.Save | dom-manipulation/script.js:35-37 | local storage maps `quotes` to the serialised current list; nothing else changes |
| Store.QuoteApp.Load | dom-manipulation/script.js:39-58 | the list becomes the stored list when it is accepted, and local storage is unchanged; otherwise the list becomes the three defaults and the defaults are written back |
| Store.QuoteApp.DisplayRandomQuote | dom-manipulation/script.js:63-84 | for an empty list no index is shown or stored; otherwise a valid index is shown and its decimal string is stored under `lastQuoteIndex` |
| Store.QuoteApp.PopulateCategories | dom-manipulation/script.js:155-171 | the options are the category roster, and the drop-down's value becomes the stored filter (or "all"), or "" when no option carries it |
| Store.QuoteApp.FilterQuotes | dom-manipulation/script.js:173-196 | the selection is stored under `lastSelectedCategory`; when no quote passes, nothing is shown or stored; otherwise the full-list position of a passing quote is shown and stored under `lastQuoteIndex` |
| Store.QuoteApp.Refresh | dom-manipulation/script.js:106-107 | populating the categories and then filtering leaves the selection, local storage and session storage as the two steps state |
| Store.QuoteApp.Append | dom-manipulation/script.js:139-142 | the new quotes are appended after the old ones in order, the new list is persisted, and the drop-down and the shown quote are refreshed |
| Store.QuoteApp.AddQuote | dom-manipulation/script.js:89-108 | the quote is added exactly when both trimmed fields are non-empty; on a rejection nothing changes; otherwise exactly the trimmed quote is appended at the end, the list is persisted and the view is refreshed |
| Store.QuoteApp.Export | dom-manipulation/script.js:113-114 | the exported text is the indented serialisation of the list and parses back to that list's JSON |
| Store.QuoteApp.ImportFile | dom-manipulation/script.js:125-150 | the report is the one the file decides: no file, a parse failure (unparsable text or a non-array value), no valid quotes, or, whenever at least one element is valid, an import of all of them; in the first three cases nothing changes; on an import exactly the valid quotes are appended in order, the reported count is their number, the list is persisted and the view is refreshed |
| Store.QuoteApp.SyncQuotes | dom-manipulation/script.js:233-247 | the loop leaves the list equal to the merge of the old list with the fetched quotes, then persists it and refreshes the view |
| Store.QuoteApp.Start | dom-manipulation/script.js:255-266 | on page load the list is the loaded list and the drop-down and the shown quote are refreshed from the storage the load left |

## Left out

- The DOM is not modelled. This covers element lookups, `innerHTML` and `textContent` rendering, `alert`, and resetting the form fields. It also covers the `if (!categoryFilterEl)` and `if (quoteDisplay)` guards: the model assumes every element exists.
- The export's `Blob`, object URL, anchor click and `setTimeout` clean-up are browser I/O. `Export` returns the file's text and nothing more.
- `fetch` and its response handling are network I/O. `SyncQuotes` receives the post titles, or `None` when the request failed, which the script turns into an empty list. A post whose `title` is not a string is not modelled.
- `FileReader`, `setInterval` and the `DOMContentLoaded` wiring are not modelled. Each handler runs as one atomic step, and the initial sync in `Start` is a separate `SyncQuotes` call. `attachEventListeners` and `createAddQuoteForm` only wire the page and are not modelled.
- `JSON.parse` and `JSON.stringify` are given functions (`Json.Codec`). JSON numbers are kept as integers, because the store never reads them.
- Quote objects keep only `text` and `category`. Loaded and imported objects can carry other properties; the script keeps those and saves them back, and the model drops them.
- Storage failures are not modelled. Writes always succeed (no quota errors) and `getItem` never throws.
- Text.LexLess: compares characters by Unicode code point, while JavaScript's default `sort` compares UTF-16 code units. The two orders differ only for characters above U+FFFF.
- Store.QuoteApp.DisplayRandomQuote: states only that the index is valid, not that `Math.random` makes it uniform, because floating-point randomness is outside the model.
- Store.QuoteApp.FilterQuotes: states only that the chosen quote passes the filter, not that the choice is uniform, for the same reason. `quotes.indexOf(q)` is modelled as the chosen quote's position in the full list. That position is what `indexOf` returns in the script, where every element of `quotes` is a distinct object.
- The user's change of the drop-down is not modelled; the page's markup wires it, not this script. Callers set `selection` and then call `FilterQuotes`.
