# Country collection store — a Dafny model

This project models the country collection store of a small Vue 3 / Pinia
country browser (`src/stores/countries.ts`). The store holds the full list
of countries, a loading flag, the last error, the search query, a 1-based
page cursor, the page size (15) and the selected country. Five actions
change that state: `load`, `setQuery`, `select`, `nextPage` and `prevPage`.
Four views are computed from it: `filtered`, `total`, `totalPages` and
`paged`. The search normaliser `norm` makes matching accent-insensitive
and case-insensitive.

Layout, one module per component:

- `wrappers.dfy` (`Wrappers`): `Option`, the model of `T | null` and of optional properties.
- `seqs.dfy` (`Seqs`): order-preserving filtering, the model of `Array.prototype.filter`. It comes with an exact characterisation: the result picks exactly the positions that pass, in order.
- `text.dfy` (`Text`): `trim` with the ECMAScript white-space set, removal of the combining marks U+0300–U+036F, `includes`, `join`, and `Norm`.
- `country.dfy` (`Country`): the country record, restricted to the fields the search reads.
- `search.dfy` (`Search`): the normalised query, the match across four fields, and `Filtered`.
- `paging.dfy` (`Paging`): `TotalPages`, JavaScript `slice` with its index clamping, and `Paged`.
- `store.dfy` (`Store`): class `CountriesStore`.
  - Its fields are the store's refs.
  - Each action is a method with `modifies this`.
  - The computed views are functions that read the fields.
  - `Valid()` is the invariant `1 <= page <= totalPages`. Every action preserves it.
- `scenarios.dfy` (`Scenarios`): the repository's store test (searching "Aland" finds "Åland"), and a failed load.

NFKD decomposition and `toLowerCase` are Unicode library routines. They
enter the model as the two function-valued fields of `Text.TextLib`, and the
store holds one as a constant. Nothing is assumed about them except in the
scenarios. Those assume only the values the Unicode standard gives for the
few texts involved. For example, Å (U+00C5) decomposes to A followed by
U+030A.

`load` awaits the data source. Its outcome is a parameter of
`CountriesStore.Load`: either the records, or the value that was thrown. A
thrown `Error` object contributes its `message`; any other value
contributes its string form.

## Model

| member | source | states |
|---|---|---|
| Seqs.FilterIsFilterOf | src/stores/countries.ts:74-85 | `filter` returns the elements that pass the callback, in their original order and with their multiplicity. The positions kept are exactly those whose element passes. |
| Seqs.FilterKeepsAll | src/stores/countries.ts:74-85 | When every element passes, `filter` returns its input unchanged. |
| Seqs.FilterConcat | src/stores/countries.ts:74-85 | `filter` decides element by element: filtering a concatenation concatenates the filtered parts. |
| Seqs.FilterIdempotent | src/stores/countries.ts:64 | Filtering twice with the same test is the same as filtering once. This is the generic fact behind the idempotence of mark removal. |
| Seqs.FilterNarrows | src/stores/countries.ts:74-85 | Filtering by a looser test and then a stricter one is the same as filtering by the stricter one alone. |
| Seqs.IsFilterOfMembers | src/stores/countries.ts:74-85 | A filtered sequence holds exactly the elements of the input that pass, and no others. |
| Text.TrimSpec | src/stores/countries.ts:67 | `trim` returns a contiguous middle of the query. Everything before and after it is white space, and the result neither starts nor ends with white space. |
| Text.TrimIdempotent | src/stores/countries.ts:67 | Trimming a trimmed query changes nothing. |
| Text.StripMarksSpec | src/stores/countries.ts:64 | Removing U+0300–U+036F keeps exactly the other code points, in order. The result is a subsequence of the input with no mark left. |
| Text.StripMarksConcat | src/stores/countries.ts:64 | Mark removal works piece by piece over a concatenation. |
| Text.StripMarksOfMarkFree | src/stores/countries.ts:64 | A string without marks is left as it is. |
| Text.StripMarksIdempotent | src/stores/countries.ts:64 | Removing marks twice is the same as removing them once. Follows from Seqs.FilterIdempotent. |
| Text.StripMarksOfMarks | src/stores/countries.ts:64 | A run made only of U+0300–U+036F disappears entirely. |
| Text.IncludesSpec | src/stores/countries.ts:80-83 | `includes` holds exactly when the needle occurs at some position of the text. |
| Text.IncludesTrans | src/stores/countries.ts:80-83 | `includes` is transitive: if `a` includes `b` and `b` includes `c`, then `a` includes `c`. |
| Text.IncludesEmpty | src/stores/countries.ts:80-83 | Every text includes the empty string. |
| Text.JoinIncludesParts | src/stores/countries.ts:78 | The capitals joined with a space include every single capital. |
| Text.Norm | src/stores/countries.ts:63-65 | Definition of `norm`: NFKD, then removal of U+0300–U+036F, then lower-casing. Its properties are in Text.InsertedMarksIgnored and the StripMarks lemmas. |
| Text.InsertedMarksIgnored | src/stores/countries.ts:63-65 | Two strings whose decompositions are `u + w` and `u + v + w`, with `v` made only of combining marks, normalise to the same text. The decomposition is stated directly, not through `norm`'s own intermediate value. |
| Search.NormalizedQuery | src/stores/countries.ts:67 | Definition of `normalizedQuery`: `norm` of the trimmed query. Its properties are in Search.FilteredIgnoresSurroundingSpace and Text.TrimSpec. |
| Search.CapitalText | src/stores/countries.ts:78 | An absent capital list and an empty one both give the empty text. Otherwise the text includes every capital. |
| Search.Matches | src/stores/countries.ts:74-85 | Definition of the filter callback: the normalised query occurs in the normalised common name, official name or "", region or "", or joined capitals. Its properties are in Search.MatchesNarrows and Search.EverythingMatchesEmpty. |
| Search.MatchesNarrows | src/stores/countries.ts:74-85 | A country matched by a normalised query is matched by every text that query includes. |
| Search.EverythingMatchesEmpty | src/stores/countries.ts:79-84 | Every country matches the empty normalised query. |
| Search.Filtered | src/stores/countries.ts:71-86 | For an empty normalised query, `filtered` is the whole collection. In every case it holds exactly the countries that match, in collection order and with their multiplicity. |
| Search.EmptyQueryShortcutAgrees | src/stores/countries.ts:72-73 | The shortcut for an empty query gives the same list as running the filter with it. |
| Search.FilteredIsFilter | src/stores/countries.ts:71-86 | With or without the empty-query shortcut, `filtered` equals running the filter with the normalised query. |
| Search.FilteredNarrows | src/stores/countries.ts:71-86 | When the new normalised query includes the old one, the new `filtered` is the old `filtered` filtered again. So a query whose normalised form contains the old normalised form never brings back a country the old query dropped. |
| Search.FilteredIgnoresSurroundingSpace | src/stores/countries.ts:67 | A query and its trimmed form give the same `filtered`. The country fields themselves are not trimmed; that follows from the definition of Search.Matches. |
| Paging.TotalPages | src/stores/countries.ts:89-90 | `totalPages` is at least 1. It is the fewest pages of `pageSize` that hold `total` items: `total <= totalPages * pageSize`, and one page fewer would not hold them unless it is 1. |
| Paging.Slice | src/stores/countries.ts:92-95 | `slice` is never longer than its input and holds only its elements. For `0 <= start <= end <= length` it is exactly `s[start..end]`. |
| Paging.Paged | src/stores/countries.ts:92-95 | Definition of `paged`: the slice from `(page - 1) * pageSize`, `pageSize` long. Its properties are in Paging.PagedWindow, PagedAt, PagedEmptyExactly and PagesInRangeAreNonEmpty. |
| Paging.PagedWindow | src/stores/countries.ts:92-95 | For `page >= 1`, `paged` is `filtered[s .. min(total, s + pageSize)]` with `s = (page - 1) * pageSize`. It is empty when `s >= total` and never longer than `pageSize`. |
| Paging.PagedEmptyExactly | src/stores/countries.ts:92-95 | A page is empty exactly when its start is at or past the end of `filtered`. |
| Paging.PagedAt | src/stores/countries.ts:92-95 | Item `i` of `filtered` is shown on page `i / pageSize + 1`, at position `i % pageSize`. |
| Paging.PagesInRangeAreNonEmpty | src/stores/countries.ts:89-95 | Every page from 1 to `totalPages` shows something unless `filtered` is empty. Pages past `totalPages` are empty. |
| Store.ErrorText | src/stores/countries.ts:27 | Definition of the caught error text: an `Error` contributes its `message`, any other value its string form. It is used by Store.CountriesStore.Load. |
| Store.CountriesStore.Filtered | src/stores/countries.ts:71-86 | The store's `filtered` holds exactly the countries of `all` that match the normalised current query, in order. It is never longer than `all`. |
| Store.CountriesStore.Total | src/stores/countries.ts:89 | `total` is at most `all.length`. That it is 0 exactly when nothing matches is Store.CountriesStore.TotalZeroExactly. |
| Store.CountriesStore.TotalZeroExactly | src/stores/countries.ts:89 | `total` is 0 exactly when no country of `all` matches the current normalised query. |
| Store.CountriesStore.TotalPages | src/stores/countries.ts:90 | `totalPages` is at least 1 and is the fewest pages of `pageSize` that hold `total`. |
| Store.CountriesStore.Paged | src/stores/countries.ts:92-95 | `paged` never holds more than `pageSize` countries, and only countries of `filtered`. While the cursor is within `[1, totalPages]`, it is empty exactly when `filtered` is empty. |
| Store.CountriesStore.constructor | src/stores/countries.ts:10-16 | The initial state: empty collection, not loading, no error, empty query, page 1, page size 15, nothing selected. The invariant holds. |
| Store.CountriesStore.Load | src/stores/countries.ts:20-31 | On success, `all` becomes the records, `page` is 1 and `error` is null. On failure, `all` and `page` are unchanged and `error` holds the thrown message. `isLoading` ends false either way. `query`, `pageSize` and `selected` never change. The page invariant is preserved. |
| Store.CountriesStore.SetQuery | src/stores/countries.ts:33-36 | Sets `query` and resets `page` to 1. Nothing else changes. The page invariant is preserved. |
| Store.CountriesStore.Select | src/stores/countries.ts:38-40 | Sets or clears `selected`. Nothing else changes. |
| Store.CountriesStore.NextPage | src/stores/countries.ts:42-44 | Adds exactly 1 to `page` when `page < totalPages`; otherwise no-op. Nothing else changes, and `1 <= page <= totalPages` is preserved. |
| Store.CountriesStore.PrevPage | src/stores/countries.ts:46-48 | Subtracts exactly 1 from `page` when `page > 1`; otherwise no-op. Nothing else changes, and `1 <= page <= totalPages` is preserved. |
| Scenarios.FindsOnlyAland | tests/stores/countries.test.ts:12-19 | With [Åland, Germany] and any query that normalises to "aland", `filtered` is [Åland]. |
| Scenarios.AccentInsensitiveSearch | tests/stores/countries.test.ts:10-20 | Through the store: after `setQuery("Aland")`, and also after `setQuery("ÅLAND")`, `filtered` is exactly [Åland]. |
| Scenarios.FailedLoadKeepsCollection | src/stores/countries.ts:26-29 | A load that throws `Error("HTTP 500")` leaves the previously loaded collection, sets `error` to "HTTP 500" and clears `isLoading`. |

## Left out

- Fetching from the REST Countries endpoint (`src/services/countriesApi.ts`) is HTTP I/O. Only its outcome enters the model, as the parameter of `Load`.
- The data source sorts by `localeCompare`. Locale collation is ICU behaviour, so the order of the records is taken as given.
- The data source replaces a missing `capital` with `[]`. The model keeps `capital` optional and proves that absent and empty give the same search text.
- `normalize('NFKD')` and `toLowerCase` are library routines and stay uninterpreted (`TextLib`). `Norm` as a whole is not claimed to be idempotent or mark-free: with both routines uninterpreted, nothing about `Norm`'s output can be proved without assuming facts about them. Idempotence is therefore proved only for the mark-removal step.
- Search.FilteredNarrows: appending characters to the raw query is not proved to narrow `filtered`. The lemma needs the new normalised query to contain the old one, and lower-casing depends on context (Greek final sigma: "ΑΣ" lower-cases to "ας", "ΑΣΑ" to "ασα"), so a longer raw query need not give a longer normalised one.
- Store.CountriesStore.Load: runs as one atomic step. The intermediate state during the await (`isLoading` true, `error` null) is not observable in the model. Overlapping `load` calls, where the last to finish wins, are concurrency and are not modelled.
- Vue/Pinia reactivity and memoisation: computed values are functions evaluated on demand.
- `flags`, `population`, `cca2` and `cca3` are never read by the store and are not part of the record.
- The router (`src/router/index.ts`) is navigation glue without logic.
- Paging.TotalPages: requires `pageSize > 0`. The store never writes `pageSize` and starts it at 15. JavaScript's `Infinity`/`NaN` arithmetic for a zero or negative page size is not modelled, and `NextPage` carries the same requirement.
- JavaScript numbers are doubles. `page`, `pageSize` and the counts are unbounded integers here, and `Math.ceil(total / pageSize)` is the exact integer ceiling, which agrees for counts below 2^53.
- JavaScript strings are UTF-16 code units; the model uses code points. All code points involved (the white-space set, U+0300–U+036F) lie in the Basic Multilingual Plane, so `trim` and mark removal agree.
- The view layer can assign the exposed refs directly (the repository's test assigns `all`). Such writes can break the page invariant, which only the store's own actions are proved to keep.
- The behaviour of `paged` for a page below 1 follows JavaScript's `slice` (negative indices count from the end). No property is stated for it, since the actions never move the page below 1.
