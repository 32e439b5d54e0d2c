# Movie catalog browsing: a Dafny model

This project models the logic of a small movie-catalog app's two browsing
screens. `src/screens/HomeScreen.tsx` is the richer screen with a detail
modal; `src/screens/HomeScreen.js` is the simpler two-column screen. Both
filter a static list of movies by a search text. A movie is kept when the
lower-cased text is a substring of its lower-cased title (`titre`), actors
(`acteurs`) or genres (`genres`). Each screen also chooses a grid column
count. The richer screen also tracks which movie, if any, its detail modal
shows.

Files and modules:

- `text.dfy`, module `Text`: ASCII lower-casing (`toLowerCase`) and substring containment (`includes`).
- `catalog.dfy`, module `Catalog`: the `Movie` record, `Array.prototype.filter` as `Filter`, and the facts about it that both screens use. These are membership, multiplicity, the kept/rejected partition, and order (the result is a subsequence, at the increasing positions the predicate accepts).
- `platform.dfy`, module `Platform`: `Platform.OS`, reduced to web versus every other platform.
- `home_screen_tsx.dfy`, module `HomeScreenTsx`: this screen's filter, `getNumColumns`, and the `selectedMovie` state as the class `DetailSelection`.
- `home_screen_js.dfy`, module `HomeScreenJs`: the other screen's filter, which tests the fields in a different order, and its column rule. It also proves that both filters give the same list.

The display width and the platform are parameters. In the source, the
width is read once, from `Dimensions.get('window')`, when the module loads
(`HomeScreen.tsx:21`). `Platform.OS` is read on each render
(`HomeScreen.tsx:24` through the call at `:46`, and `HomeScreen.js:40`).
The width is a `real`, and only strict comparisons with 800 and 1200 are
made on it.

Three behaviours of the code worth stating:

- The code calls `.toLowerCase()` directly on every searched field, so a missing field would throw. Every `Movie` therefore has all six fields, and no rule for a missing field is modelled.
- Closing the modal sets the selection to null whatever its state (`setSelectedMovie(null)`). `Dismiss` is therefore allowed when nothing is selected.
- Off the web, the column count is 3 in `HomeScreen.tsx` and 2 in `HomeScreen.js`. On the web, `HomeScreen.js` passes 0. Both rules are modelled as written, and `HomeScreenJs.ColumnRulesDiffer` proves they never agree.

## Model

| member | source | states |
|---|---|---|
| Text.LowerChar | src/screens/HomeScreen.tsx:50 | one character lower-cased: 'A'..'Z' move up by 32 to 'a'..'z', every other character is kept, and the result is never in 'A'..'Z' |
| Text.Lower | src/screens/HomeScreen.tsx:50 | lower-casing keeps the length and maps each character through ASCII `LowerChar` |
| Text.LowerIdempotent | src/screens/HomeScreen.tsx:50 | lower-casing a lower-cased string changes nothing |
| Text.LowerHasNoUpper | src/screens/HomeScreen.tsx:50 | a lower-cased string has no character in 'A'..'Z' |
| Text.Includes | src/screens/HomeScreen.tsx:52-54 | `includes` is true exactly when the substring occurs at some index of the string. |
| Text.IncludesEmpty | src/screens/HomeScreen.tsx:52-54 | the empty string is included in every string |
| Text.IncludesLower | src/screens/HomeScreen.tsx:50-54 | a literal occurrence is still found after both strings are lower-cased |
| Catalog.Filter | src/screens/HomeScreen.tsx:51 | `Array.prototype.filter`, also used at src/screens/HomeScreen.js:11; its own contract bounds the result's length by the input's (order and membership are in `Catalog.Positions` and `Catalog.FilterMembership`) |
| Catalog.Reject | src/screens/HomeScreen.tsx:51 | the elements a filter leaves out: exactly the input elements the predicate rejects (this filter serves both src/screens/HomeScreen.tsx:51 and src/screens/HomeScreen.js:11) |
| Catalog.Positions | src/screens/HomeScreen.tsx:51 | the filter's result sits at strictly increasing input positions, and those positions are exactly the ones the predicate accepts (this filter serves both src/screens/HomeScreen.tsx:51 and src/screens/HomeScreen.js:11) |
| Catalog.FilterIsSubsequence | src/screens/HomeScreen.tsx:51 | the filter's result is a subsequence of its input (this filter serves both src/screens/HomeScreen.tsx:51 and src/screens/HomeScreen.js:11) |
| Catalog.FilterMembership | src/screens/HomeScreen.tsx:51 | an element is in the result exactly when it is in the input and accepted (this filter serves both src/screens/HomeScreen.tsx:51 and src/screens/HomeScreen.js:11) |
| Catalog.FilterCount | src/screens/HomeScreen.tsx:51 | an accepted element keeps its multiplicity and a rejected one has none (this filter serves both src/screens/HomeScreen.tsx:51 and src/screens/HomeScreen.js:11) |
| Catalog.FilterPartition | src/screens/HomeScreen.tsx:51 | kept plus rejected elements equal the input as a multiset, and their lengths add up to its length (this filter serves both src/screens/HomeScreen.tsx:51 and src/screens/HomeScreen.js:11) |
| Catalog.FilterAll | src/screens/HomeScreen.tsx:51 | a predicate that accepts every element leaves the input unchanged (this filter serves both src/screens/HomeScreen.tsx:51 and src/screens/HomeScreen.js:11) |
| Catalog.FilterCongruent | src/screens/HomeScreen.tsx:51 | predicates that agree on the input give the same result (this filter serves both src/screens/HomeScreen.tsx:51 and src/screens/HomeScreen.js:11) |
| HomeScreenTsx.Matches | src/screens/HomeScreen.tsx:52-54 | a movie matches exactly when the lower-cased search occurs somewhere in its lower-cased title, actors or genres; every movie matches the empty search |
| HomeScreenTsx.FilteredMovies | src/screens/HomeScreen.tsx:49-56 | a movie is shown exactly when it is in the catalog and its title, actors or genres contain the lower-cased search; at most the catalog's length |
| HomeScreenTsx.ExcludedMovies | src/screens/HomeScreen.tsx:51-55 | a movie is hidden exactly when it is in the catalog and does not match |
| HomeScreenTsx.EmptySearchShowsAll | src/screens/HomeScreen.tsx:50-55 | the empty search shows the whole catalog unchanged and in order |
| HomeScreenTsx.ShownAndHiddenPartition | src/screens/HomeScreen.tsx:51-55 | shown and hidden movies make up the catalog as a multiset; each shown one matches; each hidden one matches in none of title, actors, genres |
| HomeScreenTsx.ShownCount | src/screens/HomeScreen.tsx:51-55 | a matching movie is shown as many times as the catalog lists it, a non-matching one never |
| HomeScreenTsx.ShownInCatalogOrder | src/screens/HomeScreen.tsx:51 | shown movies are a subsequence of the catalog, taken at exactly the positions whose movie matches |
| HomeScreenTsx.LiteralMatchShown | src/screens/HomeScreen.tsx:50-55 | a catalog movie whose title, actors or genres contain the search as typed, upper case included, is shown |
| HomeScreenTsx.SearchIgnoresCase | src/screens/HomeScreen.tsx:50 | a search text and its lower-cased form show the same movies |
| HomeScreenTsx.SearchIgnoresCaseExample | src/screens/HomeScreen.tsx:50 | "ACTION" and "action" show the same movies |
| HomeScreenTsx.GetNumColumns | src/screens/HomeScreen.tsx:23-30 | the count is 3, 4 or 6: 6 exactly on the web above 1200, 4 exactly on the web in (800, 1200], 3 exactly off the web or at most 800 |
| HomeScreenTsx.GetNumColumnsMonotone | src/screens/HomeScreen.tsx:24-27 | on the web a wider window never gets fewer columns |
| HomeScreenTsx.GetNumColumnsNativeFixed | src/screens/HomeScreen.tsx:29 | off the web the count is 3 whatever the width |
| HomeScreenTsx.DetailSelection.constructor | src/screens/HomeScreen.tsx:45 | at first nothing is selected and the modal is hidden |
| HomeScreenTsx.DetailSelection.ModalVisible | src/screens/HomeScreen.tsx:103 | the modal is visible exactly when some movie is selected |
| HomeScreenTsx.DetailSelection.Select | src/screens/HomeScreen.tsx:62 | after a tap the tapped movie is selected, whatever was before, and the modal is visible |
| HomeScreenTsx.DetailSelection.Dismiss | src/screens/HomeScreen.tsx:106-112 | after closing nothing is selected and the modal is hidden |
| HomeScreenTsx.SelectionScenario | src/screens/HomeScreen.tsx:62-112 | from the contracts of `Select` and `Dismiss` alone: after select then dismiss the modal is hidden, after two selections the second movie is selected, and after two dismissals the modal is hidden |
| HomeScreenJs.Matches | src/screens/HomeScreen.js:14-16 | a movie matches exactly when the lower-cased search occurs somewhere in its lower-cased title, genres or actors; every movie matches the empty search |
| HomeScreenJs.FilteredMovies | src/screens/HomeScreen.js:11-18 | a movie is shown exactly when it is in the catalog and its title, genres or actors contain the lower-cased search; at most the catalog's length |
| HomeScreenJs.ExcludedMovies | src/screens/HomeScreen.js:13-17 | a movie is hidden exactly when it is in the catalog and does not match |
| HomeScreenJs.EmptySearchShowsAll | src/screens/HomeScreen.js:11-17 | the empty search shows the whole catalog unchanged and in order |
| HomeScreenJs.ShownAndHiddenPartition | src/screens/HomeScreen.js:13-17 | shown and hidden movies make up the catalog as a multiset; each shown one matches; each hidden one matches in none of title, genres, actors |
| HomeScreenJs.ShownInCatalogOrder | src/screens/HomeScreen.js:11 | shown movies are a subsequence of the catalog, taken at exactly the positions whose movie matches |
| HomeScreenJs.MatchesAgree | src/screens/HomeScreen.js:14-16 | testing title/genres/actors accepts the same movies as title/actors/genres |
| HomeScreenJs.SameAsTsx | src/screens/HomeScreen.js:11-18 | this screen's filter returns the same list as the other screen's for every catalog and search |
| HomeScreenJs.NumColumns | src/screens/HomeScreen.js:40 | the count is 0 exactly on the web and 2 exactly elsewhere |
| HomeScreenJs.ColumnRulesDiffer | src/screens/HomeScreen.js:40 | this screen's count never equals the other screen's; off the web it is one less |

## Left out

- Text.Lower: models ASCII lower-casing only. JavaScript's `toLowerCase` also maps non-ASCII letters, can change a string's length ('İ' becomes two code units) and depends on context (a word-final 'Σ' becomes 'ς', a lone one 'σ'). So three facts hold of this ASCII model but not of JavaScript in general: `Lower` keeps the length, `Text.IncludesLower`, and `HomeScreenTsx.LiteralMatchShown`. For instance, JavaScript does not show a movie titled "ΑΣ" for the search "Σ", because "ας".includes("σ") is false.
- Text.LowerChar: the same ASCII-only limit, for one character: a non-ASCII capital is left unchanged.
- Rendering: JSX, style sheets, the modal, scroll view and safe-area chrome, and which fields the modal displays. These are UI framework code.
- `FlatList` tuning (`initialNumToRender`, `maxToRenderPerBatch`, `windowSize`, `removeClippedSubviews`) and the `keyExtractor` strings. They are library behaviour with no stated contract.
- What `FlatList` does with `numColumns` 0. The model gives the value the screen passes, not the layout that results.
- Loading the JSON dataset and resolving posters through the image registry (`affiche`). These are foreign data; the catalog is a parameter.
- Reading the window size when the module loads and `Platform.OS` on each render. Both are parameters instead.
- `useMemo` caching of the filtered list. It does not change the result.
- The `search` text state (`useState('')`, `onChangeText`). The search text is a parameter of the filter.
- `src/components/MovieCard.js`. It is presentation, and its only arithmetic is floating-point card sizing.
