# Photographer directory: filter, sort and "Load More" pipeline

This project models the core of the photographer directory's single React
component, `App` in `src/App.js`. When the user changes the search term, the
rating floor, the style checkboxes, the city, the sort order or the price
slider, the component runs `applyFilters`. That function narrows the loaded
list with one `filter` per active criterion, sorts the result by the selected
comparator, stores it as `filtered` and resets the number of visible entries
to three. The page shows `filtered.slice(0, visibleCount)`. A "Load More"
button is offered while entries remain hidden, and after a delay it shows all
of them.

The model has these modules:

- `Sequences`: `Array.prototype.filter`, `slice` and `[...new Set(...)]` as
  functions on sequences. It proves that a chain of filters equals one filter
  by the conjunction of the predicates. It also proves that the distinct list
  keeps first-occurrence order.
- `Text`: ASCII `toLowerCase`, `String.prototype.includes` (specified by the
  existence of an occurrence) and `Array.prototype.join`.
- `Photographers`: the photographer record, the filter criteria, and each of
  the five filters as a predicate. `Selected` is the whole filter stage.
- `Sorting`: the three comparators. `StableSort` is a functional stable
  insertion sort, and `SortInPlace` is an in-place array version proved equal
  to it. The module also proves that every sorted arrangement which keeps the
  order within each group of ties is `StableSort`'s result.
- `Styles`: the style checkbox toggle, `handleStyleChange`.
- `Directory`: the filter chain and the sort as methods, each proved equal to
  the function that specifies it. It also holds the city list, and a class `Page`
  whose fields are the component's state. Each `Page` method is one state
  change of the component.
- `Scenarios`: worked cases on small concrete lists.

Ratings are integers in tenths of a star, so 4.8 is `48`. The rating floor is
the selected radio button in whole stars, and a photographer passes it when
`rating >= 10 * floor`.

## Model

| member | source | states |
|---|---|---|
| Sequences.Filter | src/App.js:44-65 | the result of `filter` is a subsequence of the input; each element occurs as often as in the input if it passes and not at all otherwise |
| Sequences.FilterFuse | src/App.js:44-65 | filtering by `f` and then by `g` equals one filter by `f && g`, so the successive `filter` calls select exactly the records passing every active stage |
| Sequences.FilterMonotone | src/App.js:53-57 | a stronger predicate keeps a subsequence of what a weaker one keeps |
| Sequences.Prefix | src/App.js:171 | `slice(0, n)` is a prefix of the list of length `min(n, length)` |
| Sequences.Distinct | src/App.js:146 | `[...new Set(xs)]` has no duplicates and holds exactly the values of `xs` |
| Sequences.DistinctFirstOccurrenceOrder | src/App.js:146 | the distinct values appear in the order of their first occurrence in `xs` |
| Text.Includes | src/App.js:46 | `includes` is true exactly when the needle occurs at some position of the text |
| Text.LowerStr | src/App.js:45-46 | lowercasing keeps the length and leaves no capital letter; `LowerStrChars` states the mapping per character |
| Text.LowerStrChars | src/App.js:45-46 | each capital letter becomes the matching small letter and every other character is kept |
| Text.Join | src/App.js:45 | `join` of no parts is empty; otherwise it starts with the first part and is as long as the parts plus one separator fewer than there are parts; `JoinSplit` gives the rest |
| Text.JoinSplit | src/App.js:45 | the joined string splits at any part boundary into the earlier parts joined, a separator and the later parts joined |
| Text.JoinContainsPart | src/App.js:45 | every tag occurs in `tags.join(' ')` |
| Photographers.InitialCriteria | src/App.js:8-13 | the initial criteria: empty search, no rating, no styles, no city, price range [0, 20000], no sort |
| Photographers.Haystack | src/App.js:45 | the searched text has no capital letter and is the name, the location and the joined tags plus two separating spaces |
| Photographers.MatchesSearch | src/App.js:44-47 | a record matches exactly when the lowercased term occurs somewhere in the haystack, which requires the term to be no longer than the haystack |
| Photographers.Passes | src/App.js:44-65 | a passing record is within the price range, meets the rating floor when one is set, is in the selected city when one is set and has every selected style; with no filter active it passes exactly when its price is in range |
| Photographers.PassesExactly | src/App.js:44-65 | a record passes exactly when it matches the search, meets the rating floor when one is set, has every selected style, is in the selected city when one is set and is priced within the range |
| Photographers.Selected | src/App.js:44-65 | the filter stage keeps, in list order and with multiplicity, exactly the records passing every active filter |
| Photographers.EmptySearchMatchesAll | src/App.js:44-47 | an empty search term matches every record |
| Photographers.SearchIgnoresCase | src/App.js:45-46 | the search gives the same answer for a term and its lowercase form |
| Photographers.SearchFindsField | src/App.js:45-46 | a term found, ignoring case, in the name, the location or any one tag matches |
| Photographers.SearchSpansFields | src/App.js:45 | since the fields are joined into one text, a term can match across the space between name and location while occurring in neither |
| Photographers.MoreStylesShrink | src/App.js:53-57 | selecting more styles can only remove records from the result |
| Photographers.NoActiveFilterKeepsAll | src/App.js:44-65 | with no filter active and every price in range, the filter stage returns the list unchanged |
| Sorting.KeyOf | src/App.js:67-73 | each of the three option strings selects its comparator; any other string, "" included, selects none |
| Sorting.Compare | src/App.js:67-73 | each comparator returns the difference of the keys it orders by: price, rating negated, id negated |
| Sorting.StableSort | src/App.js:67-73 | the sort keeps the list's length; its order properties are the lemmas below |
| Sorting.InsertSorted | src/App.js:67-73 | inserting into a sorted list keeps it sorted by the comparator |
| Sorting.StableSortPermutes | src/App.js:67-73 | sorting returns a permutation of its input |
| Sorting.StableSortSorted | src/App.js:67-73 | the sorted list has no element comparing greater than a later one |
| Sorting.StableSortStable | src/App.js:67-73 | records with equal keys keep their relative order, as `Array.prototype.sort` requires |
| Sorting.StableSortIsUnique | src/App.js:67-73 | any sorted arrangement that keeps each group of ties in input order equals `StableSort`, so the result does not depend on the engine's sort algorithm |
| Sorting.InsertAt | src/App.js:67-73 | shifting larger elements right inserts `a[i]` into the sorted prefix, as `Insert` specifies, and leaves the rest of the array alone |
| Sorting.SortInPlace | src/App.js:67-73 | `result.sort(cmp)` in place: the array ends as `StableSort` of its old contents |
| Styles.ToggleStyle | src/App.js:79-85 | a selected style is removed (every copy, other styles keep their counts and order); an unselected one is appended at the end |
| Styles.ToggleFlips | src/App.js:79-85 | toggling flips whether the style is selected and leaves every other style's selection alone |
| Styles.ToggleTwiceRestores | src/App.js:79-85 | toggling an unselected style twice gives back the exact selection |
| Styles.ToggleTwiceSameSet | src/App.js:79-85 | toggling any style twice gives back the same set of styles |
| Directory.Arranged | src/App.js:67-73 | the sort stage returns a permutation; unchanged when no order is selected; otherwise sorted with ties in input order |
| Directory.View | src/App.js:41-76 | the stored result is a permutation of the selected records; it is in list order when no sort is chosen and sorted by the chosen comparator otherwise |
| Directory.FilterChain | src/App.js:42-65 | the chain of conditional `filter` calls computes exactly `Selected` |
| Directory.Arrange | src/App.js:67-73 | copying to an array and sorting in place computes exactly `Arranged` |
| Directory.ViewCounts | src/App.js:41-75 | a record is in `filtered` exactly when it is in the list and passes every active filter, as often as in the list |
| Directory.ToggleTwiceSameView | src/App.js:79-85 | ticking and unticking a style leaves the filtered result as it was |
| Directory.Locations | src/App.js:146 | `photographers.map((p) => p.location)`: one location per photographer, in list order |
| Directory.Cities | src/App.js:146 | the city options: every location once, each belonging to some photographer, in order of first appearance |
| Directory.RawLoadIgnoresPriceRange | src/App.js:27-28 | a photographer priced 25000 is stored by the load though the initial criteria exclude it |
| Directory.Page.constructor | src/App.js:5-16 | the initial state: empty lists, the initial criteria, three visible, no pending "Load More" |
| Directory.Page.Visible | src/App.js:171 | the shown entries are a prefix of `filtered` of length `min(visibleCount, length)` |
| Directory.Page.LoadMoreOffered | src/App.js:198 | the "Load More" area is shown exactly when some entries of the result are not visible |
| Directory.Page.ApplyFilters | src/App.js:41-77 | `filtered` becomes the filtered and sorted view of the list and `visibleCount` becomes 3 |
| Directory.Page.LoadAsWritten | src/App.js:27-28 | the arriving list is stored both as the list and, unfiltered, as `filtered` |
| Directory.Page.Load | src/App.js:27-28 | the arriving list is stored and `filtered` is the view under the current criteria |
| Directory.Page.ToggleStyleBox | src/App.js:79-85 | only the style selection changes, by `ToggleStyle`, and the result is recomputed with three visible |
| Directory.Page.SetSearchTerm | src/App.js:95 | only the search term changes, and the result is recomputed with three visible |
| Directory.Page.SetRatingFloor | src/App.js:114-121 | only the rating floor changes, and the result is recomputed with three visible |
| Directory.Page.SetCity | src/App.js:144 | only the city changes, and the result is recomputed with three visible |
| Directory.Page.SetSortOption | src/App.js:154 | only the sort option changes, and the result is recomputed with three visible |
| Directory.Page.SetPriceCeiling | src/App.js:102-109 | the price range becomes [0, ceiling], and the result is recomputed with three visible |
| Directory.Page.StartLoadMore | src/App.js:205-206 | pressing "Load More", possible only while it is offered and not pending, marks it pending |
| Directory.Page.FinishLoadMore | src/App.js:207-210 | when the timer fires, every entry is visible, nothing is pending and the button is gone |
| Scenarios.StylesAreConjunctive | src/App.js:53-57 | a photographer with one of two selected styles is excluded; with no styles selected it passes |
| Scenarios.PriceCeilingIncluded | src/App.js:63-65 | a price equal to the upper bound passes the price filter |
| Scenarios.SearchAcrossFields | src/App.js:44-47 | the search finds a name, a location and a tag regardless of case |
| Scenarios.RatingSortIsStable | src/App.js:69-70 | ratings 3.5, 4.8, 4.8, 2.0 sort to 4.8, 4.8, 3.5, 2.0 with the two 4.8s in list order |
| Scenarios.CitiesOnce | src/App.js:146 | locations Pune, Pune, Mumbai give the options Pune, Mumbai |
| Scenarios.InitialViewKeepsAll | src/App.js:41-65 | under the initial criteria every photographer priced within [0, 20000] is listed, in list order |

## Left out

- Fetching the list, the `loading` and `error` states and the error message are not modelled. They are network I/O. The arriving list is a parameter of `Load` and `LoadAsWritten`.
- Directory.Page.LoadMoreOffered: it omits the `!loading` part of the button condition at src/App.js:198, because loading is not modelled.
- Directory.Page.FinishLoadMore: it sets `visibleCount` to the length of `filtered` when the timer fires. The source's closure captures `filtered` when the button is pressed. A criteria change during the one-second delay would make them differ. Timers are not modelled.
- React's effect scheduling is not modelled. Each setter method runs `ApplyFilters` immediately, as the effect at src/App.js:37-39 does after a change to one of its dependencies. Re-renders and batching are not modelled.
- Directory.Page.SetRatingFloor: `parseFloat` of the radio value is modelled as the whole number of stars it carries. Ratings are tenths of a star, so ratings with more than one decimal are not modelled.
- Directory.Page.SetPriceCeiling: `parseInt` of the slider value is modelled as the integer it carries. The slider's range and step are not enforced.
- Text.Lower: `toLowerCase` is modelled for ASCII letters only. Unicode case mapping is not modelled.
- Sorting.SortInPlace: the engine's sort algorithm is not modelled. An insertion sort stands in for it, and `Sorting.StableSortIsUnique` shows that every stable sort by the same comparator gives the same result.
- Photographers.Photographer: ids and prices are integers, so fractional or missing values are not modelled. Neither is the floating-point subtraction in the comparators at src/App.js:68 and 72, or a comparison with a missing field being false at src/App.js:64.
- Rendering is not modelled: the cards, the profile modal, the inquiry form, and the `bio`, `profilePic`, `portfolio` and `reviews` fields.
- Directory.Page.ApplyFilters: `applyFilters` sets `visibleCount` to 3 even when there are fewer results. The `slice` at src/App.js:171 then shows all of them, and `Directory.Page.Visible` states that length.

## Findings

| source | as written | input that shows it | evidently intended | confidence | as-written member | corrected member |
|---|---|---|---|---|---|---|
| src/App.js:27-28 | the mount effect stores the fetched list as `filtered` unfiltered. The filter effect (src/App.js:37-39) does not list `photographers` as a dependency, so it does not re-run when the list arrives | the initial criteria with one photographer priced 25000: the list shows them, although the default price range is [0, 20000] | the result after loading is the view under the current criteria | medium, not executed | Directory.Page.LoadAsWritten, Directory.RawLoadIgnoresPriceRange | Directory.Page.Load |
