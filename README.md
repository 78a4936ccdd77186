# Country list demo: filter, highlight and flag cache

A verified model of the logic inside a small web-component demo that shows a
filterable, selectable list of countries. Three components hold that logic:

- `DemoApp` (module `App`) holds the country list. It filters the list by the text typed
  into the input. The filter text is escaped and compiled into a case-insensitive regular
  expression, so it acts as a literal substring test. `DemoApp` also derives the heading
  of the selected list and the class attribute of each row.
- `DemoCountryItem` (module `CountryItem`) renders one country. It highlights the first
  case-insensitive occurrence of the filter in the label. The first time a country object
  is shown, the item signals that country's flag image and stamps the shared object
  (`meta`), so the signal fires at most once per country.
- `DemoCountries` (module `Countries`) builds the country records from the ISO 3166-1
  alpha-2 table. It also keeps the flag-image cache: a queue of pending flags and the
  list of codes already requested. A flush drains the queue in order.

Module `Text` holds the shared string primitives: lower-casing, `indexOf` and the decimal
rendering of a number. Module `RegexFilter` holds the escaping, the fragment of
regular-expression syntax that escaped text produces, and the case-insensitive `test`.

Objects whose fields the source updates in place are classes: `App.DemoApp`,
`CountryItem.DemoCountryItem`, `Countries.DemoCountries` and `Countries.CountryRecord`
(the mutable field is `meta`). Pure expressions are functions, and lemmas state their
properties. The source's `label` field is called `labelText`, because `label` is a
keyword in Dafny.

Behaviour of the code worth knowing:

- The heading always starts with "Selected ": "Selected Countries", "Selected Country"
  or "Selected Countries(n)".
- The filter "r" keeps both France and Germany, since both labels contain an r
  (`App.FranceGermanyScenario`).
- `addToFlagCache` looks only at the cached list, so a code queued twice before a flush
  is requested twice (`Countries.FlagCacheScenario`). Once flushed, the code is never
  queued again.
- New country data is shown unfiltered, even if a filter was applied before.

## Model

| member | source | states |
|---|---|---|
| `Text.IndexOf` | src/demo-country-item/demo-country-item.js:110 | `indexOf` gives -1 exactly when the needle occurs nowhere. Otherwise it gives a position where the needle occurs, and the needle occurs at no earlier position. |
| `Text.IndexOfFrom` | src/demo-country-item/demo-country-item.js:110 | The search from a start position finds the first occurrence at or after that position, or gives -1 when there is none. |
| `Text.LowerStr` | src/demo-app/demo-app.js:176 | `toLowerCase`, used also on the label at src/demo-country-item/demo-country-item.js:109. It keeps the length and lower-cases each character on its own. Its properties are `LowerIdempotent` and `LowerSlice`. |
| `Text.Decimal` | src/demo-app/demo-app.js:191 | `${len}` renders a count as a non-empty string of digits. A rendering of more than one digit never starts with 0. |
| `Text.DecimalRoundTrip` | src/demo-app/demo-app.js:191 | Reading the digits back gives the count that was rendered. |
| `Text.DecimalInjective` | src/demo-app/demo-app.js:191 | Different counts render to different digit strings. |
| `RegexFilter.Escape` | src/demo-app/demo-app.js:175 | `val.replace(/(\W)/g, '\\$1')`. The pattern is at least as long as the input and at most twice as long. `CompileEscape` proves that compiling it gives back the input. |
| `RegexFilter.Compile` | src/demo-app/demo-app.js:175 | `new RegExp(pattern, 'i')` on word characters and identity escapes, giving the literal characters the pattern matches. Each literal takes one or two pattern characters. `CompileEscape` carries its main property. |
| `RegexFilter.Test` | src/demo-app/demo-app.js:178 | `filterRegExp.test(label)`. A label passes only if it is at least as long as the literal. `SearchFromIff` and `FilterTestIsLiteralSubstring` characterise it as case-insensitive substring search. |
| `RegexFilter.CompileEscape` | src/demo-app/demo-app.js:175 | Backslash-escaping every non-word character yields a pattern that always compiles. The pattern matches exactly the input's characters, in order, as literals. |
| `RegexFilter.MatchHereIff` | src/demo-app/demo-app.js:178 | A compiled literal pattern matches at the start of a text if and only if the lower-cased text begins with the lower-cased literal. |
| `RegexFilter.SearchFromIff` | src/demo-app/demo-app.js:178 | `test` finds a match from a position on if and only if the lower-cased literal occurs in the lower-cased text at that position or later. |
| `RegexFilter.FilterTestIsLiteralSubstring` | src/demo-app/demo-app.js:175-178 | The matcher built from a filter accepts a label if and only if the label contains the filter as a substring, ignoring case. |
| `RegexFilter.EmptyFilterMatchesAll` | src/demo-app/demo-app.js:175-178 | The empty filter compiles, and every label passes it. |
| `RegexFilter.MetacharactersAreLiteral` | src/demo-app/demo-app.js:175 | The filter `c.+` accepts "C.+ Land" and rejects "Chad". So `.` and `+` match only themselves. |
| `App.SubsequenceReflexive` | src/demo-app/demo-app.js:152-154 | A list is an order-preserving subsequence of itself. So showing the whole country list keeps the app invariant. |
| `App.Filter` | src/demo-app/demo-app.js:177-179 | `countryData.filter(...)`. It never grows the list and keeps only countries of the list whose label passes the test. `FilterIsSubsequence`, `FilterMembership` and `FilterIsLiteralMatch` carry the rest. |
| `App.FilterIsLiteralMatch` | src/demo-app/demo-app.js:175-179 | Filtering with the escaped, compiled filter gives exactly the countries whose label contains the filter ignoring case, in list order. |
| `App.FilterIsSubsequence` | src/demo-app/demo-app.js:177-179 | The filtered list is an order-preserving subsequence of the country list. |
| `App.FilterMembership` | src/demo-app/demo-app.js:177-179 | A country is in the filtered list if and only if it is in the country list and its label passes the test. |
| `App.EmptyFilterKeepsAll` | src/demo-app/demo-app.js:175-179 | The empty filter keeps the whole country list, in order. |
| `App.KeptCountriesAreHighlighted` | src/demo-app/demo-app.js:176-179 | Every country a non-empty filter keeps is shown highlighted under the lower-cased filter the app passes to its rows. The markup wraps the first occurrence of the filter in the tags, and is longer than the label by exactly the two tags. |
| `App.SelectedHeader` | src/demo-app/demo-app.js:189-193 | `_getSelectedHeader`. The heading always starts with "Selected ". `SelectedHeaderCases` and `SelectedHeaderInjective` give the three cases and their distinctness. |
| `App.SelectedHeaderCases` | src/demo-app/demo-app.js:189-193 | The heading is "Selected Countries" for 0 and "Selected Country" for 1. For n > 1 it is "Selected Countries(" + the decimal rendering of n + ")", and those digits read back as n. |
| `App.SelectedHeaderInjective` | src/demo-app/demo-app.js:189-193 | Different selection counts always give different headings. |
| `App.ComputedClass` | src/demo-app/demo-app.js:139-145 | `_computedClass`. The class list always starts with `item` and is longer exactly when the row is selected. `ComputedClassNames` gives the class names. |
| `App.ComputedClassNames` | src/demo-app/demo-app.js:139-145 | Every row has the class `item`. It also has the class `selected` exactly when it is selected, and no other class. |
| `App.DemoApp.constructor` | src/demo-app/demo-app.js:18-32 | The render counter starts at 0, no filter value is set, and both lists are empty. |
| `App.DemoApp.CountryDataChanged` | src/demo-app/demo-app.js:152-154 | New country data is shown unfiltered. The filter value and the render counter do not change, and the app invariant holds. |
| `App.DemoApp.RunFilter` | src/demo-app/demo-app.js:174-181 | The shown list becomes exactly the countries whose label contains the filter ignoring case, in order. The filter value becomes the lower-cased input. The render counter goes up by exactly one. The country list does not change, and the app invariant holds. |
| `App.ClearFilterRestoresList` | src/demo-app/demo-app.js:174-181 | Running the empty filter shows the whole country list again, in its original order. |
| `App.FranceGermanyScenario` | src/demo-app/demo-app.js:174-181 | With France and Germany, the filter "r" keeps both. The filter "F" keeps only France. Clearing the filter restores both, in order. |
| `CountryItem.Highlight` | src/demo-country-item/demo-country-item.js:104-120 | The markup `_updateLabel` writes. It is either the label itself or the label plus exactly the two tags. `HighlightNoFilter`, `HighlightNoMatch`, `HighlightFirstMatch` and `HighlightLength` carry its properties. |
| `CountryItem.HighlightNoFilter` | src/demo-country-item/demo-country-item.js:105-107 | With no filter, or an empty one, the label is shown unchanged. |
| `CountryItem.HighlightNoMatch` | src/demo-country-item/demo-country-item.js:109-111 | If the filter does not occur in the lower-cased label, the label is shown unchanged. |
| `CountryItem.HighlightFirstMatch` | src/demo-country-item/demo-country-item.js:109-116 | If the filter occurs, the markup is start + open tag + match + close tag + end, split around the first occurrence. The match keeps the label's own casing, has the filter's length and equals the filter once lower-cased. start + match + end is the label. |
| `CountryItem.HighlightLength` | src/demo-country-item/demo-country-item.js:110-116 | The markup is longer than the label by exactly the two tags if and only if the filter occurs in the lower-cased label. |
| `CountryItem.DemoCountryItem.constructor` | src/demo-country-item/demo-country-item.js:57-66 | A row starts with the bound data and filter, and with no image or label markup yet. |
| `CountryItem.DemoCountryItem.DataChanged` | src/demo-country-item/demo-country-item.js:75-102 | With no data: no signal and no change. Otherwise the label markup is the highlight of the label and the image is the country's flag. If the country object was not yet stamped, the signal `{imgSrc, code}` is emitted. Either way the object ends up stamped. |
| `CountryItem.SignalOncePerCountry` | src/demo-country-item/demo-country-item.js:84-100 | A country shown by two rows, or shown again, signals its flag only the first time. |
| `Countries.CountryRecord.constructor` | src/demo-countries/demo-countries.js:60-64 | The record literal `{label, code, imgSrc}`. It holds the given label, code and image, and starts unstamped. |
| `Countries.FlagPath` | src/demo-countries/demo-countries.js:63 | The flag image path of a code: the flag directory, then the code, then `.svg`. `FlagPathInjective` shows that the path determines the code. |
| `Countries.FlagPathInjective` | src/demo-countries/demo-countries.js:63 | Different codes never share a flag path. |
| `Countries.BuildCountries` | src/demo-countries/demo-countries.js:58-65 | One new, unstamped and distinct record per table row, in table order. Each record has the row's name as label and the lower-cased alpha-2 code as code. Its image is the flag path of that code. |
| `Countries.DemoCountries.constructor` | src/demo-countries/demo-countries.js:14-42 | The pending queue, the cached list and the data all start empty. |
| `Countries.DemoCountries.FetchCountries` | src/demo-countries/demo-countries.js:56-70 | Records are built from the table only when no data has been published yet. Otherwise the data does not change. The cache does not change either way. |
| `Countries.DemoCountries.AddToFlagCache` | src/demo-countries/demo-countries.js:78-84 | A code already in the cached list leaves the queue unchanged. Any other request is appended to the end of the queue. The cached list never changes. |
| `Countries.DemoCountries.CacheNewFlags` | src/demo-countries/demo-countries.js:91-101 | The cached list becomes its old value followed by the queued codes, in queue order. One image is requested per queued entry, in order, with its source. The queue ends empty. |
| `Countries.FlagCacheScenario` | src/demo-countries/demo-countries.js:78-101 | A request added twice before a flush is requested twice. After the flush, adding it again requests nothing. |

## Left out

- Polymer templates, styles, property declarations and `customElements.define` are left out. They are framework wiring.
- DOM effects are left out: `innerHTML`, `createElement('img')`, the document fragment and the event bubbling. They become state and outputs. The row's label markup is a field. The image requests are the sequence `CacheNewFlags` returns. The flag signal is the value `DataChanged` returns.
- The 100 ms debounce of `_filterChanged` is left out. `RunFilter` is an explicit call with the last value.
- The idle-period scheduling of `addToFlagCache` is left out. `CacheNewFlags` is an explicit call.
- The 200 ms `setTimeout` of `_fetchCountries` is left out. `FetchCountries` publishes the records at once.
- The `renderTrack` property of a row is left out. It only makes the framework call the row's observer again, and `DataChanged` is an explicit call.
- `_addFlag` is left out: it only forwards the signal's payload to `AddToFlagCache`.
- The ISO table in `iso-countries.js` is not part of this model. It is an input sequence of (alpha-2, name) rows.
- Selection is owned by the list widget. Only the number of selected countries enters the model, as the argument of `SelectedHeader`.
- `Text.LowerStr`: lower-cases ASCII letters only, because full Unicode `toLowerCase` can change a string's length. The `i` flag of the regular expression is modelled the same way, as a comparison of lower-cased characters.
- `RegexFilter.Compile`: models only the pattern syntax that escaped text produces (word characters and identity escapes). Any other pattern gives `None`, because `_runFilter` never builds one.
- `Text.Decimal`: models the rendering of non-negative integers only. An array length is never negative or fractional.
- `App.DemoApp.constructor`: sets the country list and the shown list to empty. The source leaves them `undefined` until data arrives. The component that publishes the data starts with an empty list.
