# NYC Building Permit Finder — search and state engine

The NYC Building Permit Finder is a browser page that searches the city's
building-permit dataset. It has an address form with a start date, a
fallback search over neighbouring house numbers, and a details panel for
each permit. A value in the panel can start a search for other permits that
share it. The page also keeps a breadcrumb history of searches, a table
whose columns can be hidden, and per-field data filters.

This project models the logic inside `js/app.js` that decides what is
searched, what is kept and what is shown. Each query's outcome (the records
received or an error message) is an input, as is the browser's online flag.
The models, by module:

- `JsString`, `JsNumber`, `UriComponent`: the JavaScript built-ins the page
  relies on, modelled as far as it uses them.
  - `trim`, ASCII `toUpperCase`/`toLowerCase` and `includes`.
  - The default string sort order.
  - `String(n)` and `parseInt` for integers.
  - `encodeURIComponent`.
- `Permits`: permit records as JSON objects, with these operations:
  - `getField`, the dotted-path read with a default;
  - `String(v)` and truthiness on field values;
  - `getBoroughCode`.
- `QueryLiteral`: the quote doubling that puts user text inside the
  dataset's query literals.
- `DataFilters`: the filter pipeline.
  - `applyActiveDataFilters`.
  - The checkbox edits of `activeDataFilters`.
  - The sorted, distinct value domain of each filterable column.
  - The column configuration.
- `Nearby`: the nearby fallback.
  - The candidate house numbers.
  - The concatenation of each candidate's results, where a failed query
    contributes nothing.
  - The first-wins de-duplication by `job_filing_number`.
- `Details`: the details panel.
  - Which values can start a search.
  - The order in which fields are listed.
  - The text shown for each value.
  - The external links.
- `Session`: the page state, as a class. It holds `searchHistory`,
  `allFetchedPermits`, `activeDataFilters` and the column configuration.
  Its methods are the page's handlers:
  - the address form, with its exact query and the nearby fallback;
  - a search by a detail value;
  - breadcrumb navigation;
  - the column and data-filter checkboxes;
  - the clear-filters button.

Each method that changes the state states its whole new state. Each loop of
the source (the candidate loop, the accumulation, the de-duplication and
the detail-key loops) is a method proved equal to a function. The
properties are proved about those functions.

## Model

| member | source | states |
|---|---|---|
| JsString.TrimStartDropsSpace | js/app.js:688-689 | what `trim` removes at the start is all white space |
| JsString.TrimStartKeepsNoSpace | js/app.js:688-689 | what remains after removing leading space does not start with white space |
| JsString.TrimEndDropsSpace | js/app.js:688-689 | what `trim` removes at the end is all white space |
| JsString.TrimEndKeepsNoSpace | js/app.js:688-689 | what remains after removing trailing space does not end with white space |
| JsString.TrimmedEnds | js/app.js:688-689 | a trimmed text neither starts nor ends with white space |
| JsString.TrimEmptyIffBlank | js/app.js:692 | a text trims to empty exactly when it is all white space, which is when the form rejects a field |
| JsString.TrimIdempotent | js/app.js:688-689 | trimming twice gives the same text as trimming once |
| JsString.Upper | js/app.js:699 | `toUpperCase` keeps the length and maps each character to its upper case |
| JsString.UpperIdempotent | js/app.js:59 | upper-casing twice is upper-casing once |
| JsString.Lower | js/app.js:741 | `toLowerCase` keeps the length and maps each character to its lower case |
| JsString.ContainsAt | js/app.js:741 | `includes` finds a substring at any position |
| JsString.ContainsOccurs | js/app.js:741 | `includes` holds only where the substring occurs, the converse of ContainsAt |
| JsString.ContainsNeedsChar | js/app.js:741 | a text lacking one of the substring's characters does not include it |
| JsString.UnderscoresToSpaces | js/app.js:374 | each underscore becomes a space, every other character is kept, the length is unchanged |
| JsString.Utf16Length | js/app.js:540 | the `length` of a string is between its number of code points and twice that, and equals it on the Basic Multilingual Plane |
| JsString.LessIrreflexive | js/app.js:122 | the sort order never puts a string before itself |
| JsString.LessTransitive | js/app.js:122 | the sort order is transitive |
| JsString.LessTotal | js/app.js:122 | of two different strings one sorts before the other |
| JsNumber.Digits | js/app.js:324 | `String(n)` of a natural number is a non-empty string of decimal digits with no leading zero |
| JsNumber.IntToString | js/app.js:324 | `String(n)` of an integer is digits after an optional minus sign |
| JsNumber.ParseSigned | js/app.js:310 | after white space, `parseInt` finds a number exactly when digits follow the optional sign; its sign follows a leading `-` |
| JsNumber.ParseIntSkipsSpace | js/app.js:310 | `parseInt` of a text is its reading of the text without leading white space |
| JsNumber.ParseIntOfIntToString | js/app.js:310 | `parseInt` reads back the integer `String` wrote, whatever non-digit text follows |
| JsNumber.ParseIntNoDigits | js/app.js:310 | a house number with no digit after the white space and the optional sign (`"abc"`, `"-"`, `"+x"`) is `NaN` |
| JsNumber.DigitRun | js/app.js:310 | the digit run `parseInt` reads is the longest prefix of digits in the radix |
| JsNumber.DigitsValueOfDigits | js/app.js:310 | the digits of `String(n)` have value `n` |
| JsNumber.ParseMagnitudeOfDigits | js/app.js:310 | the magnitude reader returns `n` for the digits of `n` followed by text that ends a number |
| Permits.Lookup | js/app.js:39 | `k in o ? o[k] : undefined`: a value exactly when `k` is an own key, and then the property with that key |
| Permits.Split | js/app.js:39 | `split('.')` gives at least one part and no part contains a dot |
| Permits.JoinSplit | js/app.js:39 | splitting a path on dots loses nothing: joining the parts gives the path back |
| Permits.SplitNoDot | js/app.js:39 | a path without a dot is a single key |
| Permits.Walk | js/app.js:39 | once the `reduce` reaches `undefined` it stays `undefined` |
| Permits.GetField | js/app.js:39-42 | `getField` returns the default or a value that is neither `null` nor `''`; a non-default result is what the path reaches |
| Permits.GetFieldSingleKey | js/app.js:39-42 | for a one-key path, `getField` is the own property, or the default when it is `undefined`, `null` or `''` |
| Permits.GetFieldNested | js/app.js:39-42 | a dotted path descends one object per key |
| Permits.SplitKeyDotPath | js/app.js:39 | a key followed by a dot and a path splits into the key and the path's parts |
| Permits.BoroughCode | js/app.js:57-68 | `getBoroughCode` returns `null` or one of the codes `'1'` to `'5'` |
| Permits.CodeOfName | js/app.js:60-67 | the `switch` on the upper-cased name returns `null` or a code `'1'` to `'5'` |
| Permits.CodeOfNameSpec | js/app.js:60-67 | the `switch` gives code `c` exactly when the name is borough `c`'s upper-case name |
| Permits.BoroughCodeSpec | js/app.js:57-68 | a name has code `c` exactly when it is truthy and, upper-cased, is borough `c`'s name |
| Permits.BoroughCodeCaseInsensitive | js/app.js:59 | a name and its upper-case form have the same code |
| Permits.CodeOfNameNeedsLetter | js/app.js:60-66 | a name that does not start with a capital letter has no code |
| Permits.BoroughCodeNeedsString | js/app.js:58-59 | numbers, booleans, `null` and objects have no code |
| QueryLiteral.UnescapeEscape | js/app.js:698-699 | the quote-doubled text reads back as the original, so the literal cannot end early |
| QueryLiteral.EscapeInjective | js/app.js:380 | distinct values give distinct literals |
| QueryLiteral.EscapeLength | js/app.js:698 | escaping adds exactly one character per quote |
| QueryLiteral.EscapeUpperCommute | js/app.js:699 | escaping then upper-casing the street gives the same literal as the source's upper-case-then-escape order |
| DataFilters.ApplyFilters | js/app.js:417-433 | with no key the rows are returned unchanged; otherwise each row is kept exactly as often as it occurs if it passes every non-empty list, and dropped if not |
| DataFilters.ApplyFiltersConcat | js/app.js:421 | filtering preserves order: it distributes over concatenation |
| DataFilters.ApplyFiltersIdempotent | js/app.js:417-433 | applying the filters twice is applying them once |
| DataFilters.EmptyListIgnored | js/app.js:424 | a key whose list is empty constrains nothing |
| DataFilters.RemoveAll | js/app.js:148 | `filter(v => v !== value)` keeps exactly the other values, and the list itself when the value is absent |
| DataFilters.Checked | js/app.js:142-146 | checking a value appends it to the field's list, which keeps every value checked before and is created if absent; other fields are unchanged; no empty list appears |
| DataFilters.Unchecked | js/app.js:147-151 | unchecking removes every copy of the value and only it, keeping the other values in order, and deletes an emptied key; other fields are unchanged; no empty list appears |
| DataFilters.UncheckUndoesCheck | js/app.js:141-152 | clearing a checkbox just checked restores the filters exactly |
| DataFilters.RemoveAllAppend | js/app.js:146-148 | removing a value just appended to a list without it gives the list back |
| DataFilters.CheckWidens | js/app.js:146 | checking one more value in an active field never hides a row that was shown |
| DataFilters.UncheckLastLifts | js/app.js:148-151 | unchecking a field's only value removes that field's constraint |
| DataFilters.InsertUnique | js/app.js:122 | adding a value to a strictly ascending list keeps it strictly ascending and adds exactly that value |
| DataFilters.Domain | js/app.js:122 | the domain is strictly ascending and holds exactly the string values other than `'N/A'` and `''` that some row has |
| DataFilters.StrictlySortedUnique | js/app.js:122 | a set has only one strictly ascending listing, so the domain is the sorted distinct values |
| DataFilters.VisibleIds | js/app.js:457-458 | the header shows exactly the visible columns |
| DataFilters.VisibleIdsConcat | js/app.js:457-458 | the header keeps the configuration order: the ids of two runs of columns concatenate |
| DataFilters.FilterDomains | js/app.js:113-122 | each offered domain is the sorted domain of its key, and every filterable column has one |
| DataFilters.FilterDomainsIgnoreVisibility | js/app.js:113 | hiding or showing a column never changes the filter domains |
| DataFilters.FilterDomainsKeys | js/app.js:113 | there is one domain per filterable column, in configuration order |
| DataFilters.DomainKeysConcat | js/app.js:113 | the keys of two lists of domains concatenate |
| DataFilters.RowThrowsSpec | js/app.js:122-135 | a row makes the panel throw exactly when some filterable column's `getField` gives a number, a boolean or an object |
| DataFilters.PanelThrowsSpec | js/app.js:122-135 | `populateDataFilters` throws exactly when some row holds such a value in some filterable column |
| DataFilters.PanelOffersEveryValue | js/app.js:122-135 | when the panel is built, every value a row holds in a filterable column other than `'N/A'` is offered |
| DataFilters.NonStringValueThrows | js/app.js:122-135 | a permit whose own property in a filterable column is a number, a boolean or an object makes the panel throw |
| DataFilters.InitialColumnsShown | js/app.js:45-54 | in the initial configuration, every column that cannot be hidden is shown |
| DataFilters.InitialFilterableKeys | js/app.js:45-54 | the filterable columns are borough, work type and status |
| DataFilters.InitialColumnsFacts | js/app.js:45-54 | the filter panel offers borough, work type and status, in that order |
| Nearby.CandidateHouses | js/app.js:319-323 | the candidates are exactly the positive numbers within 2 of `n` other than `n`, in ascending order |
| Nearby.Candidates | js/app.js:320-323 | the candidate loop produces exactly those candidates |
| Nearby.Gathered | js/app.js:334-343 | the gathered records are exactly those received for the candidates: each was received for some candidate, and every record received for a candidate is gathered |
| Nearby.Accumulate | js/app.js:343 | the accumulation loop yields the candidates' records concatenated in candidate order |
| Nearby.FirstByFiling | js/app.js:345 | de-duplication keeps only records with a truthy, not yet seen filing number, each number at most once |
| Nearby.FirstInTail | js/app.js:345 | a record first with its number stays first when the head is dropped |
| Nearby.FirstInWhole | js/app.js:345 | a record first with its number after the head, numbered differently from the head, is first overall |
| Nearby.FirstByFilingKeepsFirst | js/app.js:345 | every truthy filing number that occurs is kept, by its first record |
| Nearby.FirstByFilingFirstWins | js/app.js:345 | every kept record is the first one carrying its filing number |
| Nearby.DedupeByFilingNumber | js/app.js:345-346 | the `Map` loop returns exactly the first-wins de-duplication, in insertion order |
| Nearby.NearbyResults | js/app.js:310-346 | the nearby results have distinct, truthy filing numbers, and are empty when the house number is `NaN` |
| Nearby.FailedCandidateContributesNothing | js/app.js:334-335 | a failed candidate query contributes nothing, as if it had returned an empty list |
| Nearby.ParseHundred | js/app.js:310 | `parseInt("100")` is 100 |
| Nearby.GatheredFour | js/app.js:343 | four candidates gather their four result lists in order |
| Nearby.DedupeSameNumber | js/app.js:345 | of two records with the same filing number the first is kept |
| Nearby.CandidatesForHundred | js/app.js:319-323 | house 100 has candidates 98, 99, 101 and 102 |
| Nearby.ScenarioGathered | js/app.js:343 | with records only at 99 and 101, those two are gathered in that order |
| Nearby.DuplicateAcrossNeighbours | js/app.js:319-346 | nothing at 100, one filing found at both 99 and 101: the nearby results are the single record from 99 |
| Details.IsSearchableParameter | js/app.js:531-542 | a value is a pivot exactly when it is not `'N/A'`, not `null`, not blank, its key is not one of the nine excluded keys and its length is at most 75 |
| Details.DisplayValue | js/app.js:613 | the text is `'N/A'` exactly for `undefined`, `null`, blank text and the string `'N/A'`, and `String(v)` otherwise |
| Details.PrintsAsNA | js/app.js:613 | only the string `'N/A'` prints as `N/A` |
| Details.PivotIsShownAsItself | js/app.js:613-622 | a pivot value is shown as itself, never as the placeholder |
| Details.ShownValue | js/app.js:613-619 | a value is re-rendered as a date exactly for a key containing `date` and a display text other than `'N/A'` starting `YYYY-MM-DD`; anything else is shown as its display text |
| Details.DateKeysOnly | js/app.js:615 | an ISO date is rendered as a date under `issued_date` and shown as it is under `house_no` |
| Details.PairwiseDistinctNoDuplicates | js/app.js:551-556 | a list whose elements are pairwise distinct has no element twice |
| Details.ImportantKeysDistinct | js/app.js:551-556 | the priority list names no key twice |
| Details.KeysExactlyOnce | js/app.js:557-569 | every own key is listed exactly once and nothing else is |
| Details.DetailKeysExactlyOnce | js/app.js:551-569 | the panel lists each field of a permit exactly once |
| Details.PriorityFirst | js/app.js:559-569 | no priority key is listed after a key outside the priority list |
| Details.ListKeys | js/app.js:557-569 | the two listing loops with `displayedKeys` produce exactly the priority keys present, then the other keys in property order |
| Details.OpenDetails | js/app.js:545-570 | the panel's rows are the items of the fields in panel order |
| Details.LotUrl | js/app.js:588 | the tax-lot page is on the ZoLa site |
| Details.Url | js/app.js:578-593 | every ZoLa link points into the ZoLa site |
| Details.BisQueryCarriesIdentifier | js/app.js:580-584 | a BIS link carries the identifier as one query value with no `&`, which decodes to the identifier's UTF-8 bytes |
| Details.JobLinks | js/app.js:578-581 | two job links exactly when the filing number is truthy and not `'N/A'`: the DOB NOW one, then the BIS one, both for that filing number as text; neither is ZoLa |
| Details.BinLinks | js/app.js:582-585 | two building links exactly when the BIN is truthy and not `'N/A'`: the DOB NOW one, then the BIS property profile, both for that BIN as text; neither is ZoLa |
| Details.ZolaLink | js/app.js:586-593 | one ZoLa link is always chosen |
| Details.ZolaLinkChoice | js/app.js:586-593 | the lot page exactly when the borough has a code and block and lot are usable; otherwise a search by BIN exactly when the BIN is usable |
| Details.ExternalLinks | js/app.js:578-593 | the links are job links, then building links, then exactly one ZoLa link, which comes last |
| Details.NoticeNeverShown | js/app.js:594-596 | the "no specific identifiers" notice never appears |
| Details.LotUrlExample | js/app.js:588 | Brooklyn block 123 lot 45 is `https://zola.planning.nyc.gov/lot/3/123/45` |
| Details.BrooklynLotLink | js/app.js:586-588 | that permit's ZoLa link is the lot page |
| Details.ZolaLotForBrooklyn | js/app.js:578-596 | with no filing number and no BIN the panel shows exactly that one link |
| UriComponent.HexChar | js/app.js:580 | a digit below 16 becomes an upper-case hexadecimal character |
| UriComponent.HexValue | js/app.js:580 | a hexadecimal character has a value below 16 |
| UriComponent.HexValueOfHexChar | js/app.js:580 | reading back a hexadecimal character gives its digit |
| UriComponent.Utf8Char | js/app.js:580 | a character takes one to four UTF-8 bytes, one exactly when it is ASCII, and then it is its own byte |
| UriComponent.PercentBytes | js/app.js:580 | each byte becomes three characters, `%` and two upper-case hexadecimal digits |
| UriComponent.EncodeChar | js/app.js:580 | an encoded character is unreserved characters, `%` and hexadecimal digits only |
| UriComponent.Encode | js/app.js:580-584 | `encodeURIComponent` yields only unreserved characters, `%` and hexadecimal digits, and is never shorter than its input |
| UriComponent.DecodePercentByte | js/app.js:580 | one `%XX` escape decodes to its byte |
| UriComponent.DecodePercentBytes | js/app.js:580 | a run of escapes decodes to its bytes |
| UriComponent.DecodeEncodeChar | js/app.js:580 | one encoded character decodes to its UTF-8 bytes |
| UriComponent.DecodeEncode | js/app.js:580-584 | decoding an encoded component gives the UTF-8 bytes of the original |
| UriComponent.EncodeUnreserved | js/app.js:580 | text made only of unreserved characters is passed through unchanged |
| UriComponent.EncodeHasNoDelimiters | js/app.js:580-584 | the encoded text has no `&`, `=`, `#`, `?` or space |
| Seqs.Filter | js/app.js:421 | `filter` keeps only elements that satisfy the predicate, never more than the input |
| Seqs.FilterMultiset | js/app.js:421 | each kept element occurs as often as in the input, every other element not at all |
| Seqs.FilterConcat | js/app.js:421 | `filter` distributes over concatenation |
| Seqs.FilterAllKept | js/app.js:421 | when every element satisfies the predicate, `filter` returns the input |
| Seqs.FilterSamePredicate | js/app.js:421 | predicates that agree on every element select the same subsequence |
| Seqs.FilterSnoc | js/app.js:421 | filtering a list with one more element at the end |
| Session.Popped | js/app.js:349 | the nearby search drops the last entry exactly when it is an exact-address entry that found nothing, and drops nothing else |
| Session.PoppedKeepsResults | js/app.js:349 | no entry that found permits is dropped |
| Session.DisplayErrorIsNotConnection | js/app.js:741 | V8's `value.replace is not a function` message is not read as a failed connection, so the address form falls back to the nearby search |
| Session.NoConnectionWithoutD | js/app.js:741 | a message without a `d` of either case is never read as a failed connection |
| Session.Recorded | js/app.js:350-359 | the entries a search pushes: its own first, then a copy with no permits exactly when showing its permits threw; one entry otherwise, never more than two |
| Session.Caught | js/app.js:721-738 | the address form's `catch` runs exactly when the query failed or showing its permits threw, and receives the failed query's message |
| Session.CarriedStartDate | js/app.js:382-383 | the start date is inherited exactly when the last entry is an address search with a non-empty date |
| Session.GatherNearby | js/app.js:310-346 | the candidate loop, the accumulation and the de-duplication together compute the nearby results |
| Session.Session.constructor | js/app.js:33-54 | empty history, nothing fetched, no filters, the initial columns, and the state invariant |
| Session.Session.SetColumnVisible | js/app.js:81-87 | only the column's flag changes; the filter domains stay the same (none while no permits are in view, as at js/app.js:108-110); a shown column is in the header; the invariant is kept |
| Session.Session.SetFilterValue | js/app.js:141-152 | the filters become the checked or unchecked filters; nothing else changes; no empty list is left |
| Session.Session.ClearFilters | js/app.js:173-177 | no filters remain, and the table shows every permit in view |
| Session.Session.GoToBreadcrumb | js/app.js:187-199 | the history is cut to entry `i`, which becomes current; its permits are restored and shown; the filters are cleared |
| Session.Session.SearchNearby | js/app.js:309-363 | the filters are cleared; the fetched permits are the nearby results; a trailing empty exact entry is replaced by the nearby entry, followed by an empty copy exactly when showing the results threw; the status is failed exactly then, otherwise found, none found, or not applicable exactly when the house number is `NaN` |
| Session.Session.SearchByParameter | js/app.js:366-414 | the filters are cleared; the literal reads back as `String(value)`; the inherited start date is recorded; the parameter entry is pushed, followed by an empty copy exactly when showing the results threw; the fetched permits are replaced only on success |
| Session.Session.SubmitAddress | js/app.js:673-756 | a blank field is rejected, leaving the history empty; otherwise the house and upper-cased street literals are escaped and the exact search runs with that street literal |
| Session.Session.ExactSearch | js/app.js:713-752 | found, offline, unreachable, or the nearby fallback, each exactly in the source's condition, where a failure to show the permits is caught like a failed query; the history is the address entry, the `catch`'s empty copy when something threw, and after a fallback the nearby entries in place of that empty copy |

## Left out

- Everything on screen is left out: building the DOM, CSS classes, the
  loading indicator, the breadcrumb links, the table rows and cells, the
  message texts of `showMessage` and `displayResults`, and the
  details-panel and toggle buttons. These are presentation.
- `fetch`, `response.json()` and the `Promise.all` fan-out are not modelled
  as calls. Each query's outcome is an input: the exact query's
  `FetchOutcome`, and a function from candidate house number to outcome for
  the nearby queries.
- `navigator.onLine` is a boolean parameter.
- The query URLs are not assembled. Only the quote-doubled literals they
  embed are modelled: the `$where`, `$order` and `$limit` clauses and the
  start-date clause are adapter text.
- The date sort of the nearby results (js/app.js:347) is left out. The
  nearby frame holds the de-duplicated records in first-occurrence order,
  because `new Date` parsing and `NaN` comparisons are not modelled.
- Locale date formatting is left out (js/app.js:466-482, 615-619):
  `ShownValue` only marks a value as a long date.
- The handler at js/app.js:219-306 is not modelled. It is registered inside
  a `DOMContentLoaded` listener that has already fired, so it never runs. It
  repeats js/app.js:673-756, which is modelled.
- `console.log`, `console.warn` and `console.error` diagnostics are left
  out.
- The only exception modelled is the one `populateDataFilters` raises
  from `displayResults` (js/app.js:135), which the searches' `catch` blocks
  record. Received records are never `null` or arrays, so nothing else in
  processing them throws.
- The text of that `TypeError` depends on the JavaScript engine. The address
  form takes it as an input; `DisplayError` is V8's text.
- The handlers are atomic: each runs to completion before the next event.
  In the source, the searches await their queries (js/app.js:714, 342 and
  393). A second submit, a breadcrumb click or a checkbox toggle can run in
  between. The late response then pushes onto, or overwrites, the newer
  state. The model does not capture this interleaving.
- Value: JSON arrays are not a case. A field holding an array would print
  as its elements joined by commas (`String` at js/app.js:613).
- Nearby.FirstByFiling: filing numbers are compared as values. The source's
  `Map` (js/app.js:345) compares objects by identity, so two records whose
  filing numbers are equal but distinct JSON objects would both be kept
  there and only one here. Strings, numbers and booleans, the values the
  dataset holds, are compared alike. The same holds for
  `Nearby.DedupeByFilingNumber`.
- Lookup: records are assumed to have distinct keys, as `JSON.parse`
  produces. For a repeated key, `Lookup` takes the first property, where
  `JSON.parse` keeps the last.
- JsString.Upper: case mapping covers ASCII letters only.
- JsString.Lower: case mapping covers ASCII letters only.
- JsString.Less: compares code points, while JavaScript's default sort
  compares UTF-16 code units. The two orders differ only for characters
  outside the Basic Multilingual Plane.
- Values are modelled with these limits:
  - Numbers are integers, so fractions, exponents, `NaN` and `Infinity` in
    records are not modelled.
  - `parseInt` returns an exact integer; JavaScript rounds to the nearest
    double for very long digit strings.
  - Strings hold Unicode scalar values, so lone surrogates cannot occur.
- DataFilters.Domain: keeps string values only. A number, boolean or
  object value makes `value.replace` at js/app.js:135 throw while the panel
  is being built; `PanelThrows` models that throw, and then no domain is
  shown.
- `activeDataFilters` is keyed by field name, as the source's object is.
  Array `includes` is modelled as sequence membership on strings.
- The filter lists hold the checked values as strings. Each filterable
  value is a string, because of the rule for `Domain` above.
- `JSON` objects hold only their own properties. Prototype properties
  (`k in o` on inherited keys) are not modelled.
- The `isNaN(date.getTime())` and `"Invalid Date"` branches of date
  formatting are left out with the formatting itself.
