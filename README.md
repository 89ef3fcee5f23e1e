# China license-plate map: name resolution, map-data fallback, series data

This project models, in Dafny, the parts of `app.js` that have logic of their own.
The page draws a map of China whose regions show their license-plate prefix.

- **Region-name resolution.** The tooltip formatter and the click handler both look a
  region's name up in the plate table `licensePlateData`. On a miss they remove one
  administrative suffix (市, 省, 自治区, 特别行政区, 自治州, 地区, 盟) with a regular-expression
  replace and try again. The click handler then opens a detail view (the modal) with the
  key that hit and its plate.
- **Map-data fallback chain.** `loadMapData` tries a list of CDN URLs in order. It returns
  the first document that loads. If every URL fails, it throws an error that quotes the
  last failure's message.
- **Series data.** A loop turns every table entry into a `{name, value, plate}` record for
  the chart.

Modules, one per file:

- `wrappers.dfy`: `Option`.
- `decimal.dfy`: decimal spelling of a status code (`${response.status}`), with its inverse.
- `suffix_strip.dfy`: the suffix replace. It is defined twice and the two are proved equal:
  - `ReplaceFrom` follows the regex engine's scan: leftmost position first, alternatives in
    pattern order, the `$` anchor, and the `g` flag's resumed search.
  - `StripFirstOf` is stated on the suffix list alone.
- `plate_lookup.dfy`: the lookup, resolution, the tooltip decision and the click handler.
- `map_loading.dfy`: how one fetch is classified, the fallback loop, and its reference
  outcome.
- `series_data.dfy`: the `mapData` loop.

The plate table is an abstract `map<string, string>`, because `licensePlateData` is defined
outside `app.js`. The network is a sequence of replies: the i-th element is what fetching the
i-th URL gives.

Points where the behaviour is easy to misread:

- The code accepts any parsed JSON document as a success. It never checks for a `features`
  array, so a document without one is still returned.
- A JSON `null` body does fail. The feature count at app.js:48 reads `.features` on `null`
  inside the `try`, and that throws.
- An empty URL list would make the final `throw` read `message` on a `null` `lastError`.
  The model keeps that as its own failure and adds no precondition.
- `app.js` has no per-region batched fetching, retry counting or inter-batch delay, so none
  is modelled.

## Model

| member | source | states |
|---|---|---|
| `SuffixStrip.SuffixesNonEmpty` | app.js:81 | none of the seven pattern alternatives is empty |
| `SuffixStrip.SuffixesAreSuffixFree` | app.js:81 | none of the seven suffixes ends another one (so they are also pairwise distinct) |
| `SuffixStrip.SuffixesAreProper` | app.js:81 | the seven suffixes are non-empty and suffix-free, which the stripping lemmas require |
| `SuffixStrip.AtMostOneSuffixMatches` | app.js:81 | in a suffix-free list, at most one suffix can end a given name |
| `SuffixStrip.StripFirstOf` | app.js:81 | the result is a prefix of the name; it equals the name exactly when no listed suffix ends it; otherwise it is the name with one listed suffix that ends it cut off |
| `SuffixStrip.StripRemovesMatched` | app.js:81 | in a proper list, the removed suffix is whichever one ends the name, whatever the list order |
| `SuffixStrip.AlternativeAt` | app.js:81 | the alternative found at a position matches there and reaches the end anchor, and no earlier alternative does; when none is found, no alternative does |
| `SuffixStrip.ReplaceFromIsStrip` | app.js:81 | the regex engine's scan-and-replace from any position up to the cut gives exactly the stripped name's remaining characters |
| `SuffixStrip.SimpleName` | app.js:81 | the global anchored replace of the seven suffixes yields the same string as stripping by the suffix list |
| `SuffixStrip.SimpleNameShape` | app.js:167 | the simple name is a prefix of the name; it is the name itself exactly when no suffix ends the name; otherwise exactly one suffix has been cut off the end |
| `SuffixStrip.SimpleNameRemovesMatched` | app.js:167 | whichever of the seven suffixes ends the name is the one removed |
| `SuffixStrip.SimpleNameStripsOnce` | app.js:81 | a doubled suffix such as "X市市" loses only one copy |
| `PlateLookup.EmptyPlateIsMiss` | app.js:77-80 | a key whose plate is the empty string resolves exactly as if it were absent, since `if (!plate)` treats the empty string as missing |
| `PlateLookup.Resolve` | app.js:77-83 | a resolution's plate is the table's non-empty value under the resolved name; that name is a prefix of the given name; it differs from the given name only when the direct lookup missed, and then it is the simple name |
| `PlateLookup.ResolveExactFirst` | app.js:77-80 | when the name itself has a plate, that entry is used and the simple name is never consulted |
| `PlateLookup.ResolveMissIff` | app.js:163-168 | resolution fails if and only if both the name and its simple name miss |
| `PlateLookup.ResolvedNameDropsOneSuffix` | app.js:166-171 | when the resolved name differs from the clicked name, it is that name with exactly one listed suffix removed from the end |
| `PlateLookup.ResolveWithSuffix` | app.js:79-82 | a suffixed name that misses resolves to the entry of the name without the suffix, with the same plate as resolving the bare name |
| `PlateLookup.ResolveNoSuffixMiss` | app.js:80-83 | a name that misses and ends with none of the suffixes does not resolve |
| `PlateLookup.BeijingExample` | app.js:79-82 | with a plate for "北京" and no entry for "北京市", the name "北京市" resolves to ("北京", that plate) |
| `PlateLookup.TooltipFor` | app.js:75-93 | the tooltip always shows the original name; it shows a plate if and only if resolution succeeds, and then the resolved plate |
| `PlateLookup.OnClick` | app.js:160-179 | a modal opens if and only if the click is on the series and resolution succeeds; it carries the resolved name (the simple name only when that lookup is what hit) and the plate, which is the tooltip's plate |
| `Decimal.DecimalString` | app.js:43 | a status renders as a non-empty string of digits with no leading zero |
| `Decimal.DecimalRoundTrip` | app.js:43 | reading the rendered digits back gives the original number |
| `Decimal.DecimalStringInjective` | app.js:43 | different numbers render differently |
| `MapLoading.HttpMessageIdentifiesStatus` | app.js:43 | two HTTP-error messages are equal only for the same status |
| `MapLoading.Classify` | app.js:39-49 | an attempt loads if and only if the response is ok and its body parses to a non-null document, and then yields that document; a response that is not ok fails with its status; a rejected fetch fails with its message |
| `MapLoading.NotOkIsFailure` | app.js:42-44 | a response that is not ok fails with "HTTP error! status: N" even when its body would parse |
| `MapLoading.FirstLoaded` | app.js:36-49 | the index it returns is the first successful attempt (every earlier attempt failed), or the number of attempts when none succeeds |
| `MapLoading.LoadMapData` | app.js:33-57 | the loop's result is the reference outcome of the chain; the URLs fetched are exactly the list's first k, in list order, where k is one more than the index of the first success, or the whole list |
| `MapLoading.FirstSuccessWins` | app.js:36-49 | when attempt k is the first success, the result is its document and exactly k+1 URLs are fetched |
| `MapLoading.AllFailedReportsLastError` | app.js:50-56 | when every one of a non-empty list of URLs fails, all are fetched and the thrown message is the fixed prefix followed by the last attempt's error message |
| `MapLoading.ChainFailsIffAllFail` | app.js:36-56 | the chain fails if and only if every attempt fails |
| `SeriesData.BuildMapData` | app.js:17-24 | one record per table entry: as many records as entries, each carrying its entry's plate, every entry present, no name twice |

## Left out

- The chart library is left out: `echarts.init`, `registerMap`, `setOption`, `showLoading`/`hideLoading` and the option object. These are calls into a library whose code is not part of this model.
- The real `fetch` and `response.json()` are left out. The model receives what they return, one reply per URL; it does not model network I/O, timing or promise scheduling.
- The `value` field of each `mapData` record (`Math.random() * 100 + 50`) is left out: it is random and floating-point.
- SeriesData.BuildMapData: does not fix the order of the records. A JavaScript `for…in` loop follows the object's key order (integer-like keys first, then insertion order), and a Dafny map has no order.
- The DOM work is left out: the error overlay, the markup and styles of `showModal`, the close button, the Escape-key listener, the close animation's `setTimeout`, and the resize listener.
- The tooltip's HTML text is left out. The model keeps only which name and which plate the tooltip shows.
- Console logging is left out.
- Inherited keys are left out: a JavaScript object also answers keys it inherits, such as `"constructor"`, with a truthy function. The model treats the table as exactly its own entries.
- Strings are sequences of Unicode scalar values, not UTF-16 code units. This does not change any match, because all seven suffix characters are single code units.
- The exact text of a JavaScript `TypeError` depends on the engine. `NullFeaturesMessage` and `NullLastErrorMessage` use V8's wording.
