# Bike assistant: station ranking, selection and replies

A model of the deterministic core of a voice-assistant webhook that sends
a user to a nearby city-bike station in Gothenburg. Given the stations the
bike-share provider returns, the webhook does four things:

- it sorts them in place by distance from the user;
- it keeps the stations worth suggesting: open, and with at least three
  bikes, or at least three free stands when the user asked about `stands`;
- it presents the first three of those;
- it speaks a sentence about the first one and, on a screen, shows a card
  with one line per presented station.

Modules, one per part of `firebase/functions/index.js`:

- `Stations` (stations.dfy): the station record, and the `isOpen` / `hasBikes` /
  `hasStands` / `isSuggested` rule with its constants (`"OPEN"`, 3, `"stands"`).
- `Ranking` (ranking.dfy): `stationsSortedByDistance`. This is an in-place
  sort of an `array<Station>` that returns the same array. The haversine
  distance is a parameter of type `(lat1, lon1, lat2, lon2) -> real`. The
  sort is an insertion sort, and its postcondition is what the source relies
  on: a permutation that is non-decreasing in distance. It does not prove
  any particular order among equidistant stations.
- `Selection` (selection.dfy): the `filter(isSuggested).slice(0, 3)` of
  `finishWithStations` and its top station. `SuggestedPositions` gives an
  independent account of the filter: the increasing indices of the suggested
  stations. The lemmas tie the filter, the slice and the top station to those
  indices and to the ranking.
- `Decimal` (decimal.dfy): how a template literal renders an integer count,
  with its inverse on digit strings and its injectivity.
- `Formatting` (formatting.dfy): `stationSpoken`, `stationText` and the card
  body `map(...).join("  \n")`. The lemmas show what each text tells its
  reader: a sentence or line determines the station facts it mentions. They
  also give the body's inductive structure.
- `Fulfillment` (fulfillment.dfy): `finishWithStations` as written, the
  `.then(...).catch(...)` chain of the request handlers, and a corrected
  version for the case the source misses (see Findings).

Things that are function parameters instead of code:

- the distance function;
- the result of the HTTP request (`Result<seq<Station>, FetchError>`);
- whether the device has a screen (`screen: bool`).

The request type `type` is a string. A missing parameter behaves like any
string other than `"stands"`.

On an empty selection, `finishWithStations` runs inside the `.then` of the
promise chain (index.js:111 and 134), so the `TypeError` from reading the
fields of an undefined top station reaches the `.catch` (index.js:112 and
135), which adds the "service unavailable" apology. The model follows the
code.

## Model

| member | source | states |
|---|---|---|
| `Stations.IsOpen` | firebase/functions/index.js:49 | isOpen: the status is exactly the string "OPEN" (its consequences are stated in `Stations.SuggestedIff` and `Stations.ClosedNeverSuggested`) |
| `Stations.HasBikes` | firebase/functions/index.js:50 | hasBikes: at least 3 available bikes, inclusive (see `Stations.SuggestedThreshold`) |
| `Stations.HasStands` | firebase/functions/index.js:51 | hasStands: at least 3 available bike stands, inclusive (see `Stations.SuggestedThreshold`) |
| `Stations.IsSuggested` | firebase/functions/index.js:53-55 | isSuggested: hasStands for the type "stands", hasBikes otherwise, and isOpen (characterised in `Stations.SuggestedIff`) |
| `Ranking.DistanceFrom` | firebase/functions/index.js:32-33 | the key that the sort comparator computes: the distance function applied to the origin's latitude and longitude and the station's position.lat and position.lng |
| `Ranking.SortedByDistance` | firebase/functions/index.js:31-35 | the order the comparator `lhsDist - rhsDist` asks for: every station is no farther from the origin than any later one |
| `Selection.Select` | firebase/functions/index.js:74 | filter by isSuggested, then slice(0, 3): at most three stations, every one suggested, the start of the filtered list, and the whole filtered list when fewer than three are suggested |
| `Formatting.StationSpoken` | firebase/functions/index.js:57-62 | stationSpoken: the sentence opens with "There are " and closes with the address and a full stop (`Formatting.SpokenShape` gives both templates, `Formatting.SpokenDeterminesCountAndAddress` shows the sentence names the count and the address) |
| `Formatting.StationText` | firebase/functions/index.js:64-71 | stationText: the line holds a line break exactly when the address is included, and then it opens with the bold marker "**" (`Formatting.CountsLineDeterminesCounts` and `Formatting.AddressedLineDeterminesStation` show what it names) |
| `Formatting.Join` | firebase/functions/index.js:83 | Array.prototype.join: a non-empty list's joined text starts with its first part and ends with its last (`Formatting.JoinAppend` gives the separator between neighbours) |
| `Formatting.CardBody` | firebase/functions/index.js:83 | the card text starts with the top station's counts line, without address, and ends with the last selected station's line (`Formatting.CardBodyOfOne` and `Formatting.CardBodyAppend` determine it entirely) |
| `Ranking.StationsSortedByDistance` | firebase/functions/index.js:30-37 | the returned array is the argument array; its new contents are a permutation of the old contents (multiset equality); the distances from the origin to the stations are non-decreasing along the array |
| `Ranking.InsertLast` | firebase/functions/index.js:31-35 | one pass of the sort: if the first i stations are in distance order, afterwards the first i+1 are, the array is a permutation of before, and stations past i are untouched |
| `Stations.SuggestedIff` | firebase/functions/index.js:46-55 | a station is suggested iff its status is exactly "OPEN" and its relevant count is at least 3; the relevant count is the stand count for "stands" and the bike count for every other type string |
| `Stations.SuggestedThreshold` | firebase/functions/index.js:47-54 | for an open station, a relevant count of 2 is not suggested and a count of exactly 3 is |
| `Stations.ClosedNeverSuggested` | firebase/functions/index.js:49-54 | a station whose status is not "OPEN" is never suggested, whatever its counts |
| `Stations.SuggestedIgnoresOtherCount` | firebase/functions/index.js:50-54 | two stations with the same status and the same relevant count get the same decision; the other count plays no part |
| `Selection.Suggested` | firebase/functions/index.js:74 | the filter's result is no longer than its input, holds only suggested stations, and is a sub-multiset of the input |
| `Selection.SuggestedPositions` | firebase/functions/index.js:74 | the reference account of the filter: strictly increasing indices, each of a suggested station, and containing every index of a suggested station |
| `Selection.FilterKeepsSuggestedInOrder` | firebase/functions/index.js:74 | the filter's result is the input picked at the suggested indices in increasing order, and an index is among those iff its station is suggested, so the filter keeps exactly the suggested stations without reordering them |
| `Selection.Take` | firebase/functions/index.js:74 | slice(0, n) has length min(n, length) and is a prefix of its input |
| `Selection.SelectionShape` | firebase/functions/index.js:74 | the selection has length min(3, number of suggested stations), holds only suggested stations, and is a prefix of the filtered list |
| `Selection.SelectionPositions` | firebase/functions/index.js:74 | the k-th selected station is the station at the k-th suggested index of the ranked input, so the selection is an order-preserving prefix of the suggested subsequence |
| `Selection.SelectionNonEmptyIff` | firebase/functions/index.js:74-76 | the selection is non-empty iff some input station is suggested |
| `Selection.TopStation` | firebase/functions/index.js:76 | element 0 of the selection, defined only when the selection is non-empty; it is an input station and suggested |
| `Selection.TopIsFirstSuggested` | firebase/functions/index.js:74-76 | the top station is the station at the first suggested index, and no earlier station is suggested |
| `Selection.SelectionSorted` | firebase/functions/index.js:74 | when the input is ranked by distance, so is the selection |
| `Selection.SelectionIsNearest` | firebase/functions/index.js:74 | when the input is ranked, no suggested station left out by the slice is nearer than any selected station |
| `Selection.TopIsNearest` | firebase/functions/index.js:76 | when the input is ranked and something is selected, the top station is no farther than any suggested station |
| `Selection.ExampleSelection` | firebase/functions/index.js:53-55 | of A (open, 5 bikes, 1 stand) and B (open, 0 bikes, 10 stands), a bikes request selects A alone and a stands request B alone |
| `Decimal.NatToString` | firebase/functions/index.js:60 | the rendering of a non-negative count is non-empty, all decimal digits, and has no leading zero unless it is "0" |
| `Decimal.DigitsValueOfNatToString` | firebase/functions/index.js:60 | reading the digits back gives the count: the round trip of the rendering |
| `Decimal.IntToString` | firebase/functions/index.js:60-61 | a rendered integer is non-empty, made of digits and '-', and starts with '-' iff the integer is negative |
| `Decimal.IntToStringInjective` | firebase/functions/index.js:60-61 | different integers render as different strings |
| `Decimal.NumeralPrefixUnique` | firebase/functions/index.js:60-61 | a rendered integer followed by a non-numeral character splits off uniquely |
| `Formatting.SpokenShape` | firebase/functions/index.js:57-62 | the sentence is "There are " + relevant count + " available bike stands at " (for "stands") or " available bikes at " (otherwise) + address + "." |
| `Formatting.SpokenDeterminesCountAndAddress` | firebase/functions/index.js:57-62 | two stations with the same sentence for a request have the same address and the same relevant count: the sentence names both |
| `Formatting.TemplateUnique` | firebase/functions/index.js:57-71 | a text made of fixed parts, a rendered integer and a variable part determines the integer and the variable part |
| `Formatting.ExampleStandsSentence` | firebase/functions/index.js:60 | for B with ten free stands the stands sentence is "There are 10 available bike stands at B." |
| `Formatting.CountsLineDeterminesCounts` | firebase/functions/index.js:69-70 | a counts line ("Stands: N  (bikes: M)" or "Bikes: M  (stands: N)") determines both counts |
| `Formatting.AddressedLineDeterminesStation` | firebase/functions/index.js:66-70 | a line with the bold address prefix determines the address and both counts, whatever characters the address holds |
| `Formatting.CardLines` | firebase/functions/index.js:83 | the map gives one line per selected station |
| `Formatting.CardBodyOfOne` | firebase/functions/index.js:83 | the body for a single station is its counts line without its address (element 0 omits it) |
| `Formatting.CardBodyAppend` | firebase/functions/index.js:83 | a further station adds "  \n" and its line with the address; with CardBodyOfOne this determines every body |
| `Formatting.JoinAppend` | firebase/functions/index.js:83 | joining one more part appends the separator and that part |
| `Fulfillment.FinishWithStations` | firebase/functions/index.js:73-89 | fails exactly when no station is suggested (the top station is undefined); otherwise speaks the top station's sentence and shows a card iff there is a screen, titled with the top station's address and holding the card body of the selection |
| `Fulfillment.SpokenIsNoApology` | firebase/functions/index.js:57-62 | no station sentence equals either apology message |
| `Fulfillment.ReplyAfterFetch` | firebase/functions/index.js:110-112 | the reply is the "service unavailable" apology, with no card, iff the station request failed or nothing in the answer is suggested; otherwise it is exactly the reply of `finishWithStations` on the answer |
| `Fulfillment.EmptySelectionReportedAsUnavailable` | firebase/functions/index.js:76-77 | as written, an answer with nothing suggested gets exactly the reply of a failed request |
| `Fulfillment.ClosedStationReportedAsUnavailable` | firebase/functions/index.js:76-77 | as written, an answer holding one closed station is told "the service seem unavailable" |
| `Fulfillment.FinishCorrected` | firebase/functions/index.js:73-77 | the "couldn't find any station" reply exactly when nothing is suggested, and otherwise the same reply as the source |
| `Fulfillment.ReplyAfterFetchCorrected` | firebase/functions/index.js:107-112 | with the correction, "service unavailable" is said iff the request failed, and then with no card; "couldn't find any station" is said iff the answer had nothing to suggest; every successful answer gets `FinishCorrected`'s reply, which is the source's reply whenever something is suggested |
| `Fulfillment.ExampleReplies` | firebase/functions/index.js:73-77 | for A and B, a bikes request is answered with A's sentence and a stands request with "There are 10 available bike stands at B." |
| `Fulfillment.RankAndFinish` | firebase/functions/index.js:43 | ranking in place and then finishing gives the finish of the ranked array; it fails iff no station of the original array is suggested; otherwise it speaks of a station no farther than any suggested one |

## Left out

- `distance` and `deg2rad` (index.js:18-28): haversine on floating point. The distance is a parameter, so no property of it (symmetry, zero on equal points) is modelled.
- `getStationsForCoords` (index.js:39-44): the HTTP GET, the configured URL and API key, the fixed `contract` value and promise chaining are I/O. The outcome of the request is a parameter of `ReplyAfterFetch`, and `RankAndFinish` covers the sort applied to the answer.
- The intent handlers `place`, `place.done`, `near`, `near.done` and the hosting export (index.js:91-141) are framework glue. The `.then(...).catch(...)` chain is in `ReplyAfterFetch`. The missing-coordinates branch, the place and permission prompts, and `conv.ask` / `conv.close` / `conv.add` themselves are not modelled beyond the `Reply` value.
- The Directions button and its map URL (index.js:84-87): they format floating-point coordinates, so `Card` holds only the title and the text.
- `console.log` and the `process.env.DEBUG` assignment (index.js:16, 75 and the handlers): logging and process state.
- The order of equidistant stations: the engine's `Array.prototype.sort` decides it. `StationsSortedByDistance` promises only a permutation in non-decreasing distance.
- Ranking.StationsSortedByDistance: a comparator that yields NaN is not modelled, because distances are exact reals.
- Decimal.IntToString: counts are integers. A JavaScript number's exponent notation (at 1e21 and beyond) and non-integer counts are not modelled.
- Malformed provider answers are not modelled. Only some of them reject the chain: a body that is not an array, or a record without `position` once the sort comparator reads it. Others do not: a missing count makes the `>= 3` test false and a missing status fails the `=== 'OPEN'` test (index.js:49-51), so the station is simply not suggested; and a lone suggested record without `position` (the comparator never runs on one element) gets its sentence closed (index.js:77) before, on a screen, the map link throws (index.js:86), so the `.catch` adds the apology after the sentence.

## Findings

| source | as written | input that shows it | evidently intended | confidence | as-written member | corrected member |
|---|---|---|---|---|---|---|
| firebase/functions/index.js:76-77 | the top station is element 0 of the selection with no check that it exists; with an empty selection, `stationSpoken` reads fields of `undefined` and throws, and the handler's `.catch` then says the service is unavailable | a successful answer whose stations are all closed, e.g. one station with status "CLOSED" | an answer with nothing to suggest is told that no station was found, and "service unavailable" is kept for failed requests | not executed; high (the throw follows from destructuring `undefined`) | `Fulfillment.EmptySelectionReportedAsUnavailable` | `Fulfillment.ReplyAfterFetchCorrected` |
