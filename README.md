# UAC partnership portal: filtering, statistics and region totals

This project models the logic of the UAC portal, a mobile app that lists a
university's cooperation agreements and partner countries. It covers three
parts of the app:

- **The application context** (`UACProvider`). It holds the agreements and
  partners, which it never replaces, the free-text search query and four
  lists of selected filter values: types, domains, countries and statuses.
  - `filteredAgreements` is the derived list. A record is kept when the query
    matches and all four categories admit it.
  - `updateFilter` toggles one value in one list.
  - `clearFilters` resets the selection and the query.
  - `setSearchQuery` replaces the query.
  - `getAgreementById` returns the first agreement with a given id.
- **The statistics screen.**
  - The count-by-key `reduce`s over type, status and domain. A JavaScript
    object is the accumulator; it is modelled as keys in insertion order plus
    a map from each key to its count.
  - The two pie charts and the bar chart built from those counters.
  - The palette and status colours.
  - The "active agreements" card.
  - The top-five partners, after an in-place sort of the shared partner
    array.
  - The per-year counts of the timeline.
- **The map screen.** It has a fixed table of three regions, and
  `getRegionStats` counts the partners located in a region's countries and
  adds up their agreements.

File layout:

- `seqs.dfy` holds the generic sequence operations: `Array.filter`,
  `Array.find`, subsequences and duplicate-free lists.
- `text.dfy` holds `toLowerCase`, `includes` and `startsWith`.
- `types.dfy` holds the record types.
- `uac_context.dfy` holds the context: the filter predicate, the toggle and
  the provider class.
- `statistics.dfy` holds the statistics screen.
- `map_screen.dfy` holds the map screen.

The provider is a class. Its query and selection are fields that its methods
replace, and each method states the whole new state. The count-by-key
`reduce` is a loop that updates the accumulator. The partner sort works in
place on an array. Everything else is pure and is modelled as functions with
lemmas about them.

## Model

| member | source | states |
|---|---|---|
| `Seqs.Filter` | contexts/UACContext.tsx:53 | `Array.filter`: the result is an order-preserving subsequence of the input. An element is in the result iff it is in the input and satisfies the predicate. A kept value keeps its multiplicity; a rejected value never appears. |
| `Seqs.Find` | contexts/UACContext.tsx:76 | `Array.find` returns nothing iff no element satisfies the predicate. Otherwise it returns an element that satisfies it, at a position where no earlier element does. |
| `Seqs.FilterPermutation` | app/map.tsx:29 | Filtering two permutations of each other gives permutations of each other. |
| `Text.Includes` | contexts/UACContext.tsx:55-57 | `includes` is true iff the query occurs as a contiguous slice at some position of the string. |
| `Text.StartsWith` | app/statistics.tsx:293 | `startsWith` is true iff the prefix occurs at position 0. |
| `Text.Lower` | contexts/UACContext.tsx:55-57 | `toLowerCase` returns a string of the same length with no capital ASCII letter left, differing from its input only in the case of letters. |
| `Text.LowerEqual` | contexts/UACContext.tsx:55-57 | Two strings lower-case to the same string exactly when they differ only in the case of ASCII letters. |
| `Text.LowerIdempotent` | contexts/UACContext.tsx:55 | Lower-casing twice is the same as lower-casing once. |
| `Types.LabelsInjective` | constants/types.ts:5-11 | Distinct types have distinct labels, and distinct statuses have distinct labels. |
| `UACContext.Filters.With` | contexts/UACContext.tsx:90-91 | `{...prev, [c]: l}` sets category `c` to `l` and leaves the other three categories unchanged. |
| `UACContext.MatchesSearch` | contexts/UACContext.tsx:54-57 | `matchesSearch` holds iff the query is empty or the lower-cased query occurs at some position of the lower-cased title, country or domain. |
| `UACContext.Allows` | contexts/UACContext.tsx:59-69 | Each category test (an empty list, or `includes`) holds iff the list is empty or some position of it holds the record's value. |
| `UACContext.Matches` | contexts/UACContext.tsx:71 | The combined test holds iff the text criterion holds and every one of the four categories admits the record's value for that category. |
| `UACContext.FilterAgreements` | contexts/UACContext.tsx:52-73 | `filteredAgreements` is an order-preserving subsequence of the agreements. A record is in it iff it is an agreement meeting all five criteria. It keeps every matching record with its multiplicity and nothing else. |
| `UACContext.FilterEmptySelection` | contexts/UACContext.tsx:52-73 | With an empty query and four empty lists, the result is the agreement list itself, in the same order. |
| `UACContext.FilterCriteria` | contexts/UACContext.tsx:54-71 | A record is kept iff it is present and all five criteria hold. The text criterion holds when the query is empty or the lower-cased query occurs in the lower-cased title, country or domain. Each category criterion holds when the list is empty or contains the field. |
| `UACContext.SearchCaseInsensitive` | contexts/UACContext.tsx:54-57 | Two queries that differ only in the case of ASCII letters give the same `filteredAgreements`. |
| `UACContext.FilterNarrower` | contexts/UACContext.tsx:53-72 | If every record admitted by one selection is admitted by another, the first result is a subsequence of the second. |
| `UACContext.SelectValueEffect` | contexts/UACContext.tsx:59-69 | Adding a value to an empty list never enlarges the result. Adding a value to a non-empty list never shrinks it. |
| `UACContext.DeselectValueEffect` | contexts/UACContext.tsx:59-69 | Removing a value while others remain never enlarges the result. Removing the last value never shrinks it. |
| `UACContext.SecondTypeWidens` | contexts/UACContext.tsx:59-60 | A concrete case: with "Convention" selected, a convention and a framework agreement give one record. Adding "Accord cadre" gives both. |
| `UACContext.Remove` | contexts/UACContext.tsx:93 | `filter(item => item !== value)` gives a subsequence without `value` that keeps every other value with its multiplicity. |
| `UACContext.Toggle` | contexts/UACContext.tsx:92-94 | `x` is in the toggled list iff `x` differs from `v` and was in the list, or `x` is `v` and was not. An absent `v` is appended at the end. A present `v` has every occurrence removed. |
| `UACContext.UpdateFilters` | contexts/UACContext.tsx:89-95 | The toggled category becomes `Toggle` of its old list. The other three are unchanged. |
| `UACContext.ToggleNoDup` | contexts/UACContext.tsx:92-94 | A duplicate-free list stays duplicate-free after a toggle. |
| `UACContext.ToggleTwice` | contexts/UACContext.tsx:92-94 | Toggling an absent value twice restores the list exactly. Toggling a present value twice gives the list without it, with it appended at the end. Either way the members are the same, and for a duplicate-free list so are the multiplicities. |
| `UACContext.FilterDependsOnMembers` | contexts/UACContext.tsx:59-69 | Two selections whose lists have the same members keep the same records. Order and repetition do not matter. |
| `UACContext.ToggleTwiceSameResult` | contexts/UACContext.tsx:89-95 | Toggling the same value twice never changes `filteredAgreements`. |
| `UACContext.UpdateFiltersValid` | contexts/UACContext.tsx:89-95 | `updateFilter` keeps every list duplicate-free. |
| `UACContext.UACProvider.constructor` | contexts/UACContext.tsx:35-50 | The initial state: the given agreements, partners and statistics, an empty query and four empty lists. In that state every agreement is shown. |
| `UACContext.UACProvider.GetAgreementById` | contexts/UACContext.tsx:75-77 | `getAgreementById` returns nothing iff no agreement has the id. Otherwise it returns an agreement with that id, and no earlier agreement has it. |
| `UACContext.UACProvider.SetSearchQuery` | contexts/UACContext.tsx:39 | `setSearchQuery` replaces the query and leaves the selection unchanged. |
| `UACContext.UACProvider.UpdateFilter` | contexts/UACContext.tsx:89-96 | `updateFilter` toggles the value in its category and keeps the other categories and the query. It keeps the lists duplicate-free. |
| `UACContext.UACProvider.ClearFilters` | contexts/UACContext.tsx:79-87 | `clearFilters` empties all four lists and the query, after which every agreement is shown in order. |
| `Statistics.CountStep` | app/statistics.tsx:33 | One step of the callback, which increments `acc[k]` starting from 0, turns the counter of a key sequence into the counter of that sequence extended by `k`. |
| `Statistics.Step` | app/statistics.tsx:33 | The callback adds one to the count of its key and leaves every other count. The old keys stay as a prefix, and at most one key is added. |
| `Statistics.Tally.Get` | app/statistics.tsx:33 | The `acc[k]` read with 0 as default: the stored count, 0 for an absent key. It has no contract of its own. `Statistics.CountBy` gives it its meaning: the number of agreements with that key. |
| `Statistics.Tally.Values` | app/statistics.tsx:69 | `Object.values`, in key order. It has no contract of its own. `Statistics.BarData` states that value `i` is the count of key `i`. |
| `Statistics.CountBy` | app/statistics.tsx:32-45 | The counter has one key per distinct value present, with no repeats and in first-occurrence order. Each value is the number of agreements carrying that key, and the values add up to the number of agreements. |
| `Statistics.CountIsFilterLength` | app/statistics.tsx:32-45 | A key's count is the length of the list of agreements with that key. |
| `Statistics.Slices` | app/statistics.tsx:48-63 | `Object.entries(acc).map(...)`: one slice per counter key. It has no contract of its own. `Statistics.SliceNames`, `Statistics.SlicePopulations` and `Statistics.SliceOrder` state what the slices hold. |
| `Statistics.SliceNames` | app/statistics.tsx:48-63 | The chart entries name each counted key exactly once. |
| `Statistics.SlicePopulations` | app/statistics.tsx:48-63 | Each chart entry carries its key's count and the colour its rule gives for its position and name. |
| `Statistics.SliceOrder` | app/statistics.tsx:48-63 | The slices come in the order in which their keys first occur among the agreements. |
| `Statistics.Take` | app/statistics.tsx:67-69 | `slice(0, n)` keeps the first `n` elements, or all of them when there are fewer. |
| `Statistics.ThreeKeys` | app/statistics.tsx:32-40 | A counter of keys drawn from three values has at most three keys. |
| `Statistics.TypePieChart` | app/statistics.tsx:48-54 | The type chart has at most three distinct slices, one per type present, in the order in which the types first occur. Each slice has its count and the palette colour of its position, so the first type listed gets the first colour. |
| `Statistics.StatusPieChart` | app/statistics.tsx:57-63 | The status chart has at most three distinct slices, one per status present, in the order in which the statuses first occur. Each slice has its count and its status colour, which is never the fallback brown. |
| `Statistics.BarData` | app/statistics.tsx:67-69 | The first six labels and first six values have equal length, at most 6. `data[i]` is the count of `labels[i]`. |
| `Statistics.BarOrder` | app/statistics.tsx:67 | The labels have no repeats and keep first-occurrence order. A domain is left out only when six domains occurring before it fill the chart. |
| `Statistics.DomainBarChart` | app/statistics.tsx:66-72 | `barChartData`: labels and data of equal length at most 6, with `data[i]` the count of `labels[i]`, first-occurrence order, and a domain dropped only behind six earlier ones. |
| `Statistics.ColorByIndex` | app/statistics.tsx:74-84 | `getColorByIndex` always returns a palette colour. |
| `Statistics.ColorByIndexPeriodic` | app/statistics.tsx:74-84 | The colour repeats with period 6, equals `colors[i]` for `i < 6`, and any six consecutive indices get six different colours. |
| `Statistics.StatusColor` | app/statistics.tsx:86-97 | `getStatusColor` returns a palette colour. It is brown exactly when the string is none of the three status labels. |
| `Statistics.StatusColors` | app/statistics.tsx:86-97 | "En cours" gets green, "Expiré" red and "Reconduction tacite" orange. |
| `Statistics.ActiveAgreements` | app/statistics.tsx:162 | The active card shows the number of agreements with status "En cours". It shows 0 exactly when no agreement is active. |
| `Statistics.NoneActive` | app/statistics.tsx:162 | No agreement is counted under "En cours" iff none has the Active status. |
| `Statistics.SortByCount` | app/statistics.tsx:254-255 | The sort leaves the array in non-increasing `agreementsCount` order, as a permutation of its old contents. |
| `Statistics.Sink` | app/statistics.tsx:255 | One insertion pass extends the sorted prefix by one entry and permutes the array. |
| `Statistics.TopPartners` | app/statistics.tsx:254-256 | The shared array is sorted in place (a permutation). The list shown is its first `min(5, n)` entries, in non-increasing count order, none below any partner left out. |
| `Statistics.YearCount` | app/statistics.tsx:293 | The year count is at most the number of agreements. It is 0 exactly when no start date begins with that year. |
| `Statistics.TimelineBounded` | app/statistics.tsx:288-314 | No agreement starts in two of 2024, 2023 and 2022, so the three counts add up to at most the number of agreements. |
| `MapScreen.CountriesOf` | app/map.tsx:28 | With no region of that name, the result is `[]`. Otherwise it is the country list of the first region with that name. |
| `MapScreen.GetRegionStats` | app/map.tsx:27-32 | The partner total is at most the number of partners. |
| `MapScreen.RegionTable` | app/map.tsx:21-25 | Europe is France and Allemagne; Amérique is États-Unis and Canada; Asie is Japon. |
| `MapScreen.UnknownRegion` | app/map.tsx:28-31 | A name that is not in the table gives `{partners: 0, agreements: 0}`. |
| `MapScreen.RegionStatsMeaning` | app/map.tsx:29-31 | `partners` counts exactly the partners, with multiplicity, whose country is in the region's list. `agreements` adds up their counts. |
| `MapScreen.RegionAgreementsNonNegative` | app/map.tsx:30 | With no negative count, the agreement total is non-negative. |
| `MapScreen.SumAgreements` | app/map.tsx:30 | The summing `reduce`. It has no contract of its own. `MapScreen.SumLeftToRight`, `MapScreen.SumAppend` and `MapScreen.SumPermutation` state its meaning. |
| `MapScreen.SumLeftToRight` | app/map.tsx:30 | The sum is what `reduce` accumulates left to right: the total of all but the last partner plus the last partner's count. |
| `MapScreen.SumAppend` | app/map.tsx:30 | The sum over two lists joined together is the sum of their sums. |
| `MapScreen.SumPermutation` | app/map.tsx:30 | The summing `reduce` does not depend on the partners' order. |
| `MapScreen.RegionsDisjoint` | app/map.tsx:21-31 | The three regions share no country, so their partner totals add up to at most the number of partners. |
| `MapScreen.RegionStatsPermutation` | app/map.tsx:29-31 | Reordering the partner list, as the statistics screen's in-place sort does, changes no region's figures. |

Two behaviours of the code are easy to state wrongly, and the model follows
the code in both:

- **Selecting a second type widens the result.** It is tempting to say that
  selecting another type can only shrink the result. The code ORs the values
  of one category, so only the first value narrows the result and later
  values widen it. `UACContext.SelectValueEffect` proves this, and
  `UACContext.SecondTypeWidens` shows a case where the result grows.
- **Toggling twice does not always restore the list.** Toggling a value twice
  restores the list exactly only when the value was absent. A present value
  comes back at the end of its list, and any duplicates of it are gone.
  `UACContext.ToggleTwice` proves this. The filter result itself never
  changes (`UACContext.ToggleTwiceSameResult`).

## Left out

- `toLowerCase` is ASCII lower-casing only. Accented capitals such as `É` are
  not folded, because the model has no Unicode case tables.
- Statistics.CountBy: keeps keys in insertion order. JavaScript enumerates
  integer-like keys (such as a domain named "10") first, in ascending numeric
  order. That ordering rule is not modelled.
- Statistics.CountBy: the counter starts as `{}`, which inherits the
  properties of `Object.prototype`. The model treats every key as a fresh
  own property, so it is wrong for a domain named after one of them. A
  domain `"__proto__"` never becomes a key, because the write goes to the
  prototype setter. For `"constructor"`, `"toString"`, `"valueOf"`,
  `"hasOwnProperty"` and the like, `acc[k]` reads an inherited function, and
  the stored value becomes a string rather than a count. Type and status
  keys are fixed labels and are not affected.
- Statistics.DomainBarChart: inherits both `Statistics.CountBy` gaps. Its
  contract holds only for domains that are neither integer-like nor
  `Object.prototype` property names.
- Statistics.SortByCount: the contract states sortedness and permutation but
  not stability. JavaScript's `sort` is stable; the insertion sort modelled
  here is stable too, but that is not proved.
- Statistics.TopPartners: the source sorts the context's own `partners`
  array in place. That array is also what the map screen reads. The model
  sorts a separate array, and the provider's `partners` field never changes.
  So the model does not capture the aliasing: after the statistics screen
  renders, the context and the map screen see the partners in sorted order.
  `MapScreen.RegionStatsPermutation` shows that the map totals do not depend
  on that order.
- Statistics.TopPartners: stability is not stated. With several partners
  tied at fifth place, the stable JavaScript sort decides which of them are
  shown, by their earlier order. The contract only says that none shown has
  a lower count than one left out.
- Counts are unbounded integers. JavaScript numbers are floating point; they
  are exact at the sizes involved here.
- Floating-point computations are left out: the renewal percentage, the bar
  widths and the latitude and longitude (kept only as opaque values).
- Rendering and UI plumbing are left out: components, styles, navigation,
  animations, the refresh timer, React memoisation and the `Math.random` map
  pin placement. None of it computes data.
- The date-range pickers on the filter screen are left out. Their dates never
  reach the filter predicate.
- `setSelectedFilters(any)` and the `useUAC` provider error are left out. The
  first is an untyped escape hatch; the second is React wiring.
- The mock data is not part of this model. Agreements and partners are
  arbitrary input sequences.
- Locale formatting of dates and numbers is left out: it is a foreign
  library call.
- The `selectedRegion` state of the map screen is left out. It only
  highlights a button.
