# train-map station store and map logic, in Dafny

This project models the logic core of train-map, a React/Leaflet app that
loads a list of German train stations, filters them by city and shows them
on a map. The model covers five parts:

- **Payload validation** (`StationsApi`). The `isStation` check is applied
  to a JSON value. `fetchStations` applies its guard chain: a bad HTTP
  status, then a body that is not an array, then an array with an invalid
  entry. Each failure carries its exact message.
- **Derived views** (`StationService`, `Sorting`). These cover
  `filterStationsByCity` and `getCityList`. `getCityList` takes the
  distinct city names in first-insertion order (a `Set`). It then sorts
  them with a stable sort under a comparator. The comparator is a
  parameter: any total preorder. An ASCII case-folding instance of it is
  defined.
- **The station store** (`StationsContext`). The provider's state is the
  class `StationStore`. Its fields are:
  - `stations`, `cityFilter`, `selectedStationId`, `loading` and `error`;
  - the request-id counter and the active-request slot;
  - the set of aborted request ids.

  `loadStations` is split at its `await`:
  - `StartLoad` is the synchronous start.
  - `Settle` is the continuation, which runs `CompleteSuccess` or
    `CompleteFailure`, then `Finally`.

  The memos are `FilteredStations`, `SelectedStation` and `Cities`. The
  dangling-selection effect is the explicit step `Reconcile`. Two quirks of
  the source are kept and proved:
  - JavaScript truthiness makes id `0` mean "no selection".
  - The selected-station lookup searches the whole list, not the filtered
    one.
- **The debounced map controller** (`MapCommands`, `MapController`).
  - Map calls are the `Command` datatype: `flyTo`, `setView` and
    `fitBounds`.
  - `ChooseCommand` is the timer callback's priority chain.
  - `BoundsOf` is `latLngBounds` over the active stations.
  - The class `Debouncer` holds the pending-timer slot. Its events are
    change, fire and teardown.
- **The map panel** (`MapView`). This covers the `mapCenter` memo, the
  fixed zoom 6, `showEmptyState`, `RecenterMap`, `FlyToSelected`, the
  markers' selected flag and a marker click.

Station ids and coordinates are `real`: JavaScript numbers are compared
only for equality and order here. The map's current zoom (`getZoom()`) is
an input of the functions that read it.

## Model

| member | source | states |
|---|---|---|
| StationsApi.IsStation | src/api/stations.ts:6-20 | `isStation`: a passing entry is a truthy JSON object carrying the five fields (the full characterisation is `IsStationShape`) |
| StationsApi.IsStationShape | src/api/stations.ts:6-20 | an entry passes the check iff it is a JSON object with `id`, `lat`, `lng` numbers and `name`, `city` strings; falsy values and non-objects (arrays included) fail |
| StationsApi.AsStation | src/api/stations.ts:39-43 | a valid entry is read as the station with exactly its five field values |
| StationsApi.StationJsonRoundTrip | src/api/stations.ts:6-20 | every station written as a JSON object passes the check and reads back as itself |
| StationsApi.DecimalString | src/api/stations.ts:28-30 | the status renders as decimal digits without leading zeros |
| StationsApi.DecimalRoundTrip | src/api/stations.ts:29 | the rendered status reads back as the status |
| StationsApi.FetchStations | src/api/stations.ts:22-44 | success iff the status is ok, the body is an array and every entry is a station; on success the list has the body's length and each element is the entry read as a station |
| StationsApi.FetchFailureOrder | src/api/stations.ts:27-41 | a bad status fails with the status message whatever the body is; then a non-array fails with "Stations response is not an array."; then an array with an invalid entry fails with "Stations response has invalid entries." |
| StationsApi.StatusFailureIgnoresBody | src/api/stations.ts:27-31 | with a bad status the result does not depend on the body; the message starts with "Failed to load stations: ", ends with the status text, and the digits between name the status |
| StationsApi.FetchRoundTrip | src/api/stations.ts:39-43 | serving any list of stations (the empty one included) with an ok status returns that list unchanged, in order |
| StationService.KeepCity | src/services/stations.ts:11 | the kept stations are exactly the input stations of that city |
| StationService.FilterStationsByCity | src/services/stations.ts:3-12 | an empty city returns the input itself; otherwise every result station has exactly that city (case-sensitive) and every input station of the city is kept |
| StationService.FilterIsOrderedSelection | src/services/stations.ts:11 | the result is an order-preserving subsequence of the input that keeps each station of the city as often as it occurs |
| StationService.KeepCityOfMatching | src/services/stations.ts:11 | a list whose stations all have the city passes the filter whole |
| StationService.FilterIdempotent | src/services/stations.ts:3-12 | filtering the result again by the same city gives the same result |
| StationService.KeepCityFirst | src/services/stations.ts:11 | the first kept station is the first station of the city in the input |
| StationService.CityNames | src/services/stations.ts:15 | the names list has one entry per station, its city |
| StationService.Distinct | src/services/stations.ts:15-17 | `Array.from(new Set(s))` has no duplicates (by exact equality) and the same members as `s` |
| StationService.DistinctKeepsFirstOccurrenceOrder | src/services/stations.ts:15-17 | the distinct values stand in the order of their first occurrences |
| StationService.GetCityList | src/services/stations.ts:14-20 | `getCityList` holds exactly the names of the stations' cities (no duplicates, sorted, stable: `CityListProperties`) |
| StationService.CityListMembers | src/services/stations.ts:14-20 | a name is in the city list iff some station has that city |
| StationService.CityListStable | src/services/stations.ts:17-19 | names the comparator ties keep the order of their first occurrence among the stations |
| StationService.CityListProperties | src/services/stations.ts:14-20 | the city list has no duplicates, holds exactly the cities that occur, is sorted by the comparator, and keeps first-occurrence order among tied names |
| Sorting.SortBy | src/services/stations.ts:17-19 | sorting returns a permutation of its input |
| Sorting.SortBySorted | src/services/stations.ts:17-19 | under a total preorder the result is sorted ascending |
| Sorting.SortByNoDuplicates | src/services/stations.ts:15-19 | sorting a duplicate-free list keeps it duplicate-free |
| Sorting.SortByStable | src/services/stations.ts:17-19 | the sort is stable: elements the comparator ties keep their input order |
| Sorting.CaseInsensitiveLeIsTotalPreorder | src/services/stations.ts:18 | the case-folding comparator is total and transitive, so the properties above apply to it |
| Sorting.CaseVariantsTie | src/services/stations.ts:18 | names that differ only in ASCII letter case compare equal (the list still holds both, since duplicates are removed by exact equality) |
| StationsContext.ErrorText | src/context/StationsContext.tsx:74-78 | an `Error` is stored as its own message, any other thrown value as "Failed to load stations." |
| StationsContext.FetchOutcome | src/context/StationsContext.tsx:59 | the fetch succeeds iff the guard chain does, with its list; every failure is an `Error` whose message is the guard chain's message, so the fallback text never appears for it |
| StationsContext.StationStore.FilteredStations | src/context/StationsContext.tsx:103-109 | the `filteredStations` memo is an order-preserving selection of the stations that keeps a station iff the filter is empty or names its city |
| StationsContext.StationStore.SelectedStation | src/context/StationsContext.tsx:111-119 | the `selectedStation` memo is a station of the whole list with the selected id, present iff the id is truthy and some station has it |
| StationsContext.StationStore.Cities | src/context/StationsContext.tsx:121-126 | the `cities` memo lists each city of the stations once and nothing else |
| StationsContext.FindById | src/context/StationsContext.tsx:117 | `find` gives nothing iff no station has the id, and otherwise the first station with it |
| StationsContext.SelectedStationOf | src/context/StationsContext.tsx:111-119 | a falsy id (null or 0) selects nothing; a truthy id selects a station of the whole list iff one has that id |
| StationsContext.ReconciledSelection | src/context/StationsContext.tsx:128-135 | the id is cleared iff it is truthy and no filtered station has it; the result is always a valid selection |
| StationsContext.ReconcileIdempotent | src/context/StationsContext.tsx:128-135 | running the effect twice is the same as once |
| StationsContext.SelectedStationIsFiltered | src/context/StationsContext.tsx:111-135 | with unique ids and a valid truthy selection, the lookup over the whole list finds a filtered station |
| StationsContext.SelectedStationCanBeHidden | src/context/StationsContext.tsx:117 | with a duplicated id the lookup can return a station outside the filtered list although the selection is valid |
| StationsContext.ZeroIdIsNoSelection | src/context/StationsContext.tsx:111-135 | id 0 selects no station, and the effect never clears it |
| StationsContext.StationStore.constructor | src/context/StationsContext.tsx:34-45 | initial state: no stations, filter "", no selection, loading, no error, counter 0, no active request |
| StationsContext.StationStore.StartLoad | src/context/StationsContext.tsx:47-56 | the new id is the previous plus one; the previously active request is aborted; the new one becomes active; loading is set and the error cleared; stations untouched |
| StationsContext.StationStore.Abort | src/context/StationsContext.tsx:96-101 | aborting a request adds it to the aborted set and nothing else |
| StationsContext.StationStore.CompleteSuccess | src/context/StationsContext.tsx:58-66 | the data replaces the stations iff the request is active and not aborted |
| StationsContext.StationStore.CompleteFailure | src/context/StationsContext.tsx:67-79 | the error becomes the thrown message (or "Failed to load stations." for a non-Error) iff the request is active and not aborted; stations are never touched |
| StationsContext.StationStore.Finally | src/context/StationsContext.tsx:80-89 | only the latest non-aborted request clears the active slot and ends loading |
| StationsContext.StationStore.Settle | src/context/StationsContext.tsx:58-89 | the latest request commits its data or its error and ends loading; any other settling leaves the whole store unchanged |
| StationsContext.StationStore.SetCityFilter | src/context/StationsContext.tsx:35 | the filter becomes the given city |
| StationsContext.StationStore.ClearFilter | src/context/StationsContext.tsx:137 | the filter becomes "" and every station is shown |
| StationsContext.StationStore.SetSelectedStation | src/context/StationsContext.tsx:153 | the id is stored as given, unchecked |
| StationsContext.StationStore.Reconcile | src/context/StationsContext.tsx:128-135 | the selection is cleared iff it is truthy and absent from the filtered stations; afterwards it is valid |
| StationsContext.OverlappingLoads | src/context/StationsContext.tsx:47-89 | when two loads overlap and the first settles last, with data or an error, the second's data is kept, loading is off and no error shows |
| StationsContext.FailedReloadKeepsStations | src/context/StationsContext.tsx:67-88 | a failing reload keeps the earlier stations and records its error |
| StationsContext.AbortedLoadChangesNothing | src/context/StationsContext.tsx:58-88 | an aborted request settles without effect, and loading stays on |
| StationsContext.BadStatusScenario | src/api/stations.ts:27-31 | status 503 "Service Unavailable" reaches the store as "Failed to load stations: 503 Service Unavailable" |
| StationsContext.BerlinFilterScenario | src/context/StationsContext.tsx:103-135 | with the three stations of the integration test (src/tests/StationsIntegration.test.tsx:14-45), filtering by "Berlin" leaves stations 1 and 3; selecting station 2 under that filter is undone by the effect |
| StationsContext.BerlinHamburgCities | src/context/StationsContext.tsx:121-126 | the test stations' city list is ["Berlin", "Hamburg"] |
| MapCommands.BoundsOf | src/components/map/MapController.tsx:55-57 | the box contains every point, and each edge is some point's coordinate |
| MapCommands.BoundsOfIsSmallest | src/components/map/MapController.tsx:55-57 | every box holding all the points holds the computed box |
| MapController.ActiveStations | src/components/map/MapController.tsx:41-42 | the filtered stations when there are any, otherwise all stations |
| MapController.Positions | src/components/map/MapController.tsx:56 | one `[lat, lng]` per station, in order |
| MapController.ChooseCommand | src/components/map/MapController.tsx:31-62 | the timer callback issues a fly iff a station is selected, a fitBounds iff none is and at least two stations are active, and a setView otherwise (what each achieves: `ChosenCommandShowsTargets`) |
| MapController.ChosenCommandShowsTargets | src/components/map/MapController.tsx:31-62 | a selection wins with a fly to it at zoom max(current, 9), duration 0.75; otherwise every active station is brought into view; one station gives setView on it at zoom max(current, 9); several give fitBounds over their box with padding 40 and max zoom 8; none gives setView to the default centre and zoom |
| MapController.Debouncer.constructor | src/components/map/MapController.tsx:24 | no timer is pending at mount |
| MapController.Debouncer.Change | src/components/map/MapController.tsx:26-31 | a change replaces any pending timer: one pending, with the latest inputs |
| MapController.Debouncer.Fire | src/components/map/MapController.tsx:31-62 | a pending timer fires exactly one command, computed from its inputs and the zoom at firing time; with none pending nothing happens |
| MapController.Debouncer.Teardown | src/components/map/MapController.tsx:64-68 | cleanup leaves no timer pending |
| MapController.RapidChanges | src/components/map/MapController.tsx:26-62 | three quick changes yield one command, from the last inputs, and then no more |
| MapController.TeardownCancels | src/components/map/MapController.tsx:64-68 | after teardown no command fires |
| MapView.MapCenter | src/components/MapView.tsx:110-120 | the centre is the selected station's position, or a filtered station's position, or the centre of Germany |
| MapView.MapCenterFollowsStore | src/components/MapView.tsx:110-120 | with no selection and a filter some station matches, the centre is the first station of that city in the list; with no selection and no shown station it is the centre of Germany |
| MapView.ShowEmptyState | src/components/MapView.tsx:123 | the empty state shows only when not loading, with no truthy error and no filtered station |
| MapView.EmptyStateExclusive | src/components/MapView.tsx:123 | the empty state shows iff loading has ended without a truthy error and no loaded station passes the filter; an empty error message counts as none |
| MapView.RecenterMap | src/components/MapView.tsx:35-43 | recentering centres on the given point and keeps the zoom |
| MapView.FlyToSelected | src/components/MapView.tsx:45-59 | no station gives no command; a station gives a fly to it at zoom max(current, 9), duration 0.75 |
| MapView.FlyToSelectedAgreesWithController | src/components/MapView.tsx:53-55 | the panel's fly to a selection equals the controller's command for it |
| MapView.SelectionFromInitialZoom | src/components/MapView.tsx:122 | the fixed zoom 6 is below 9, so a selection made at the start flies in to exactly zoom 9 |
| MapView.Markers | src/components/MapView.tsx:156-163 | one marker per filtered station, in order; a marker is selected iff its id equals the selected id |
| MapView.MarkerClick | src/components/MapView.tsx:88 | a click selects the marker's station id |
| MapView.ClickSelectsMarker | src/components/MapView.tsx:156-162 | after a click the clicked marker is selected and the reconciling effect keeps the selection |
| MapView.SelectedMarkerIsSelectedStation | src/components/MapView.tsx:156-163 | with unique ids and a valid truthy selection, a marker is selected iff its station is the selected station, and one is |
| MapView.ZeroIdMarkerQuirk | src/components/MapView.tsx:160 | a selected station with id 0 shows a selected marker, yet no station counts as selected and the panel issues no fly |

## Left out

- Network I/O. `fetch`, `response.json()` and a body that fails to parse are not modelled. The status, status text and parsed JSON value are inputs.
- React machinery is not modelled: hooks, context identity, memo caching and effect scheduling. The dangling-selection effect is the explicit `Reconcile` step. `refresh` is `StartLoad` followed by `Settle`, the same as the mount load.
- `useStations` throws when no provider is present. This is not modelled.
- The `AbortController` objects are not modelled. Each request's abort state is membership in the store's `aborted` set.
- StationsContext.StationStore.StartLoad: its `Valid()` precondition holds from the constructor on. It is not a demand the source makes of callers.
- StationsContext.StationStore.Abort: its precondition only admits ids of requests already started.
- Locale collation is not modelled. `localeCompare` with base sensitivity stands as an abstract total-preorder comparator. The concrete `CaseInsensitiveLe` folds ASCII letters only, not accents or other scripts.
- Sorting.SortBy: it is a stable insertion sort. It stands for the engine's `Array.prototype.sort`, which is stable, and is specified by its results, not by its algorithm.
- NaN, infinities and floating-point rounding are not modelled. Ids and coordinates are exact `real`s.
- Wall-clock time is not modelled. The debounce delay (150 ms) is the distance between a `Change` and a `Fire`.
- Leaflet is not modelled: the widget, tiles, icons and `flyTo` animation. The marker popups opening and closing follow `isSelected` and are not modelled.
- The presentational files are not part of this model: `App.tsx`, `LoadingState.tsx`, `StationList.tsx`, `CityFilter.tsx` and `StationMarker.tsx`.
