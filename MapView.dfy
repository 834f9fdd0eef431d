/** `src/components/MapView.tsx`: what the map panel derives from the
    store's state. The map widget's calls are the commands the panel issues;
    `getZoom()` is an input. */
module MapView {
  import opened Wrappers
  import opened StationTypes
  import opened StationService
  import opened StationsContext
  import opened MapCommands
  import MapController

  const GermanyCenter := LatLng(51.1657, 10.4515)
  const DefaultZoom: real := 6.0

  /** The `mapCenter` memo: the selected station, else the first filtered
      station while a city filter is set, else the centre of Germany. */
  function MapCenter(selected: Option<Station>, cityFilter: string, filtered: seq<Station>): (c: LatLng)
    ensures selected.Some? ==> c == Position(selected.value)
    ensures c == GermanyCenter || exists s :: (selected == Some(s) || s in filtered) && c == Position(s)
  {
    if selected.Some? then Position(selected.value)
    else if cityFilter != "" && |filtered| > 0 then Position(filtered[0])
    else GermanyCenter
  }

  /** Read off the store's state: with no station selected and a filter
      some station matches, the map centres on the first station of that
      city in the loaded list; with no selection and no such station it
      shows Germany. */
  lemma MapCenterFollowsStore(stations: seq<Station>, cityFilter: string, id: Option<real>)
    ensures var c := MapCenter(SelectedStationOf(stations, id), cityFilter,
                               FilterStationsByCity(stations, cityFilter));
      && (SelectedStationOf(stations, id).None? && cityFilter != "" &&
          (exists k :: 0 <= k < |stations| && stations[k].city == cityFilter) ==>
            exists m :: 0 <= m < |stations| && stations[m].city == cityFilter &&
                        c == Position(stations[m]) &&
                        forall j :: 0 <= j < m ==> stations[j].city != cityFilter)
      && (SelectedStationOf(stations, id).None? &&
          (cityFilter == "" || forall s :: s in stations ==> s.city != cityFilter) ==>
            c == GermanyCenter)
  {
    if SelectedStationOf(stations, id).None? && cityFilter != "" {
      if k :| 0 <= k < |stations| && stations[k].city == cityFilter {
        KeepCityFirst(stations, cityFilter, k);
      }
    }
  }

  /** The overlay text shows when there is an error message; an empty
      message is falsy and shows nothing. */
  predicate ErrorShown(error: Option<string>)
  {
    error.Some? && error.value != ""
  }

  /** `showEmptyState`: not loading, no (truthy) error, no filtered station. */
  function ShowEmptyState(loading: bool, error: Option<string>, filtered: seq<Station>): (show: bool)
    ensures show ==> !loading && !ErrorShown(error) && filtered == []
  {
    !loading && !(error.Some? && error.value != "") && |filtered| == 0
  }

  /** No loaded station is shown: the list is empty without a filter, and
      no station has the filter's city with one. */
  predicate NothingMatches(stations: seq<Station>, city: string)
  {
    forall s :: s in stations ==> city != "" && s.city != city
  }

  /** The empty state appears exactly when loading has ended without a
      (truthy) error and no loaded station passes the filter; so never
      beside the loading or the error overlay. An empty error message counts
      as no error. */
  lemma EmptyStateExclusive(loading: bool, error: Option<string>, stations: seq<Station>, city: string)
    ensures ShowEmptyState(loading, error, FilterStationsByCity(stations, city)) <==>
      !loading && !ErrorShown(error) && NothingMatches(stations, city)
    ensures ShowEmptyState(false, Some(""), [])
  {
    var r := FilterStationsByCity(stations, city);
    if ShowEmptyState(loading, error, r) {
      assert city == "" ==> stations == [];
    }
    if r != [] {
      assert r[0] in r;
    }
  }

  /** `RecenterMap`: `setView(center)` with no zoom, so the zoom stays. */
  function RecenterMap(center: LatLng): (c: Command)
    ensures MapController.Shows(c, center) && c.SetView? && c.newZoom.None?
  {
    SetView(center, None)
  }

  /** `FlyToSelected`: nothing without a station, else a fly to it that
      never zooms out and never stays below zoom 9. */
  function FlyToSelected(station: Option<Station>, currentZoom: real): (c: Option<Command>)
    ensures c.None? <==> station.None?
    ensures c.Some? ==>
      && c.value.FlyTo? && MapController.Shows(c.value, Position(station.value))
      && c.value.zoom >= currentZoom && c.value.zoom >= StationZoom && c.value.duration == FlyDuration
      && (c.value.zoom == currentZoom || c.value.zoom == StationZoom)
  {
    if station.None? then None
    else Some(FlyTo(Position(station.value), Max(currentZoom, StationZoom), FlyDuration))
  }

  /** The panel's fly to a selection is the command the debounced
      controller would issue for it, whatever its other inputs. */
  lemma FlyToSelectedAgreesWithController(s: Station, currentZoom: real, v: MapController.ViewInputs)
    requires v.selected == Some(s)
    ensures FlyToSelected(Some(s), currentZoom) == Some(MapController.ChooseCommand(v, currentZoom))
  {
  }

  /** The container opens at zoom 6 whatever the state; a selection made
      there flies in to exactly zoom 9. */
  lemma SelectionFromInitialZoom(s: Station)
    ensures DefaultZoom < StationZoom
    ensures FlyToSelected(Some(s), DefaultZoom) == Some(FlyTo(Position(s), 9.0, 0.75))
  {
  }

  /** One marker of the panel. */
  datatype Marker = Marker(station: Station, isSelected: bool)

  /** One marker per filtered station, in order; a marker is selected when
      its id is the selected id (strict equality, no truthiness test). */
  function Markers(filtered: seq<Station>, selectedId: Option<real>): (ms: seq<Marker>)
    ensures |ms| == |filtered|
    ensures forall i :: 0 <= i < |ms| ==> ms[i].station == filtered[i]
    ensures forall i :: 0 <= i < |ms| ==> (ms[i].isSelected <==> selectedId == Some(filtered[i].id))
  {
    seq(|filtered|, i requires 0 <= i < |filtered| =>
      Marker(filtered[i], selectedId.Some? && filtered[i].id == selectedId.value))
  }

  /** A click on a marker hands its station's id to `setSelectedStation`. */
  function MarkerClick(m: Marker): (id: Option<real>)
    ensures id.Some? && id.value == m.station.id
  {
    Some(m.station.id)
  }

  /** Clicking a marker selects it, and the selection is one the store's
      reconciling effect keeps. */
  lemma ClickSelectsMarker(filtered: seq<Station>, selectedId: Option<real>, i: nat)
    requires i < |filtered|
    ensures var id := MarkerClick(Markers(filtered, selectedId)[i]);
      && Markers(filtered, id)[i].isSelected
      && SelectionValid(filtered, id)
      && ReconciledSelection(filtered, id) == id
  {
    assert filtered[i] in filtered;
  }

  /** With unique ids and a truthy selection the store keeps valid, the
      selected markers are exactly the markers of the selected station, and
      there is one. */
  lemma SelectedMarkerIsSelectedStation(stations: seq<Station>, city: string, id: Option<real>)
    requires UniqueIds(stations)
    requires IsTruthyId(id) && SelectionValid(FilterStationsByCity(stations, city), id)
    ensures var filtered := FilterStationsByCity(stations, city);
      var ms := Markers(filtered, id);
      && (forall i :: 0 <= i < |ms| ==>
            (ms[i].isSelected <==> Some(ms[i].station) == SelectedStationOf(stations, id)))
      && exists i :: 0 <= i < |ms| && ms[i].isSelected
  {
    var filtered := FilterStationsByCity(stations, city);
    var ms := Markers(filtered, id);
    SelectedStationIsFiltered(stations, city, id);
    var r := SelectedStationOf(stations, id);
    FilterIsOrderedSelection(stations, city);
    forall i | 0 <= i < |ms|
      ensures ms[i].isSelected <==> Some(ms[i].station) == r
    {
      var s := filtered[i];
      assert s in filtered;
      assert s in stations by {
        if city != "" {
          assert multiset(filtered)[s] == multiset(stations)[s];
        }
      }
      if ms[i].isSelected {
        var a :| 0 <= a < |stations| && stations[a] == s;
        var b :| 0 <= b < |stations| && stations[b] == r.value;
        assert a == b;
      }
    }
    var k :| 0 <= k < |filtered| && filtered[k] == r.value;
    assert ms[k].isSelected;
  }

  /** Id 0 is falsy for the lookup but not for the marker: a station with id
      0 that is selected shows a selected marker, while no station counts
      as selected and the panel issues no fly. */
  lemma ZeroIdMarkerQuirk(s: Station, currentZoom: real)
    requires s.id == 0.0
    ensures Markers([s], Some(0.0))[0].isSelected
    ensures SelectedStationOf([s], Some(0.0)).None?
    ensures FlyToSelected(SelectedStationOf([s], Some(0.0)), currentZoom).None?
  {
  }
}
