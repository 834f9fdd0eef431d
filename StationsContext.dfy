/** `src/context/StationsContext.tsx`: the station store.

    The provider's state lives in a class. `loadStations` is split at its
    one `await`: `StartLoad` is the part before it (take the next request
    id, abort the previous active request, become the active request, set
    `loading` and clear `error`); `Settle` is the continuation that runs
    when the fetch settles (the `try` body or the `catch` block, then the
    `finally` block, with no suspension point between them). Each of the
    three blocks is a method of its own as well, re-checking whether the
    request is still the latest one. The abort state of each request's
    `AbortController` is the set `aborted` of request ids. The effect that
    clears a dangling selection is the explicit step `Reconcile`. */
module StationsContext {
  import opened Wrappers
  import opened StationTypes
  import opened Sorting
  import opened StationService
  import StationsApi

  /** What a rejected fetch throws: an `Error`, which carries a message, or
      any other value. */
  datatype Thrown = ErrorInstance(message: string) | NonError

  const FallbackMessage := "Failed to load stations."

  /** The text stored in `error` for a thrown value: an `Error`'s own
      message, and the fallback text for anything else. */
  function ErrorText(t: Thrown): (text: string)
    ensures t.ErrorInstance? ==> text == t.message
    ensures t.NonError? ==> text == FallbackMessage
  {
    match t
    case ErrorInstance(m) => m
    case NonError => FallbackMessage
  }

  /** What the store sees when the fetch of `fetchStations` settles for a
      given response and parsed body: the validated list, or the `Error`
      whose message the guard chain produced. */
  function FetchOutcome(response: StationsApi.Response, body: StationsApi.Json): (r: Result<seq<Station>, Thrown>)
    ensures r.Success? <==> StationsApi.FetchStations(response, body).Success?
    ensures r.Success? ==> r.value == StationsApi.FetchStations(response, body).value
    ensures r.Failure? ==>
      r.error.ErrorInstance? && ErrorText(r.error) == StationsApi.FetchStations(response, body).error
  {
    match StationsApi.FetchStations(response, body)
    case Success(data) => Success(data)
    case Failure(m) => Failure(ErrorInstance(m))
  }

  /** JavaScript truthiness of `selectedStationId`: `null` and `0` are
      falsy. */
  predicate IsTruthyId(id: Option<real>)
  {
    id.Some? && id.value != 0.0
  }

  /** `stations.some((station) => station.id === id)`. */
  predicate HasId(stations: seq<Station>, id: real)
  {
    exists s :: s in stations && s.id == id
  }

  /** `stations.find((station) => station.id === id) ?? null`. */
  function FindById(stations: seq<Station>, id: real): (r: Option<Station>)
    ensures r.None? <==> !HasId(stations, id)
    ensures r.Some? ==> r.value.id == id
    ensures r.Some? ==>
      exists k :: 0 <= k < |stations| && stations[k] == r.value &&
                  forall j :: 0 <= j < k ==> stations[j].id != id
  {
    if stations == [] then None
    else if stations[0].id == id then Some(stations[0])
    else
      var r := FindById(stations[1..], id);
      assert forall s :: s in stations <==> s == stations[0] || s in stations[1..] by {
        assert stations == [stations[0]] + stations[1..];
      }
      if r.Some? then
        ghost var k :| 0 <= k < |stations[1..]| && stations[1..][k] == r.value &&
          forall j :: 0 <= j < k ==> stations[1..][j].id != id;
        assert stations[k + 1] == r.value;
        r
      else r
  }

  /** The `selectedStation` memo: nothing for a falsy id, otherwise the
      first station of the whole list (not the filtered one) with that id. */
  function SelectedStationOf(stations: seq<Station>, id: Option<real>): (r: Option<Station>)
    ensures !IsTruthyId(id) ==> r.None?
    ensures IsTruthyId(id) ==> (r.Some? <==> HasId(stations, id.value))
    ensures r.Some? ==> r.value in stations && r.value.id == id.value
  {
    if !IsTruthyId(id) then None else FindById(stations, id.value)
  }

  /** The store's invariant on the selection: a truthy id names a station
      of the filtered list. */
  predicate SelectionValid(filtered: seq<Station>, id: Option<real>)
  {
    !IsTruthyId(id) || HasId(filtered, id.value)
  }

  /** The dangling-selection effect: a truthy id that no filtered station
      carries is cleared to null; any other id stays. */
  function ReconciledSelection(filtered: seq<Station>, id: Option<real>): (r: Option<real>)
    ensures SelectionValid(filtered, r)
    ensures r == id || r == None
    ensures r != id <==> !SelectionValid(filtered, id)
  {
    if IsTruthyId(id) && !HasId(filtered, id.value) then None else id
  }

  lemma ReconcileIdempotent(filtered: seq<Station>, id: Option<real>)
    ensures ReconciledSelection(filtered, ReconciledSelection(filtered, id)) == ReconciledSelection(filtered, id)
  {
  }

  /** Station ids are unique in a list. */
  predicate UniqueIds(stations: seq<Station>)
  {
    forall i, j :: 0 <= i < j < |stations| ==> stations[i].id != stations[j].id
  }

  /** The lookup searches the whole list, but once the selection is valid
      for the filtered list and ids are unique, the station it finds is one
      of the filtered stations. */
  lemma SelectedStationIsFiltered(stations: seq<Station>, city: string, id: Option<real>)
    requires UniqueIds(stations)
    requires IsTruthyId(id) && SelectionValid(FilterStationsByCity(stations, city), id)
    ensures var r := SelectedStationOf(stations, id);
      r.Some? && r.value in FilterStationsByCity(stations, city)
  {
    var filtered := FilterStationsByCity(stations, city);
    var s :| s in filtered && s.id == id.value;
    assert s in stations by {
      FilterIsOrderedSelection(stations, city);
      if city != "" {
        assert multiset(filtered)[s] == multiset(stations)[s];
      }
    }
    var r := SelectedStationOf(stations, id);
    var i :| 0 <= i < |stations| && stations[i] == s;
    var k :| 0 <= k < |stations| && stations[k] == r.value;
    assert i == k;
  }

  /** With duplicate ids the lookup can land outside the filtered list: the
      first station with the id belongs to another city. */
  lemma SelectedStationCanBeHidden()
    ensures var a := Station(7.0, "A", "Essen", 51.0, 7.0);
      var b := Station(7.0, "B", "Köln", 50.9, 6.9);
      && SelectionValid(FilterStationsByCity([a, b], "Köln"), Some(7.0))
      && SelectedStationOf([a, b], Some(7.0)) == Some(a)
      && a !in FilterStationsByCity([a, b], "Köln")
  {
    var a := Station(7.0, "A", "Essen", 51.0, 7.0);
    var b := Station(7.0, "B", "Köln", 50.9, 6.9);
    assert FilterStationsByCity([a, b], "Köln") == [b] by {
      assert [a, b][1..] == [b];
    }
    assert b in [b];
  }

  /** Id 0 is falsy: it never selects a station, even one that exists, and
      the effect never clears it. */
  lemma ZeroIdIsNoSelection(stations: seq<Station>, filtered: seq<Station>)
    ensures SelectedStationOf(stations, Some(0.0)) == None
    ensures ReconciledSelection(filtered, Some(0.0)) == Some(0.0)
  {
  }

  class StationStore {
    var stations: seq<Station>
    var cityFilter: string
    var selectedStationId: Option<real>
    var loading: bool
    var error: Option<string>
    /** `requestIdRef`: the id of the most recent request. */
    var requestId: nat
    /** `activeRequestRef`: the id of the request that may still commit. */
    var active: Option<nat>
    /** The requests whose abort signal has fired. */
    var aborted: set<nat>

    ghost predicate Valid()
      reads this
    {
      && (active.Some? ==> active.value == requestId && 1 <= requestId && loading)
      && (forall t :: t in aborted ==> 1 <= t <= requestId)
    }

    /** The provider's initial state, before the mount effect starts the
        first load. */
    constructor ()
      ensures Valid()
      ensures stations == [] && cityFilter == "" && selectedStationId == None
      ensures loading && error == None
      ensures requestId == 0 && active == None && aborted == {}
    {
      stations, cityFilter, selectedStationId := [], "", None;
      loading, error := true, None;
      requestId, active, aborted := 0, None, {};
    }

    /** `activeRequestRef.current?.id === requestId && !signal.aborted`. */
    predicate IsLatest(t: nat)
      reads this
    {
      active == Some(t) && t !in aborted
    }

    /** The `filteredStations` memo: an order-preserving selection of the
        stations, keeping a station iff the filter is empty or names its
        city. */
    function FilteredStations(): (r: seq<Station>)
      reads this
      ensures IsSubsequence(r, stations)
      ensures forall x :: x in r ==> x in stations
      ensures forall x :: x in stations ==> (x in r <==> cityFilter == "" || x.city == cityFilter)
    {
      FilterIsOrderedSelection(stations, cityFilter);
      FilterStationsByCity(stations, cityFilter)
    }

    /** The `selectedStation` memo: a station of the whole list carrying
        the selected id, present iff the id is truthy and some station has
        it. */
    function SelectedStation(): (r: Option<Station>)
      reads this
      ensures r.Some? <==> IsTruthyId(selectedStationId) && HasId(stations, selectedStationId.value)
      ensures r.Some? ==> r.value in stations && r.value.id == selectedStationId.value
    {
      SelectedStationOf(stations, selectedStationId)
    }

    /** The `cities` memo: each city of the stations once, and nothing
        else. Its order is stated by `CityListProperties`. */
    function Cities(le: (string, string) -> bool): (r: seq<string>)
      reads this
      ensures NoDuplicates(r)
      ensures forall c :: c in r <==> exists s :: s in stations && s.city == c
    {
      SortByNoDuplicates(Distinct(CityNames(stations)), le);
      CityListMembers(stations, le);
      GetCityList(stations, le)
    }

    /** The synchronous start of `loadStations`. The returned id stands for
        the request and its controller. */
    method StartLoad() returns (t: nat)
      requires Valid()
      modifies this`requestId, this`active, this`aborted, this`loading, this`error
      ensures Valid()
      ensures t == old(requestId) + 1 && requestId == t
      ensures active == Some(t) && IsLatest(t)
      ensures aborted == old(aborted) + (if old(active).Some? then {old(active).value} else {})
      ensures loading && error == None
    {
      t := requestId + 1;
      requestId := t;
      if active.Some? {
        aborted := aborted + {active.value};
      }
      active := Some(t);
      loading := true;
      error := None;
    }

    /** Someone aborts the controller of request `t` (the mount effect's
        cleanup does so for the first request). */
    method Abort(t: nat)
      requires Valid() && 1 <= t <= requestId
      modifies this`aborted
      ensures Valid()
      ensures aborted == old(aborted) + {t}
    {
      aborted := aborted + {t};
    }

    /** The rest of the `try` block after the fetch resolved with `data`. */
    method CompleteSuccess(t: nat, data: seq<Station>)
      requires Valid()
      modifies this`stations
      ensures Valid()
      ensures stations == if old(IsLatest(t)) then data else old(stations)
    {
      if IsLatest(t) {
        stations := data;
      }
    }

    /** The `catch` block after the fetch rejected with `thrown`. */
    method CompleteFailure(t: nat, thrown: Thrown)
      requires Valid()
      modifies this`error
      ensures Valid()
      ensures error == if old(IsLatest(t)) then Some(ErrorText(thrown)) else old(error)
    {
      if t in aborted {
        return;
      }
      if active == Some(t) {
        error := Some(ErrorText(thrown));
      }
    }

    /** The `finally` block. */
    method Finally(t: nat)
      requires Valid()
      modifies this`active, this`loading
      ensures Valid()
      ensures old(IsLatest(t)) ==> active == None && !loading
      ensures !old(IsLatest(t)) ==> active == old(active) && loading == old(loading)
    {
      if IsLatest(t) {
        active := None;
        loading := false;
      }
    }

    /** The continuation of `loadStations` once its fetch settles. Only the
        latest, non-aborted request commits; it replaces the list wholesale
        or records the error (never clearing the list), and ends `loading`.
        Anything else leaves the store exactly as it was. */
    method Settle(t: nat, outcome: Result<seq<Station>, Thrown>)
      requires Valid()
      modifies this`stations, this`error, this`active, this`loading
      ensures Valid()
      ensures old(IsLatest(t)) ==> active == None && !loading
      ensures old(IsLatest(t)) && outcome.Success? ==> stations == outcome.value && error == old(error)
      ensures old(IsLatest(t)) && outcome.Failure? ==>
        stations == old(stations) && error == Some(ErrorText(outcome.error))
      ensures !old(IsLatest(t)) ==> unchanged(this)
      ensures t != old(requestId) ==> unchanged(this)
    {
      match outcome {
        case Success(data) => CompleteSuccess(t, data);
        case Failure(thrown) => CompleteFailure(t, thrown);
      }
      Finally(t);
    }

    method SetCityFilter(city: string)
      modifies this`cityFilter
      ensures cityFilter == city
    {
      cityFilter := city;
    }

    /** `clearFilter`: the filter becomes empty, so every station is shown. */
    method ClearFilter()
      modifies this`cityFilter
      ensures cityFilter == "" && FilteredStations() == stations
    {
      cityFilter := "";
    }

    /** `setSelectedStation`: taken as given, with no check against the
        filtered list. */
    method SetSelectedStation(id: Option<real>)
      modifies this`selectedStationId
      ensures selectedStationId == id
    {
      selectedStationId := id;
    }

    /** The dangling-selection effect: it clears the selection exactly when
        the id is truthy and no filtered station has it, and afterwards the
        selection is valid for the filtered list. */
    method Reconcile()
      modifies this`selectedStationId
      ensures selectedStationId == None || selectedStationId == old(selectedStationId)
      ensures selectedStationId != old(selectedStationId) <==>
        IsTruthyId(old(selectedStationId)) && !HasId(FilteredStations(), old(selectedStationId).value)
      ensures SelectionValid(FilteredStations(), selectedStationId)
    {
      if IsTruthyId(selectedStationId) && !HasId(FilteredStations(), selectedStationId.value) {
        selectedStationId := None;
      }
    }
  }

  /** Two loads overlap and the first one's response arrives last, with a
      result or with an error: only the second one's data is kept. */
  method OverlappingLoads(first: Result<seq<Station>, Thrown>, second: seq<Station>)
    returns (stations: seq<Station>, loading: bool, error: Option<string>)
    ensures stations == second && !loading && error == None
  {
    var store := new StationStore();
    var t1 := store.StartLoad();
    var t2 := store.StartLoad();
    store.Settle(t2, Success(second));
    store.Settle(t1, first);
    stations, loading, error := store.stations, store.loading, store.error;
  }

  /** A load that fails after one that succeeded: the error is recorded,
      loading ends and the stations from before stay. */
  method FailedReloadKeepsStations(data: seq<Station>, thrown: Thrown)
    returns (stations: seq<Station>, loading: bool, error: Option<string>)
    ensures stations == data && !loading
    ensures error == Some(if thrown.ErrorInstance? then thrown.message else "Failed to load stations.")
  {
    var store := new StationStore();
    var t1 := store.StartLoad();
    store.Settle(t1, Success(data));
    var t2 := store.StartLoad();
    store.Settle(t2, Failure(thrown));
    stations, loading, error := store.stations, store.loading, store.error;
  }

  /** A request whose controller was aborted from outside settles without
      any effect: no data, no error, and `loading` stays on. */
  method AbortedLoadChangesNothing(data: seq<Station>)
    returns (stations: seq<Station>, loading: bool, error: Option<string>)
    ensures stations == [] && loading && error == None
  {
    var store := new StationStore();
    var t := store.StartLoad();
    store.Abort(t);
    store.Settle(t, Success(data));
    stations, loading, error := store.stations, store.loading, store.error;
  }

  /** A bad HTTP status reaches the store as the status message. */
  method BadStatusScenario(body: StationsApi.Json)
    returns (stations: seq<Station>, loading: bool, error: Option<string>)
    ensures stations == [] && !loading
    ensures error == Some("Failed to load stations: 503 Service Unavailable")
  {
    var store := new StationStore();
    var t := store.StartLoad();
    var response := StationsApi.Response(503, "Service Unavailable");
    assert StationsApi.DecimalString(503) == "503" by {
      assert StationsApi.DecimalString(50) == "50" by {
        assert StationsApi.DecimalString(5) == "5";
      }
    }
    assert StationsApi.StatusMessage(response) == "Failed to load stations: 503 Service Unavailable";
    assert FetchOutcome(response, body) == Failure(ErrorInstance(StationsApi.StatusMessage(response)));
    store.Settle(t, FetchOutcome(response, body));
    stations, loading, error := store.stations, store.loading, store.error;
  }

  /** The three stations of the integration test. Filtering by "Berlin"
      leaves stations 1 and 3 in order; selecting station 2 under that
      filter is undone by the effect. */
  method BerlinFilterScenario()
    returns (filtered: seq<Station>, selection: Option<real>)
    ensures |filtered| == 2
    ensures filtered[0].id == 1.0 && filtered[1].id == 3.0
    ensures selection == None
  {
    var s1 := Station(1.0, "Berlin Hbf", "Berlin", 52.5251, 13.3694);
    var s2 := Station(2.0, "Hamburg Hbf", "Hamburg", 53.553, 10.0067);
    var s3 := Station(3.0, "Berlin Ostbahnhof", "Berlin", 52.5108, 13.4348);
    var store := new StationStore();
    var t := store.StartLoad();
    store.Settle(t, Success([s1, s2, s3]));
    store.SetCityFilter("Berlin");
    assert store.FilteredStations() == [s1, s3] by {
      assert [s1, s2, s3][1..] == [s2, s3];
      assert [s2, s3][1..] == [s3];
      assert [s3][1..] == [];
      assert KeepCity([s3], "Berlin") == [s3];
      assert KeepCity([s2, s3], "Berlin") == [s3];
      assert KeepCity([s1, s2, s3], "Berlin") == [s1, s3];
    }
    store.SetSelectedStation(Some(2.0));
    store.Reconcile();
    filtered, selection := store.FilteredStations(), store.selectedStationId;
  }

  /** The city list of the integration test's stations under the
      case-insensitive comparator. */
  lemma BerlinHamburgCities()
    ensures GetCityList([Station(1.0, "Berlin Hbf", "Berlin", 52.5251, 13.3694),
                         Station(2.0, "Hamburg Hbf", "Hamburg", 53.553, 10.0067),
                         Station(3.0, "Berlin Ostbahnhof", "Berlin", 52.5108, 13.4348)],
                        CaseInsensitiveLe) == ["Berlin", "Hamburg"]
  {
    var stations := [Station(1.0, "Berlin Hbf", "Berlin", 52.5251, 13.3694),
                     Station(2.0, "Hamburg Hbf", "Hamburg", 53.553, 10.0067),
                     Station(3.0, "Berlin Ostbahnhof", "Berlin", 52.5108, 13.4348)];
    var names := CityNames(stations);
    assert names == ["Berlin", "Hamburg", "Berlin"];
    assert names[..2][..1] == ["Berlin"];
    assert Distinct(names[..2][..1]) == ["Berlin"];
    assert Distinct(names[..2]) == ["Berlin", "Hamburg"];
    assert Distinct(names) == ["Berlin", "Hamburg"];
    assert Fold("Berlin") == "berlin";
    assert Fold("Hamburg") == "hamburg";
    assert CaseInsensitiveLe("Berlin", "Hamburg");
    assert !CaseInsensitiveLe("Hamburg", "Berlin");
    assert SortBy(["Berlin"], CaseInsensitiveLe) == ["Berlin"];
  }
}
