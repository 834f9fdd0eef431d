/** The derived views of `src/services/stations.ts`: the city filter and
    the sorted, duplicate-free city list. The store's `filteredStations`
    and `cities` memos compute the same expressions and use these
    functions. */
module StationService {
  import opened StationTypes
  import opened Sorting

  /** `stations.filter((station) => station.city === city)`. */
  function KeepCity(stations: seq<Station>, city: string): (r: seq<Station>)
    ensures |r| <= |stations|
    ensures forall x :: x in r ==> x in stations && x.city == city
    ensures forall x :: x in stations && x.city == city ==> x in r
  {
    if stations == [] then []
    else (if stations[0].city == city then [stations[0]] else []) + KeepCity(stations[1..], city)
  }

  /** An empty city is falsy and means "no filter": the input itself comes
      back. Otherwise only the stations of exactly that city remain. */
  function FilterStationsByCity(stations: seq<Station>, city: string): (r: seq<Station>)
    ensures city == "" ==> r == stations
    ensures city != "" ==> forall i :: 0 <= i < |r| ==> r[i].city == city
    ensures forall x :: x in stations && x.city == city ==> x in r
  {
    if city == "" then stations else KeepCity(stations, city)
  }

  /** `a` is `b` with some elements left out, the rest in their order. */
  predicate IsSubsequence<T(==)>(a: seq<T>, b: seq<T>)
  {
    if a == [] then true
    else if b == [] then false
    else if a[0] == b[0] then IsSubsequence(a[1..], b[1..])
    else IsSubsequence(a, b[1..])
  }

  lemma {:induction false} SubsequenceOfItself<T>(s: seq<T>)
    ensures IsSubsequence(s, s)
  {
    if s != [] {
      SubsequenceOfItself(s[1..]);
    }
  }

  lemma {:induction false} KeepCityIsSubsequence(stations: seq<Station>, city: string)
    ensures IsSubsequence(KeepCity(stations, city), stations)
  {
    if stations != [] {
      KeepCityIsSubsequence(stations[1..], city);
      var r, rest := KeepCity(stations, city), KeepCity(stations[1..], city);
      if stations[0].city == city {
        assert r[0] == stations[0] && r[1..] == rest;
      } else {
        assert r == rest;
        assert r != [] ==> r[0] in rest && r[0] != stations[0];
      }
    }
  }

  lemma {:induction false} KeepCityCounts(stations: seq<Station>, city: string)
    ensures forall x: Station :: x.city == city ==>
      multiset(KeepCity(stations, city))[x] == multiset(stations)[x]
  {
    if stations != [] {
      KeepCityCounts(stations[1..], city);
      var head := if stations[0].city == city then [stations[0]] else [];
      assert KeepCity(stations, city) == head + KeepCity(stations[1..], city);
      assert stations == [stations[0]] + stations[1..];
      assert multiset(stations) == multiset([stations[0]]) + multiset(stations[1..]);
    }
  }

  /** The filter result is an order-preserving subsequence of the input that
      keeps every station of the city as often as it occurs. */
  lemma FilterIsOrderedSelection(stations: seq<Station>, city: string)
    ensures var r := FilterStationsByCity(stations, city);
      && IsSubsequence(r, stations)
      && forall x: Station :: x.city == city ==> multiset(r)[x] == multiset(stations)[x]
  {
    if city == "" {
      SubsequenceOfItself(stations);
    } else {
      KeepCityIsSubsequence(stations, city);
      KeepCityCounts(stations, city);
    }
  }

  /** A list whose stations all belong to the city passes the filter whole. */
  lemma {:induction false} KeepCityOfMatching(stations: seq<Station>, city: string)
    requires forall i :: 0 <= i < |stations| ==> stations[i].city == city
    ensures KeepCity(stations, city) == stations
  {
    if stations != [] {
      KeepCityOfMatching(stations[1..], city);
      assert stations == [stations[0]] + stations[1..];
    }
  }

  /** Filtering the filtered list again by the same city changes nothing. */
  lemma FilterIdempotent(stations: seq<Station>, city: string)
    ensures FilterStationsByCity(FilterStationsByCity(stations, city), city)
         == FilterStationsByCity(stations, city)
  {
    if city != "" {
      var r := KeepCity(stations, city);
      assert forall i :: 0 <= i < |r| ==> r[i] in r;
      KeepCityOfMatching(r, city);
    }
  }

  /** The first station the filter keeps is the first station of the city
      in the input. */
  lemma {:induction false} KeepCityFirst(stations: seq<Station>, city: string, k: nat)
    requires k < |stations| && stations[k].city == city
    ensures KeepCity(stations, city) != []
    ensures exists m :: 0 <= m <= k && stations[m] == KeepCity(stations, city)[0] &&
                        forall j :: 0 <= j < m ==> stations[j].city != city
  {
    if stations[0].city != city {
      KeepCityFirst(stations[1..], city, k - 1);
      var m :| 0 <= m <= k - 1 && stations[1..][m] == KeepCity(stations[1..], city)[0] &&
               forall j :: 0 <= j < m ==> stations[1..][j].city != city;
      assert stations[m + 1] == KeepCity(stations, city)[0];
    }
  }

  /** `stations.map((station) => station.city)`. */
  function CityNames(stations: seq<Station>): (names: seq<string>)
    ensures |names| == |stations|
    ensures forall i :: 0 <= i < |stations| ==> names[i] == stations[i].city
  {
    seq(|stations|, i requires 0 <= i < |stations| => stations[i].city)
  }

  /** `Array.from(new Set(s))`: each value once, in order of first insertion. */
  function Distinct<T(==,!new)>(s: seq<T>): (r: seq<T>)
    ensures NoDuplicates(r)
    ensures forall x :: x in r <==> x in s
  {
    if s == [] then []
    else
      var u := Distinct(s[..|s| - 1]);
      assert forall x :: x in s <==> x in s[..|s| - 1] || x == s[|s| - 1] by {
        assert s == s[..|s| - 1] + [s[|s| - 1]];
      }
      if s[|s| - 1] in u then u else u + [s[|s| - 1]]
  }

  /** The values of `u` stand in the order of their first occurrences in `s`. */
  ghost predicate InFirstOccurrenceOrder<T>(s: seq<T>, u: seq<T>)
  {
    forall i, j :: 0 <= i < j < |u| ==>
      u[i] in s && u[j] in s && FirstIndex(s, u[i]) < FirstIndex(s, u[j])
  }

  /** The set keeps insertion order. */
  lemma {:induction false} DistinctKeepsFirstOccurrenceOrder<T(!new)>(s: seq<T>)
    ensures InFirstOccurrenceOrder(s, Distinct(s))
  {
    if s != [] {
      var s0, x := s[..|s| - 1], s[|s| - 1];
      assert s == s0 + [x];
      DistinctKeepsFirstOccurrenceOrder(s0);
      var u0 := Distinct(s0);
      var u := Distinct(s);
      assert u == u0 || u == u0 + [x];
      forall i, j | 0 <= i < j < |u|
        ensures u[i] in s && u[j] in s && FirstIndex(s, u[i]) < FirstIndex(s, u[j])
      {
        assert u[i] == u0[i] && u[i] in s0;
        FirstIndexOfPrefix(s0, x, u[i]);
        if j < |u0| {
          assert u[j] == u0[j] && u[j] in s0;
          FirstIndexOfPrefix(s0, x, u[j]);
        } else {
          assert u[j] == x && x !in s0;
          FirstIndexOfNewLast(s0, x);
        }
      }
    }
  }

  /** `getCityList`: the distinct city names, sorted by the comparator. */
  function GetCityList(stations: seq<Station>, le: (string, string) -> bool): (r: seq<string>)
    ensures forall c :: c in r <==> c in CityNames(stations)
  {
    var u := Distinct(CityNames(stations));
    var r := SortBy(u, le);
    assert forall c :: c in r <==> c in multiset(r);
    assert forall c :: c in u <==> c in multiset(u);
    r
  }

  lemma CityListMembers(stations: seq<Station>, le: (string, string) -> bool)
    ensures forall c :: c in GetCityList(stations, le) <==> exists s :: s in stations && s.city == c
  {
    var names := CityNames(stations);
    var r := GetCityList(stations, le);
    forall c
      ensures c in r <==> exists s :: s in stations && s.city == c
    {
      assert c in r <==> c in multiset(Distinct(names));
      if c in names {
        var k :| 0 <= k < |names| && names[k] == c;
        assert stations[k] in stations;
      }
    }
  }

  lemma CityListStable(stations: seq<Station>, le: (string, string) -> bool)
    requires TotalPreorder(le)
    ensures StableWrt(le, CityNames(stations), GetCityList(stations, le))
  {
    var names := CityNames(stations);
    var u := Distinct(names);
    var r := GetCityList(stations, le);
    SortByStable(u, le);
    DistinctKeepsFirstOccurrenceOrder(names);
    forall i, j | 0 <= i < j < |r| && Equivalent(le, r[i], r[j])
      ensures r[i] in names && r[j] in names && FirstIndex(names, r[i]) < FirstIndex(names, r[j])
    {
      assert r[i] in u && r[j] in u;
      var a, b := FirstIndex(u, r[i]), FirstIndex(u, r[j]);
      assert a < b;
      assert u[a] == r[i] && u[b] == r[j];
      assert FirstIndex(names, u[a]) < FirstIndex(names, u[b]);
    }
  }

  /** The city list holds every city that occurs and nothing else, each
      once (duplicates collapse by exact equality only); it is sorted by the
      comparator, and cities the comparator ties keep the order in which
      they first occur in the station list. */
  lemma CityListProperties(stations: seq<Station>, le: (string, string) -> bool)
    requires TotalPreorder(le)
    ensures var r := GetCityList(stations, le);
      && NoDuplicates(r)
      && (forall c :: c in r <==> exists s :: s in stations && s.city == c)
      && Sorted(le, r)
      && StableWrt(le, CityNames(stations), r)
  {
    var u := Distinct(CityNames(stations));
    SortByNoDuplicates(u, le);
    SortBySorted(u, le);
    CityListMembers(stations, le);
    CityListStable(stations, le);
  }
}
