/** `src/components/map/MapController.tsx`: the debounced viewport
    controller. The timer callback picks exactly one command from its
    inputs and the map's zoom at the moment it runs; the effect keeps at
    most one timer pending in `debounceRef`. Time itself is not modelled:
    an input change, the timer firing and the teardown are discrete events. */
module MapController {
  import opened Wrappers
  import opened StationTypes
  import opened MapCommands

  /** What the scheduled callback closed over: the component's props. */
  datatype ViewInputs = ViewInputs(
    selected: Option<Station>,
    filtered: seq<Station>,
    all: seq<Station>,
    defaultCenter: LatLng,
    defaultZoom: real)

  /** The stations to show: the filtered ones if there are any, else all. */
  function ActiveStations(filtered: seq<Station>, all: seq<Station>): (r: seq<Station>)
    ensures r == filtered || r == all
    ensures |filtered| > 0 ==> r == filtered
    ensures r == [] ==> filtered == [] && all == []
  {
    if |filtered| > 0 then filtered else all
  }

  function Positions(stations: seq<Station>): (ps: seq<LatLng>)
    ensures |ps| == |stations|
    ensures forall i :: 0 <= i < |stations| ==> ps[i] == Position(stations[i])
  {
    seq(|stations|, i requires 0 <= i < |stations| => Position(stations[i]))
  }

  /** The timer callback's priority chain; every branch ends in one command. */
  function ChooseCommand(v: ViewInputs, currentZoom: real): (c: Command)
    ensures c.FlyTo? <==> v.selected.Some?
    ensures c.FitBounds? <==> v.selected.None? && |ActiveStations(v.filtered, v.all)| >= 2
    ensures c.SetView? <==> v.selected.None? && |ActiveStations(v.filtered, v.all)| <= 1
  {
    if v.selected.Some? then
      FlyTo(Position(v.selected.value), Max(currentZoom, StationZoom), FlyDuration)
    else
      var active := ActiveStations(v.filtered, v.all);
      if |active| == 0 then SetView(v.defaultCenter, Some(v.defaultZoom))
      else if |active| == 1 then SetView(Position(active[0]), Some(Max(currentZoom, StationZoom)))
      else FitBounds(BoundsOf(Positions(active)), 40, 40, 8.0)
  }

  /** The command brings the point into view: it is the centre of a fly or
      a set-view, or lies in the box being fitted. */
  predicate Shows(c: Command, p: LatLng)
  {
    match c
    case FlyTo(center, _, _) => center == p
    case SetView(center, _) => center == p
    case FitBounds(b, _, _, _) => Contains(b, p)
  }

  /** What the chosen command achieves. A selection wins: the map flies to
      it at the larger of the current zoom and 9. Without one, every
      active station is brought into view; a lone station is centred at
      the larger of the current zoom and 9; several are fitted into their smallest box with
      padding 40 and zoom capped at 8; no station at all resets the view
      to the default centre and zoom. */
  lemma ChosenCommandShowsTargets(v: ViewInputs, currentZoom: real)
    ensures var c := ChooseCommand(v, currentZoom);
      && (v.selected.Some? ==>
            c.FlyTo? && Shows(c, Position(v.selected.value)) &&
            c.zoom >= currentZoom && c.zoom >= StationZoom && c.duration == FlyDuration &&
            (c.zoom == currentZoom || c.zoom == StationZoom))
      && (v.selected.None? ==>
            forall s :: s in ActiveStations(v.filtered, v.all) ==> Shows(c, Position(s)))
      && (v.selected.None? && v.filtered == [] && v.all == [] ==>
            c == SetView(v.defaultCenter, Some(v.defaultZoom)))
      && (v.selected.None? && |ActiveStations(v.filtered, v.all)| == 1 ==>
            c.SetView? && c.newZoom.Some? && c.newZoom.value >= currentZoom && c.newZoom.value >= StationZoom &&
            (c.newZoom.value == currentZoom || c.newZoom.value == StationZoom))
      && (v.selected.None? && |ActiveStations(v.filtered, v.all)| >= 2 ==>
            c.FitBounds? && c.paddingX == 40 && c.paddingY == 40 && c.maxZoom == 8.0 &&
            c.bounds == BoundsOf(Positions(ActiveStations(v.filtered, v.all))))
  {
    var c := ChooseCommand(v, currentZoom);
    if v.selected.None? {
      var active := ActiveStations(v.filtered, v.all);
      forall s | s in active
        ensures Shows(c, Position(s))
      {
        var i :| 0 <= i < |active| && active[i] == s;
        if |active| >= 2 {
          assert Positions(active)[i] == Position(s);
        }
      }
    }
  }

  class Debouncer {
    /** `debounceRef`: the inputs of the callback whose timer is still
        pending, if any. */
    var pending: Option<ViewInputs>

    constructor ()
      ensures pending == None
    {
      pending := None;
    }

    /** An input changed: the pending timer, if any, is cleared and a new
        one is scheduled with the new inputs (last write wins). */
    method Change(v: ViewInputs)
      modifies this
      ensures pending == Some(v)
    {
      pending := None;     // `clearTimeout` of the pending timer
      pending := Some(v);  // `setTimeout` with the new inputs
    }

    /** The quiet period elapsed: the pending callback runs once with the
        map's zoom at that moment. With no timer pending nothing runs. */
    method Fire(currentZoom: real) returns (c: Option<Command>)
      modifies this
      ensures old(pending).Some? ==> c == Some(ChooseCommand(old(pending).value, currentZoom))
      ensures old(pending).None? ==> c == None
      ensures pending == None
    {
      if pending.Some? {
        c := Some(ChooseCommand(pending.value, currentZoom));
      } else {
        c := None;
      }
      pending := None;
    }

    /** The effect's cleanup on unmount: the pending timer is cleared. */
    method Teardown()
      modifies this
      ensures pending == None
    {
      pending := None;
    }
  }

  /** Three changes in quick succession, then the quiet period: one command,
      computed from the last inputs only, and nothing more afterwards. */
  method RapidChanges(a: ViewInputs, b: ViewInputs, last: ViewInputs, zoom: real)
    returns (first: Option<Command>, second: Option<Command>)
    ensures first == Some(ChooseCommand(last, zoom))
    ensures second == None
  {
    var d := new Debouncer();
    d.Change(a);
    d.Change(b);
    d.Change(last);
    first := d.Fire(zoom);
    second := d.Fire(zoom);
  }

  /** A change followed by teardown: the timer never fires a command. */
  method TeardownCancels(v: ViewInputs, zoom: real) returns (fired: Option<Command>)
    ensures fired == None
  {
    var d := new Debouncer();
    d.Change(v);
    d.Teardown();
    fired := d.Fire(zoom);
  }
}
