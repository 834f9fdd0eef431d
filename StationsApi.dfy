/** `src/api/stations.ts`: the structural check of one payload entry and
    the guard chain `fetchStations` applies to the HTTP response. The
    request itself and the body parser are outside the model: the response
    status, its status text and the parsed JSON value are inputs. */
module StationsApi {
  import opened Wrappers
  import opened StationTypes

  /** A parsed JSON value. Numbers are kept exact. */
  datatype Json =
    | JNull
    | JBool(b: bool)
    | JNumber(n: real)
    | JString(s: string)
    | JArray(items: seq<Json>)
    | JObject(fields: map<string, Json>)

  /** What JavaScript's `typeof` reports for a value; `undefined` is what a
      missing property reads as. */
  datatype TypeTag = TUndefined | TObject | TBoolean | TNumber | TString

  /** JavaScript truthiness: `null`, `false`, `0` and `""` are falsy; every
      array and object is truthy. */
  predicate Truthy(v: Json)
  {
    match v
    case JNull => false
    case JBool(b) => b
    case JNumber(n) => n != 0.0
    case JString(s) => s != ""
    case JArray(_) => true
    case JObject(_) => true
  }

  function TypeOf(v: Json): TypeTag
  {
    match v
    case JNull => TObject
    case JBool(_) => TBoolean
    case JNumber(_) => TNumber
    case JString(_) => TString
    case JArray(_) => TObject
    case JObject(_) => TObject
  }

  /** `typeof record[key]`. An array has no property named like a station
      field (those names are neither indices nor `length`), so every such
      lookup on it is `undefined`. */
  function TypeOfProperty(v: Json, key: string): TypeTag
  {
    match v
    case JObject(fields) => if key in fields then TypeOf(fields[key]) else TUndefined
    case _ => TUndefined
  }

  /** `isStation`: a truthy object whose `id`, `lat`, `lng` are numbers and
      whose `name`, `city` are strings. Other properties do not matter. */
  predicate IsStation(v: Json)
    ensures IsStation(v) ==> v.JObject? && Truthy(v)
    ensures IsStation(v) ==>
      && "id" in v.fields && "name" in v.fields && "city" in v.fields
      && "lat" in v.fields && "lng" in v.fields
  {
    if !Truthy(v) || TypeOf(v) != TObject then false
    else
      && TypeOfProperty(v, "id") == TNumber
      && TypeOfProperty(v, "name") == TString
      && TypeOfProperty(v, "city") == TString
      && TypeOfProperty(v, "lat") == TNumber
      && TypeOfProperty(v, "lng") == TNumber
  }

  /** The check stated on the shape of the value: it holds exactly of JSON
      objects carrying the five fields with the right kinds of value. */
  lemma IsStationShape(v: Json)
    ensures IsStation(v) <==>
      && v.JObject?
      && "id" in v.fields && v.fields["id"].JNumber?
      && "name" in v.fields && v.fields["name"].JString?
      && "city" in v.fields && v.fields["city"].JString?
      && "lat" in v.fields && v.fields["lat"].JNumber?
      && "lng" in v.fields && v.fields["lng"].JNumber?
    ensures !Truthy(v) ==> !IsStation(v)
    ensures v.JArray? || v.JNumber? || v.JString? || v.JBool? || v.JNull? ==> !IsStation(v)
  {
  }

  /** The station a valid entry describes: the same object, read through
      the `Station` type. */
  function AsStation(v: Json): (s: Station)
    requires IsStation(v)
    ensures JNumber(s.id) == v.fields["id"] && JString(s.name) == v.fields["name"]
    ensures JString(s.city) == v.fields["city"]
    ensures JNumber(s.lat) == v.fields["lat"] && JNumber(s.lng) == v.fields["lng"]
  {
    Station(v.fields["id"].n, v.fields["name"].s, v.fields["city"].s,
            v.fields["lat"].n, v.fields["lng"].n)
  }

  /** A station written out as the JSON object the endpoint would serve. */
  function StationJson(s: Station): Json
  {
    JObject(map["id" := JNumber(s.id), "name" := JString(s.name), "city" := JString(s.city),
                "lat" := JNumber(s.lat), "lng" := JNumber(s.lng)])
  }

  /** Every station, written out, passes the check and reads back as itself. */
  lemma StationJsonRoundTrip(s: Station)
    ensures IsStation(StationJson(s)) && AsStation(StationJson(s)) == s
  {
    var f := StationJson(s).fields;
    assert f["id"] == JNumber(s.id) && f["name"] == JString(s.name) && f["city"] == JString(s.city);
    assert f["lat"] == JNumber(s.lat) && f["lng"] == JNumber(s.lng);
  }

  /** The parts of the HTTP response the guards look at. */
  datatype Response = Response(status: nat, statusText: string)

  /** `response.ok`: a status in the range 200 to 299. */
  predicate IsOk(r: Response)
  {
    200 <= r.status <= 299
  }

  function DigitChar(d: nat): (c: char)
    requires d < 10
    ensures '0' <= c <= '9'
  {
    ('0' as int + d) as char
  }

  /** The decimal numeral of `n`, without leading zeros, as a template
      literal renders a number. */
  function DecimalString(n: nat): (s: string)
    ensures |s| >= 1
    ensures forall i :: 0 <= i < |s| ==> '0' <= s[i] <= '9'
    ensures |s| > 1 ==> s[0] != '0'
  {
    if n < 10 then [DigitChar(n)] else DecimalString(n / 10) + [DigitChar(n % 10)]
  }

  /** Reading a numeral back. */
  function DecimalValue(s: string): nat
    requires forall i :: 0 <= i < |s| ==> '0' <= s[i] <= '9'
  {
    if s == [] then 0 else 10 * DecimalValue(s[..|s| - 1]) + (s[|s| - 1] as int - '0' as int)
  }

  /** The numeral in the status message names the status exactly. */
  lemma {:induction false} DecimalRoundTrip(n: nat)
    ensures DecimalValue(DecimalString(n)) == n
  {
    var s := DecimalString(n);
    if n >= 10 {
      DecimalRoundTrip(n / 10);
      assert s[..|s| - 1] == DecimalString(n / 10);
    }
  }

  const StatusMessagePrefix := "Failed to load stations: "
  const NotArrayMessage := "Stations response is not an array."
  const InvalidEntriesMessage := "Stations response has invalid entries."

  function StatusMessage(r: Response): string
  {
    StatusMessagePrefix + DecimalString(r.status) + " " + r.statusText
  }

  /** The guard chain of `fetchStations` once the body is parsed: each
      failure is the message of the `Error` the source throws. */
  function FetchStations(response: Response, body: Json): (r: Result<seq<Station>, string>)
    ensures r.Success? <==>
      IsOk(response) && body.JArray? && forall e :: e in body.items ==> IsStation(e)
    ensures r.Success? ==> |r.value| == |body.items|
    ensures r.Success? ==> forall i :: 0 <= i < |r.value| ==>
      IsStation(body.items[i]) && r.value[i] == AsStation(body.items[i])
  {
    if !IsOk(response) then Failure(StatusMessage(response))
    else if !body.JArray? then Failure(NotArrayMessage)
    else if exists e :: e in body.items && !IsStation(e) then Failure(InvalidEntriesMessage)
    else Success(seq(|body.items|, i requires 0 <= i < |body.items| => AsStation(body.items[i])))
  }

  /** The failures come in the source's order: a bad status is reported
      before the body is looked at, then a body that is no array, then an
      array with a bad entry. */
  lemma FetchFailureOrder(response: Response, body: Json)
    ensures !IsOk(response) ==> FetchStations(response, body) == Failure(StatusMessage(response))
    ensures IsOk(response) && !body.JArray? ==> FetchStations(response, body) == Failure(NotArrayMessage)
    ensures IsOk(response) && body.JArray? && (exists i :: 0 <= i < |body.items| && !IsStation(body.items[i]))
      ==> FetchStations(response, body) == Failure(InvalidEntriesMessage)
  {
    if IsOk(response) && body.JArray? && (exists i :: 0 <= i < |body.items| && !IsStation(body.items[i])) {
      var i :| 0 <= i < |body.items| && !IsStation(body.items[i]);
      assert body.items[i] in body.items;
    }
  }

  /** A failed status gives a message that starts with the fixed prefix,
      names the status in decimal and ends with the status text; whatever
      the body holds does not matter. */
  lemma StatusFailureIgnoresBody(response: Response, body1: Json, body2: Json)
    requires !IsOk(response)
    ensures FetchStations(response, body1) == FetchStations(response, body2)
    ensures var m := FetchStations(response, body1).error;
      && m[..|StatusMessagePrefix|] == StatusMessagePrefix
      && m[|m| - |response.statusText|..] == response.statusText
      && DecimalValue(m[|StatusMessagePrefix|..|m| - |response.statusText| - 1]) == response.status
  {
    var m := FetchStations(response, body1).error;
    var d := DecimalString(response.status);
    assert m == StatusMessagePrefix + d + " " + response.statusText;
    assert m[|StatusMessagePrefix|..|m| - |response.statusText| - 1] == d;
    DecimalRoundTrip(response.status);
  }

  /** Serving a list of stations with a good status hands back that same
      list, in order; the empty list included. */
  lemma FetchRoundTrip(response: Response, stations: seq<Station>)
    requires IsOk(response)
    ensures FetchStations(response, JArray(seq(|stations|, i requires 0 <= i < |stations| => StationJson(stations[i]))))
         == Success(stations)
  {
    var items := seq(|stations|, i requires 0 <= i < |stations| => StationJson(stations[i]));
    forall i | 0 <= i < |stations|
      ensures IsStation(items[i]) && AsStation(items[i]) == stations[i]
    {
      StationJsonRoundTrip(stations[i]);
    }
    var r := FetchStations(response, JArray(items));
    assert r.Success?;
    assert r.value == stations;
  }
}
