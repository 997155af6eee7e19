/** The batch half of the weather fetcher: one request per point, each
    labelled "<city>, <country>", with the readings collected in the order
    of the points. The concurrent gather is modelled as a sequential map,
    since the gather returns results in the order of its arguments. */
module FetchCoordinator {
  import opened WeatherClient

  /** One row of the city list: the capital, its country and its
      coordinates (coordinates only feed the request URL). */
  datatype City = City(city: string, country: string, latitude: real, longitude: real)

  /** The display label of a point: the city, then ", ", then the country. */
  function FullName(c: City): (r: string)
    ensures |r| == |c.city| + 2 + |c.country|
    ensures r[..|c.city|] == c.city
    ensures r[|c.city|..|c.city| + 2] == ", "
    ensures r[|c.city| + 2..] == c.country
  {
    c.city + ", " + c.country
  }

  /** The position of the first comma in a label, or its length if it has none. */
  function CommaIndex(s: string): (i: nat)
    ensures i <= |s|
    ensures forall k :: 0 <= k < i ==> s[k] != ','
    ensures i < |s| ==> s[i] == ','
  {
    if s == [] || s[0] == ',' then 0 else 1 + CommaIndex(s[1..])
  }

  /** Splits a label at its first comma into the city and the country,
      the inverse of FullName for city names without a comma. */
  function SplitLabel(s: string): (r: (string, string))
  {
    var i := CommaIndex(s);
    if i + 2 <= |s| then (s[..i], s[i + 2..]) else (s, "")
  }

  /** Round trip: splitting the label of a point whose city name holds no
      comma gives back its city and country. */
  lemma SplitFullName(c: City)
    requires ',' !in c.city
    ensures SplitLabel(FullName(c)) == (c.city, c.country)
  {
    var s := FullName(c);
    assert s[|c.city|] == ',';
    assert forall k :: 0 <= k < |c.city| ==> s[k] == c.city[k];
    assert CommaIndex(s) == |c.city|;
  }

  /** As long as city names contain no comma, two points share a label
      exactly when they share city and country: the label then identifies
      the point. */
  lemma FullNameInjective(a: City, b: City)
    requires ',' !in a.city && ',' !in b.city
    requires FullName(a) == FullName(b)
    ensures a.city == b.city && a.country == b.country
  {
    SplitFullName(a);
    SplitFullName(b);
  }

  /** With a comma inside a city name the label no longer identifies the
      point: "A, B" in "C" and "A" in "B, C" both become "A, B, C". */
  lemma FullNameAmbiguousWithComma()
    ensures FullName(City("A, B", "C", 0.0, 0.0)) == FullName(City("A", "B, C", 0.0, 0.0))
  {
  }

  /** The readings of a batch: point i gets the label of city i and the
      reading normalised from the i-th answer of the API. */
  function Batch(cities: seq<City>, answers: seq<Response>): (r: seq<Reading>)
    requires |answers| == |cities|
    ensures |r| == |cities|
    ensures forall i :: 0 <= i < |r| ==> r[i] == GetWeather(FullName(cities[i]), answers[i])
  {
    if cities == [] then []
    else [GetWeather(FullName(cities[0]), answers[0])] + Batch(cities[1..], answers[1..])
  }

  /** The batch of a concatenated city list is the concatenation of the
      batches: the readings of one point never depend on another point. */
  lemma BatchAppend(c1: seq<City>, a1: seq<Response>, c2: seq<City>, a2: seq<Response>)
    requires |a1| == |c1| && |a2| == |c2|
    ensures Batch(c1 + c2, a1 + a2) == Batch(c1, a1) + Batch(c2, a2)
  {
  }

  /** A point's reading carries the error marker exactly when its own
      request did not answer 200; one failure never touches the others. */
  lemma BatchFailureIsolation(cities: seq<City>, answers: seq<Response>, i: nat)
    requires |answers| == |cities| && i < |cities|
    ensures IsError(Batch(cities, answers)[i]) <==> answers[i].status != StatusOk
    ensures Batch(cities, answers)[i].capital == FullName(cities[i])
  {
  }

  /** When every request answers 200 no reading carries the error marker. */
  lemma BatchAllOk(cities: seq<City>, answers: seq<Response>)
    requires |answers| == |cities|
    requires forall i :: 0 <= i < |answers| ==> answers[i].status == StatusOk
    ensures forall i :: 0 <= i < |cities| ==> !IsError(Batch(cities, answers)[i])
  {
  }

  /** Builds one pending request per point, in order, with its label, and
      then joins them all; the i-th answer of the API is `answers[i]`. */
  method FetchWeatherForAll(cities: seq<City>, answers: seq<Response>) returns (results: seq<Reading>)
    requires |answers| == |cities|
    ensures |results| == |cities|
    ensures forall i :: 0 <= i < |results| ==> results[i] == GetWeather(FullName(cities[i]), answers[i])
    ensures results == Batch(cities, answers)
  {
    var tasks: seq<string> := [];
    for i := 0 to |cities|
      invariant |tasks| == i
      invariant forall k :: 0 <= k < i ==> tasks[k] == FullName(cities[k])
    {
      var cityFullName := FullName(cities[i]);
      tasks := tasks + [cityFullName];
    }
    results := [];
    for i := 0 to |tasks|
      invariant |results| == i
      invariant forall k :: 0 <= k < i ==> results[k] == GetWeather(tasks[k], answers[k])
    {
      results := results + [GetWeather(tasks[i], answers[i])];
    }
    assert forall k :: 0 <= k < |results| ==> results[k] == Batch(cities, answers)[k];
  }
}
