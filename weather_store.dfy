/** The process-wide weather store: the list of readings that a refresh
    replaces wholesale and that a removal prunes by label. */
module WeatherStore {
  import opened WeatherClient
  import opened FetchCoordinator

  datatype Option<T> = None | Some(value: T)

  /** What loading the city list produced: the rows, or a failure (a
      missing or unreadable file, a missing column, a coordinate that is
      not a number), which aborts the refresh. */
  datatype Load = Loaded(cities: seq<City>) | LoadFailed

  /** The outcome of a removal request: success, or "City not found",
      which the HTTP layer reports with status 404. */
  datatype RemoveOutcome = Removed | NotFound

  /** Some reading in `s` is labelled `name`. */
  predicate HasLabel(s: seq<Reading>, name: string) {
    exists i :: 0 <= i < |s| && s[i].capital == name
  }

  /** No two readings in `s` share a label. */
  predicate LabelsUnique(s: seq<Reading>) {
    forall i, j :: 0 <= i < j < |s| ==> s[i].capital != s[j].capital
  }

  /** The number of readings in `s` labelled `name`. */
  function Count(s: seq<Reading>, name: string): (n: nat)
    ensures n <= |s|
    ensures n > 0 <==> HasLabel(s, name)
  {
    if s == [] then 0
    else
      assert forall i :: 1 <= i < |s| ==> s[i] == s[1..][i - 1];
      (if s[0].capital == name then 1 else 0) + Count(s[1..], name)
  }

  /** The position of the first reading labelled `name`, if there is one:
      the entry the removal request looks up before removing anything. */
  function FirstWithLabel(s: seq<Reading>, name: string): (r: Option<nat>)
    ensures r.None? <==> !HasLabel(s, name)
    ensures r.Some? ==> r.value < |s| && s[r.value].capital == name
    ensures r.Some? ==> forall j :: 0 <= j < r.value ==> s[j].capital != name
  {
    if s == [] then None
    else if s[0].capital == name then Some(0)
    else
      match FirstWithLabel(s[1..], name)
      case None => None
      case Some(i) => Some(i + 1)
  }

  /** The readings of `s` that are not labelled `name`, in their order. */
  function WithoutLabel(s: seq<Reading>, name: string): (r: seq<Reading>)
    ensures forall i :: 0 <= i < |r| ==> r[i].capital != name
    ensures forall x :: x in r ==> x in s
    ensures |r| == |s| - Count(s, name)
  {
    if s == [] then []
    else if s[0].capital == name then WithoutLabel(s[1..], name)
    else [s[0]] + WithoutLabel(s[1..], name)
  }

  /** Filtering a concatenation filters each part. */
  lemma {:induction false} WithoutLabelAppend(a: seq<Reading>, b: seq<Reading>, name: string)
    ensures WithoutLabel(a + b, name) == WithoutLabel(a, name) + WithoutLabel(b, name)
  {
    if a != [] {
      assert (a + b)[0] == a[0] && (a + b)[1..] == a[1..] + b;
      WithoutLabelAppend(a[1..], b, name);
      if a[0].capital != name {
        assert [a[0]] + (WithoutLabel(a[1..], name) + WithoutLabel(b, name))
            == ([a[0]] + WithoutLabel(a[1..], name)) + WithoutLabel(b, name);
      }
    } else {
      assert a + b == b;
    }
  }

  /** The positions in `s` of the readings not labelled `name`, ascending. */
  function KeptIndices(s: seq<Reading>, name: string): (ix: seq<nat>)
    ensures forall k :: 0 <= k < |ix| ==> ix[k] < |s| && s[ix[k]].capital != name
    ensures forall j, k :: 0 <= j < k < |ix| ==> ix[j] < ix[k]
    ensures forall i :: 0 <= i < |s| && s[i].capital != name ==> i in ix
  {
    if s == [] then []
    else
      var front := KeptIndices(s[..|s| - 1], name);
      assert forall k :: 0 <= k < |front| ==> s[front[k]] == s[..|s| - 1][front[k]];
      front + (if s[|s| - 1].capital != name then [|s| - 1] else [])
  }

  /** WithoutLabel keeps every reading with a different label, and only
      those, in their original relative order: its k-th element is the
      reading at the k-th position listed by KeptIndices, which lists, in
      strictly increasing order, exactly the positions whose label differs
      from `name`. */
  lemma {:induction false} WithoutLabelKeepsOthersInOrder(s: seq<Reading>, name: string)
    ensures |KeptIndices(s, name)| == |WithoutLabel(s, name)|
    ensures forall k :: 0 <= k < |KeptIndices(s, name)| ==>
      WithoutLabel(s, name)[k] == s[KeptIndices(s, name)[k]]
  {
    if s != [] {
      var n := |s| - 1;
      var front, last := s[..n], s[n];
      assert s == front + [last];
      WithoutLabelKeepsOthersInOrder(front, name);
      WithoutLabelAppend(front, [last], name);
      assert WithoutLabel([last], name) == if last.capital != name then [last] else [] by {
        assert [last][1..] == [];
      }
      var ixf, rf := KeptIndices(front, name), WithoutLabel(front, name);
      var ix, r := KeptIndices(s, name), WithoutLabel(s, name);
      assert ix == ixf + (if last.capital != name then [n] else []);
      assert r == rf + (if last.capital != name then [last] else []);
      forall k | 0 <= k < |ix| ensures r[k] == s[ix[k]] {
        if k < |ixf| {
          assert r[k] == rf[k] == front[ixf[k]];
        }
      }
    }
  }

  /** A batch of points whose city names hold no comma and whose
      (city, country) pairs are distinct has distinct labels. */
  lemma BatchLabelsUnique(cities: seq<City>, answers: seq<Response>)
    requires |answers| == |cities|
    requires forall i :: 0 <= i < |cities| ==> ',' !in cities[i].city
    requires forall i, j :: 0 <= i < j < |cities| ==>
      (cities[i].city, cities[i].country) != (cities[j].city, cities[j].country)
    ensures LabelsUnique(Batch(cities, answers))
  {
    var b := Batch(cities, answers);
    forall i, j | 0 <= i < j < |b| ensures b[i].capital != b[j].capital {
      if b[i].capital == b[j].capital {
        FullNameInjective(cities[i], cities[j]);
      }
    }
  }

  /** Removing a label keeps the labels of what remains distinct. */
  lemma {:induction false} WithoutLabelKeepsUnique(s: seq<Reading>, name: string)
    requires LabelsUnique(s)
    ensures LabelsUnique(WithoutLabel(s, name))
  {
    if s != [] {
      var t := s[1..];
      assert LabelsUnique(t) by {
        assert forall i :: 0 <= i < |t| ==> t[i] == s[i + 1];
      }
      WithoutLabelKeepsUnique(t, name);
      if s[0].capital != name {
        var r := WithoutLabel(t, name);
        forall x | x in r ensures x.capital != s[0].capital {
          var i :| 0 <= i < |t| && t[i] == x;
          assert s[i + 1] == x;
        }
      }
    }
  }

  /** When labels are unique, a label that is present occurs exactly once. */
  lemma {:induction false} CountUnique(s: seq<Reading>, name: string)
    requires LabelsUnique(s) && HasLabel(s, name)
    ensures Count(s, name) == 1
  {
    var t := s[1..];
    assert LabelsUnique(t) by {
      assert forall i :: 0 <= i < |t| ==> t[i] == s[i + 1];
    }
    if s[0].capital == name {
      assert !HasLabel(t, name) by {
        assert forall i :: 0 <= i < |t| ==> t[i] == s[i + 1];
      }
    } else {
      var i :| 0 <= i < |s| && s[i].capital == name;
      assert t[i - 1].capital == name;
      CountUnique(t, name);
    }
  }

  /** What a removal request does to the readings `s`: not-found and no
      change when no reading is labelled `name`; otherwise success, with
      every reading labelled `name` gone. */
  function RemoveFrom(s: seq<Reading>, name: string): (r: (RemoveOutcome, seq<Reading>))
    ensures r.0 == NotFound <==> !HasLabel(s, name)
    ensures r.0 == NotFound ==> r.1 == s
    ensures r.0 == Removed ==> !HasLabel(r.1, name) && |r.1| < |s|
  {
    if !HasLabel(s, name) then (NotFound, s) else (Removed, WithoutLabel(s, name))
  }

  /** Removing a present label drops exactly the readings it matches:
      the size falls by their number (at least one) and nothing else moves. */
  lemma RemovePresent(s: seq<Reading>, name: string)
    requires HasLabel(s, name)
    ensures RemoveFrom(s, name) == (Removed, WithoutLabel(s, name))
    ensures |RemoveFrom(s, name).1| == |s| - Count(s, name) && Count(s, name) >= 1
  {
  }

  /** Removing the same label twice: success first, then not-found with
      the readings left as the first removal made them. */
  lemma RemoveTwice(s: seq<Reading>, name: string)
    requires HasLabel(s, name)
    ensures RemoveFrom(s, name).0 == Removed
    ensures RemoveFrom(RemoveFrom(s, name).1, name) == (NotFound, RemoveFrom(s, name).1)
  {
  }

  /** With unique labels a successful removal takes out exactly one
      reading and the labels stay unique. */
  lemma RemoveUniqueDropsOne(s: seq<Reading>, name: string)
    requires LabelsUnique(s) && HasLabel(s, name)
    ensures |RemoveFrom(s, name).1| == |s| - 1
    ensures LabelsUnique(RemoveFrom(s, name).1)
  {
    CountUnique(s, name);
    WithoutLabelKeepsUnique(s, name);
  }

  /** Holder of the current readings (the module-level list of the web app). */
  class Store {
    var data: seq<Reading>

    /** The process starts with no readings. */
    constructor ()
      ensures data == []
    {
      data := [];
    }

    /** Swaps in a new list of readings, discarding all earlier ones. */
    method Replace(batch: seq<Reading>)
      modifies this
      ensures data == batch
    {
      data := batch;
    }

    /** The refresh request: load the city list, fetch every point (the
        i-th answer of the API being `answers[i]`), replace the store with
        the batch and return it. A failed load aborts before the store is
        touched. */
    method FetchWeather(load: Load, answers: seq<Response>) returns (r: Option<seq<Reading>>)
      requires load.Loaded? ==> |answers| == |load.cities|
      modifies this
      ensures load.LoadFailed? ==> r == None && data == old(data)
      ensures load.Loaded? ==> data == Batch(load.cities, answers) && r == Some(data)
    {
      if load.LoadFailed? {
        return None;
      }
      var results := FetchWeatherForAll(load.cities, answers);
      Replace(results);
      r := Some(data);
    }

    /** The removal request: look up the first reading labelled `name`;
        report not-found if there is none, otherwise keep only the readings
        with a different label. */
    method RemoveCity(name: string) returns (outcome: RemoveOutcome)
      modifies this
      ensures (outcome, data) == RemoveFrom(old(data), name)
    {
      var cityToRemove := FirstWithLabel(data, name);
      if cityToRemove.None? {
        return NotFound;
      }
      data := WithoutLabel(data, name);
      outcome := Removed;
    }
  }

  /** The two-city example: Paris and Berlin both answer 200. The refresh
      yields their readings in order; removing "Paris, FR" leaves Berlin,
      and removing it again is not-found. */
  lemma ParisBerlinExample()
    ensures var paris := City("Paris", "FR", 48.85, 2.35);
      var berlin := City("Berlin", "DE", 52.52, 13.40);
      var batch := Batch([paris, berlin], [Response(200, 12.5), Response(200, 9.0)]);
      var berlinReading := Reading("Berlin, DE", Degrees(9.0));
      batch == [Reading("Paris, FR", Degrees(12.5)), berlinReading]
      && RemoveFrom(batch, "Paris, FR") == (Removed, [berlinReading])
      && RemoveFrom([berlinReading], "Paris, FR") == (NotFound, [berlinReading])
  {
    var paris := City("Paris", "FR", 48.85, 2.35);
    var berlin := City("Berlin", "DE", 52.52, 13.40);
    var batch := Batch([paris, berlin], [Response(200, 12.5), Response(200, 9.0)]);
    var berlinReading := Reading("Berlin, DE", Degrees(9.0));
    assert FullName(paris) == "Paris, FR";
    assert FullName(berlin) == "Berlin, DE";
    assert batch == [Reading("Paris, FR", Degrees(12.5)), berlinReading];
    assert "Berlin, DE" != "Paris, FR" by {
      assert "Berlin, DE"[0] != "Paris, FR"[0];
    }
    assert WithoutLabel(batch, "Paris, FR") == [berlinReading] by {
      assert batch[1..] == [berlinReading];
      assert batch[1..][1..] == [];
    }
  }
}
