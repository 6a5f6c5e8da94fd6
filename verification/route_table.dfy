/**
 The fixed table of driving distances between cities, its mirroring into a
 symmetric table, and the route query behind the route label.
 */
module RouteTable {
  import opened Options
  import Ascii
  import Decimal

  /** An ordered (start, destination) pair of city names. */
  type Leg = (string, string)

  function Reverse(leg: Leg): Leg
  {
    (leg.1, leg.0)
  }

  /** The table as written, before mirroring; distances in km. */
  const BaseRoutes: map<Leg, int> := map[
    ("Chennai", "Bangalore") := 350,
    ("Chennai", "Hyderabad") := 630,
    ("Bangalore", "Hyderabad") := 570,
    ("Bangalore", "Mumbai") := 980,
    ("Hyderabad", "Mumbai") := 710,
    ("Chennai", "Mumbai") := 1330,
    ("Delhi", "Mumbai") := 1410,
    ("Delhi", "Hyderabad") := 1560,
    ("Delhi", "Bangalore") := 1750,
    ("Delhi", "Chennai") := 2200
  ]

  /** Every leg's reverse is present with the same distance. */
  predicate Symmetric(m: map<Leg, int>)
  {
    forall leg :: leg in m ==> Reverse(leg) in m && m[Reverse(leg)] == m[leg]
  }

  /** Wherever a leg and its reverse are both present, they agree. */
  predicate AgreesWithReverse(m: map<Leg, int>)
  {
    forall leg :: leg in m && Reverse(leg) in m ==> m[Reverse(leg)] == m[leg]
  }

  /** No leg is present in both directions (so no leg is from a city to itself). */
  predicate OneDirectionOnly(m: map<Leg, int>)
  {
    forall leg :: leg in m ==> Reverse(leg) !in m
  }

  /** `{(to, frm): dist for (frm, to), dist in m.items()}` */
  function Mirrored(m: map<Leg, int>): (r: map<Leg, int>)
    ensures forall leg :: leg in r <==> Reverse(leg) in m
    ensures forall leg :: leg in r ==> r[leg] == m[Reverse(leg)]
  {
    map leg | leg in m :: Reverse(leg) := m[leg]
  }

  /** `m.update(Mirrored(m))`: the mirrored entries are added, and where a key
      already exists the mirrored value replaces it. */
  function MirrorUpdate(m: map<Leg, int>): (r: map<Leg, int>)
    ensures forall leg :: leg in r <==> leg in m || Reverse(leg) in m
    ensures forall leg :: Reverse(leg) in m ==> r[leg] == m[Reverse(leg)]
    ensures forall leg :: leg in m && Reverse(leg) !in m ==> r[leg] == m[leg]
  {
    m + Mirrored(m)
  }

  /** After the update the table is symmetric, provided no leg disagrees with
      its reverse beforehand. */
  lemma MirrorUpdateSymmetric(m: map<Leg, int>)
    requires AgreesWithReverse(m)
    ensures Symmetric(MirrorUpdate(m))
  {
    var r := MirrorUpdate(m);
    forall leg | leg in r
      ensures Reverse(leg) in r && r[Reverse(leg)] == r[leg]
    {
      assert Reverse(Reverse(leg)) == leg;
    }
  }

  /** The update keeps every original entry and adds only reversed legs. */
  lemma MirrorUpdateKeepsEntries(m: map<Leg, int>)
    requires AgreesWithReverse(m)
    ensures forall leg :: leg in m ==> leg in MirrorUpdate(m) && MirrorUpdate(m)[leg] == m[leg]
    ensures forall leg :: leg in MirrorUpdate(m) && leg !in m ==> Reverse(leg) in m
  {
    var r := MirrorUpdate(m);
    forall leg | leg in m
      ensures leg in r && r[leg] == m[leg]
    {
      if Reverse(leg) in m {
        assert r[leg] == m[Reverse(leg)];
      }
    }
  }

  /** Mirroring a table that is already symmetric changes nothing. */
  lemma MirrorUpdateOfSymmetric(m: map<Leg, int>)
    requires Symmetric(m)
    ensures MirrorUpdate(m) == m
  {
    var r := MirrorUpdate(m);
    assert r.Keys == m.Keys by {
      forall leg | leg in r ensures leg in m {
        if Reverse(leg) in m {
          assert Reverse(Reverse(leg)) in m;
        }
      }
    }
    forall leg | leg in m
      ensures r[leg] == m[leg]
    {
      assert Reverse(leg) in m;
    }
  }

  /** Without the agreement requirement the update is not symmetric: a leg
      present in both directions with different distances has both
      entries overwritten by each other's value. */
  lemma MirrorUpdateConflict()
    ensures var m := map[("A", "B") := 1, ("B", "A") := 2];
      && MirrorUpdate(m)[("A", "B")] == 2
      && MirrorUpdate(m)[("B", "A")] == 1
      && !Symmetric(MirrorUpdate(m))
  {
    var m := map[("A", "B") := 1, ("B", "A") := 2];
    assert Reverse(("A", "B")) == ("B", "A");
    assert Reverse(("B", "A")) == ("A", "B");
    assert ("A", "B") in MirrorUpdate(m);
  }

  /** The written table lists each pair of cities once, in one direction. */
  lemma BaseRoutesOneDirection()
    ensures OneDirectionOnly(BaseRoutes)
    ensures forall leg :: leg in BaseRoutes ==> leg.0 != "" && leg.1 != ""
  {
  }

  /** The table the application queries. */
  const Routes: map<Leg, int> := MirrorUpdate(BaseRoutes)

  /** The queried table is symmetric, keeps the written distances, and adds
      only the reversed legs. */
  lemma RoutesTable()
    ensures Symmetric(Routes)
    ensures forall leg :: leg in BaseRoutes ==> leg in Routes && Routes[leg] == BaseRoutes[leg]
    ensures forall leg :: leg in Routes && leg !in BaseRoutes ==> Reverse(leg) in BaseRoutes
    ensures forall leg :: leg in Routes ==> leg.0 != "" && leg.1 != ""
  {
    BaseRoutesOneDirection();
    MirrorUpdateSymmetric(BaseRoutes);
    MirrorUpdateKeepsEntries(BaseRoutes);
  }

  /** A city name as the query looks it up: `name.strip().title()`, that is,
      the stripped entry with every word title-cased. */
  function NormalizeCity(name: string): (r: string)
    ensures Ascii.Trimmed(r)
    ensures |r| <= |name|
    ensures |r| == |Ascii.Strip(name)|
    ensures forall k :: 0 <= k < |r| ==> r[k] == Ascii.TitleCharAt(Ascii.Strip(name), k)
  {
    var stripped := Ascii.Strip(name);
    Ascii.TitleKeepsTrimmed(stripped);
    Ascii.Title(stripped)
  }

  /** Normalising an already normalised name changes nothing. */
  lemma NormalizeCityIdempotent(name: string)
    ensures NormalizeCity(NormalizeCity(name)) == NormalizeCity(name)
  {
    var n := NormalizeCity(name);
    Ascii.StripTrimmed(n);
    Ascii.TitleIdempotent(Ascii.Strip(name));
  }

  const DistancePrefix: string := "Distance from "
  const NoRoutePrefix: string := "No direct route found between "

  /** `f"Distance from {start} to {end}: {distance} km"` */
  function DistanceMessage(start: string, end: string, distance: int): string
  {
    DistancePrefix + (start + " to " + end + ": " + Decimal.IntToString(distance) + " km")
  }

  /** `f"No direct route found between {start} and {end}."` */
  function NoRouteMessage(start: string, end: string): string
  {
    NoRoutePrefix + start + " and " + end + "."
  }

  /** Python truthiness of `routes.get((start, end))`. */
  predicate HasRoute(routes: map<Leg, int>, start: string, end: string)
  {
    (start, end) in routes && routes[(start, end)] != 0
  }

  /** The new value of the route result after `find_and_display_shortest_route`,
      given the raw entry texts and the previous result.  Nothing happens
      unless both raw texts are non-empty. */
  function RouteResult(routes: map<Leg, int>, startPoint: string, endPoint: string, previous: string): (r: string)
    ensures startPoint == "" || endPoint == "" ==> r == previous
    ensures startPoint != "" && endPoint != "" ==>
      var start := NormalizeCity(startPoint);
      var end := NormalizeCity(endPoint);
      && (HasRoute(routes, start, end) ==> r == DistanceMessage(start, end, routes[(start, end)]))
      && (!HasRoute(routes, start, end) ==> r == NoRouteMessage(start, end))
  {
    if startPoint != "" && endPoint != "" then
      var start := NormalizeCity(startPoint);
      var end := NormalizeCity(endPoint);
      var distance := Get(routes, (start, end));
      if Truthy(distance) then DistanceMessage(start, end, distance.value)
      else NoRouteMessage(start, end)
    else previous
  }

  predicate StartsWith(s: string, prefix: string)
  {
    |prefix| <= |s| && s[..|prefix|] == prefix
  }

  /** With both entries filled in, the result reports a distance exactly when
      the normalised pair maps to a non-zero distance. */
  lemma RouteResultReportsDistanceIff(routes: map<Leg, int>, startPoint: string, endPoint: string, previous: string)
    requires startPoint != "" && endPoint != ""
    ensures (StartsWith(RouteResult(routes, startPoint, endPoint, previous), DistancePrefix)
             <==> HasRoute(routes, NormalizeCity(startPoint), NormalizeCity(endPoint)))
  {
    var start := NormalizeCity(startPoint);
    var end := NormalizeCity(endPoint);
    if HasRoute(routes, start, end) {
      DistanceMessageStartsWithPrefix(start, end, routes[(start, end)]);
    } else {
      NoRouteMessageLacksPrefix(start, end);
    }
  }

  lemma DistanceMessageStartsWithPrefix(start: string, end: string, distance: int)
    ensures StartsWith(DistanceMessage(start, end, distance), DistancePrefix)
  {
    StartsWithConcat(DistancePrefix, start + " to " + end + ": " + Decimal.IntToString(distance) + " km");
  }

  lemma StartsWithConcat(p: string, u: string)
    ensures StartsWith(p + u, p)
  {
    assert (p + u)[..|p|] == p;
  }

  lemma NoRouteMessageLacksPrefix(start: string, end: string)
    ensures !StartsWith(NoRouteMessage(start, end), DistancePrefix)
  {
    var m := NoRouteMessage(start, end);
    assert m == NoRoutePrefix + (start + " and " + end + ".");
    assert m[0] == 'N';
    assert DistancePrefix[0] == 'D';
  }

  /** Distinct distances give distinct messages. */
  lemma DistanceMessageInjective(start: string, end: string, d1: int, d2: int)
    requires DistanceMessage(start, end, d1) == DistanceMessage(start, end, d2)
    ensures d1 == d2
  {
    CancelAround(DistancePrefix, start + " to " + end + ": ",
      Decimal.IntToString(d1), Decimal.IntToString(d2), " km");
    Decimal.IntToStringInjective(d1, d2);
  }

  /** The middle of a text is determined once the parts around it are known. */
  lemma CancelAround(p: string, q: string, t1: string, t2: string, k: string)
    requires p + ((q + t1) + k) == p + ((q + t2) + k)
    ensures t1 == t2
  {
    var u := p + ((q + t1) + k);
    var v := p + ((q + t2) + k);
    assert |t1| == |t2|;
    assert t1 == u[|p| + |q|..|p| + |q| + |t1|];
    assert t2 == v[|p| + |q|..|p| + |q| + |t2|];
  }

  /** On a symmetric table, asking for (a, b) and for (b, a) report the same
      distance, or both report no route. */
  lemma RouteResultSymmetric(routes: map<Leg, int>, a: string, b: string, previous: string)
    requires Symmetric(routes)
    requires a != "" && b != ""
    ensures forall d :: RouteResult(routes, a, b, previous) == DistanceMessage(NormalizeCity(a), NormalizeCity(b), d)
                        <==> RouteResult(routes, b, a, previous) == DistanceMessage(NormalizeCity(b), NormalizeCity(a), d)
    ensures (RouteResult(routes, a, b, previous) == NoRouteMessage(NormalizeCity(a), NormalizeCity(b))
             <==> RouteResult(routes, b, a, previous) == NoRouteMessage(NormalizeCity(b), NormalizeCity(a)))
  {
    var x := NormalizeCity(a);
    var y := NormalizeCity(b);
    assert HasRoute(routes, x, y) <==> HasRoute(routes, y, x) by {
      if (x, y) in routes { assert Reverse((x, y)) == (y, x); }
      if (y, x) in routes { assert Reverse((y, x)) == (x, y); }
    }
    forall d
      ensures RouteResult(routes, a, b, previous) == DistanceMessage(x, y, d)
              <==> RouteResult(routes, b, a, previous) == DistanceMessage(y, x, d)
    {
      if HasRoute(routes, x, y) {
        assert Reverse((x, y)) == (y, x);
        if RouteResult(routes, a, b, previous) == DistanceMessage(x, y, d) {
          DistanceMessageInjective(x, y, d, routes[(x, y)]);
        }
        if RouteResult(routes, b, a, previous) == DistanceMessage(y, x, d) {
          DistanceMessageInjective(y, x, d, routes[(y, x)]);
        }
      } else {
        assert DistanceMessage(x, y, d)[0] == 'D';
        assert DistanceMessage(y, x, d)[0] == 'D';
      }
    }
    if HasRoute(routes, x, y) {
      assert DistanceMessage(x, y, routes[(x, y)])[0] == 'D';
      assert DistanceMessage(y, x, routes[(y, x)])[0] == 'D';
    }
  }

  /** Entering names already in normalised form gives the same result. */
  lemma RouteResultNormalizedInputs(routes: map<Leg, int>, startPoint: string, endPoint: string, previous: string)
    requires NormalizeCity(startPoint) != "" && NormalizeCity(endPoint) != ""
    ensures RouteResult(routes, NormalizeCity(startPoint), NormalizeCity(endPoint), previous)
              == RouteResult(routes, startPoint, endPoint, previous)
  {
    NormalizeCityIdempotent(startPoint);
    NormalizeCityIdempotent(endPoint);
  }

  /** The emptiness test looks at the raw entry, before stripping: an entry of
      only whitespace passes it and is looked up as the empty name, which the
      table does not contain. */
  lemma RouteResultBlankEntry(startPoint: string, endPoint: string, previous: string)
    requires startPoint != "" && Ascii.AllSpace(startPoint) && endPoint != ""
    ensures RouteResult(Routes, startPoint, endPoint, previous) == NoRouteMessage("", NormalizeCity(endPoint))
  {
    Ascii.StripAllSpace(startPoint);
    assert NormalizeCity(startPoint) == "";
    RoutesTable();
    assert !HasRoute(Routes, "", NormalizeCity(endPoint));
  }
}
