/**
  Where two people's transit routes meet: reading the stations off a route, pairing the
  stations of two routes, and choosing the meetup station.

  The pairing is a greedy loop over one route.  Its result is characterised here without the
  loop: it is the only pairing that no two stations would jointly leave.
  */
module RouteOverlap {
  import opened Common

  /** The number read from a latitude or longitude text; texts without one give NaN. */
  datatype Coordinate = NaN | Degrees(value: real)

  /**
    The text and floating-point rules the pairing relies on: the station-name rule, the
    number reader, and "at most 50 metres apart".  Every result below holds for all of them.
    */
  datatype Geography = Geography(
    normalize: string -> string,
    parse: string -> Coordinate,
    near: (Coordinate, Coordinate, Coordinate, Coordinate) -> bool
  )

  datatype Stop = Stop(stationName: string, lat: string, lon: string)

  /** One leg of an itinerary; `stationList` is None where the answer holds no array. */
  datatype Leg = Leg(mode: string, stationList: Option<seq<Stop>>)

  datatype Station = Station(name: string, normalized: string, lat: Coordinate, lng: Coordinate, order: int)

  datatype OverlapStation = OverlapStation(station: Station, orderA: int, orderB: int)

  // ----- Reading stations off a route -----

  predicate Ridden(leg: Leg)
  {
    leg.mode != "WALK" && leg.mode != "TRANSFER" && leg.stationList.Some?
  }

  /** All stops of the ridden legs, in travel order. */
  function RideStops(legs: seq<Leg>): seq<Stop>
  {
    if legs == [] then []
    else
      var leg := legs[|legs| - 1];
      RideStops(legs[..|legs| - 1]) + if Ridden(leg) then leg.stationList.value else []
  }

  function ToStation(geo: Geography, stop: Stop, order: nat): Station
  {
    Station(stop.stationName, geo.normalize(stop.stationName), geo.parse(stop.lat), geo.parse(stop.lon), order)
  }

  function Extracted(geo: Geography, legs: seq<Leg>): (stations: seq<Station>)
    ensures Numbered(stations)
  {
    var stops := RideStops(legs);
    seq(|stops|, i requires 0 <= i < |stops| => ToStation(geo, stops[i], i))
  }

  /** Every station carries its own position as its order. */
  ghost predicate Numbered(stations: seq<Station>)
  {
    forall i :: 0 <= i < |stations| ==> stations[i].order == i
  }

  // ----- Which stop a station is, leg by leg -----

  /** How many stops a leg adds. */
  function StopsOn(leg: Leg): nat
  {
    if leg.mode == "WALK" || leg.mode == "TRANSFER" then 0
    else match leg.stationList case None => 0 case Some(stops) => |stops|
  }

  function StopsIn(legs: seq<Leg>): nat
  {
    if legs == [] then 0 else StopsIn(legs[..|legs| - 1]) + StopsOn(legs[|legs| - 1])
  }

  /** Leg l has a stop k that is ridden to. */
  predicate HasStop(legs: seq<Leg>, l: nat, k: nat)
  {
    l < |legs| && k < StopsOn(legs[l])
  }

  /** It comes after all stops of the legs before it. */
  function PlaceOf(legs: seq<Leg>, l: nat, k: nat): nat
    requires l <= |legs|
  {
    StopsIn(legs[..l]) + k
  }

  ghost predicate IsStop(geo: Geography, stop: Stop, station: Station)
  {
    && station.name == stop.stationName && station.normalized == geo.normalize(stop.stationName)
    && station.lat == geo.parse(stop.lat) && station.lng == geo.parse(stop.lon)
  }

  ghost predicate StandsAt(geo: Geography, legs: seq<Leg>, l: nat, k: nat, stations: seq<Station>, i: nat)
  {
    && HasStop(legs, l, k) && i == PlaceOf(legs, l, k) && i < |stations| && stations[i].order == i
    && IsStop(geo, legs[l].stationList.value[k], stations[i])
  }

  ghost predicate IsSomeStop(geo: Geography, legs: seq<Leg>, stations: seq<Station>, i: nat)
  {
    exists l: nat, k: nat :: StandsAt(geo, legs, l, k, stations, i)
  }

  /** The stations are the stops of the legs, all of them and in order. */
  ghost predicate AreStops(geo: Geography, legs: seq<Leg>, stations: seq<Station>)
  {
    && |stations| == StopsIn(legs)
    && (forall l: nat, k: nat :: HasStop(legs, l, k) ==> StandsAt(geo, legs, l, k, stations, PlaceOf(legs, l, k)))
    && (forall i: nat :: i < |stations| ==> IsSomeStop(geo, legs, stations, i))
  }

  lemma {:induction false} RideStopsCount(legs: seq<Leg>)
    ensures |RideStops(legs)| == StopsIn(legs)
  {
    if legs != [] {
      RideStopsCount(legs[..|legs| - 1]);
    }
  }

  lemma {:induction false} StopIsAt(legs: seq<Leg>, l: nat, k: nat)
    requires HasStop(legs, l, k)
    ensures PlaceOf(legs, l, k) < |RideStops(legs)|
    ensures RideStops(legs)[PlaceOf(legs, l, k)] == legs[l].stationList.value[k]
  {
    var front := legs[..|legs| - 1];
    RideStopsCount(front);
    if l < |front| {
      StopIsAt(front, l, k);
      assert front[..l] == legs[..l];
    }
  }

  lemma {:induction false} StopFor(legs: seq<Leg>, i: nat) returns (l: nat, k: nat)
    requires i < |RideStops(legs)|
    ensures HasStop(legs, l, k) && PlaceOf(legs, l, k) == i
  {
    var front := legs[..|legs| - 1];
    RideStopsCount(front);
    if i < |RideStops(front)| {
      l, k := StopFor(front, i);
      assert front[..l] == legs[..l];
    } else {
      l, k := |legs| - 1, i - |RideStops(front)|;
    }
  }

  lemma ExtractedAreStops(geo: Geography, legs: seq<Leg>)
    ensures AreStops(geo, legs, Extracted(geo, legs))
  {
    RideStopsCount(legs);
    var stations := Extracted(geo, legs);
    hide RideStops, StopsIn, PlaceOf;
    forall l: nat, k: nat | HasStop(legs, l, k)
      ensures StandsAt(geo, legs, l, k, stations, PlaceOf(legs, l, k))
    {
      StopStands(geo, legs, l, k);
    }
    forall i: nat | i < |stations|
      ensures IsSomeStop(geo, legs, stations, i)
    {
      var l, k := StopFor(legs, i);
      StopStands(geo, legs, l, k);
    }
  }

  lemma StopStands(geo: Geography, legs: seq<Leg>, l: nat, k: nat)
    requires HasStop(legs, l, k)
    ensures StandsAt(geo, legs, l, k, Extracted(geo, legs), PlaceOf(legs, l, k))
  {
    StopIsAt(legs, l, k);
    hide RideStops, StopsIn, PlaceOf;
  }

  method ExtractStations(geo: Geography, legs: seq<Leg>) returns (stations: seq<Station>)
    ensures AreStops(geo, legs, stations)
    ensures stations == Extracted(geo, legs)
  {
    ExtractedAreStops(geo, legs);
    hide AreStops;
    stations := [];
    var order := 0;
    for l := 0 to |legs|
      invariant order == |stations|
      invariant stations == Extracted(geo, legs[..l])
    {
      var leg := legs[l];
      assert legs[..l + 1][..l] == legs[..l];
      if leg.mode == "WALK" || leg.mode == "TRANSFER" {
        continue;
      }
      if leg.stationList.None? {
        continue;
      }
      var stationList := leg.stationList.value;
      ghost var before := RideStops(legs[..l]);
      for s := 0 to |stationList|
        invariant order == |stations| == |before| + s
        invariant forall i :: 0 <= i < |stations| ==>
                    stations[i] == ToStation(geo, (before + stationList)[i], i)
      {
        stations := stations + [ToStation(geo, stationList[s], order)];
        order := order + 1;
      }
    }
    assert legs[..|legs|] == legs;
  }

  // ----- Pairing the stations of two routes -----

  predicate SameName(a: Station, b: Station)
  {
    a.normalized == b.normalized
  }

  predicate Near(geo: Geography, a: Station, b: Station)
  {
    geo.near(a.lat, a.lng, b.lat, b.lng)
  }

  /** Two stations that may be paired: one name, or at most 50 metres apart. */
  predicate Matches(geo: Geography, a: Station, b: Station)
  {
    SameName(a, b) || Near(geo, a, b)
  }

  function NameRule(a: Station): Station -> bool
  {
    b => SameName(a, b)
  }

  function ProximityRule(geo: Geography, a: Station): Station -> bool
  {
    b => Near(geo, a, b)
  }

  /** The first position from `from` on that is free and satisfies `p`, if any. */
  function FirstFree(p: Station -> bool, b: seq<Station>, taken: set<nat>, from: nat): (r: Option<nat>)
    requires from <= |b|
    ensures r.Some? ==> from <= r.value < |b| && r.value !in taken && p(b[r.value])
    decreases |b| - from
  {
    if from == |b| then None
    else if from !in taken && p(b[from]) then Some(from)
    else FirstFree(p, b, taken, from + 1)
  }

  /** The partner the loop picks for `a`: by name if a namesake is free, by distance otherwise. */
  function Choice(geo: Geography, a: Station, b: seq<Station>, taken: set<nat>): (r: Option<nat>)
    ensures r.Some? ==> r.value < |b| && r.value !in taken
  {
    var byName := FirstFree(NameRule(a), b, taken, 0);
    if byName.Some? then byName else FirstFree(ProximityRule(geo, a), b, taken, 0)
  }

  type Pair = (nat, nat)

  function TakenB(pairs: seq<Pair>): set<nat>
  {
    set p | p in pairs :: p.1
  }

  /** The pairs found after the first `n` stations of `a`. */
  function Pairs(geo: Geography, a: seq<Station>, b: seq<Station>, n: nat): (pairs: seq<Pair>)
    requires n <= |a|
    ensures forall p :: p in pairs ==> p.0 < n && p.1 < |b|
  {
    if n == 0 then []
    else
      var prev := Pairs(geo, a, b, n - 1);
      var choice := Choice(geo, a[n - 1], b, TakenB(prev));
      if choice.Some? then prev + [(n - 1, choice.value)] else prev
  }

  function AllPairs(geo: Geography, a: seq<Station>, b: seq<Station>): seq<Pair>
  {
    Pairs(geo, a, b, |a|)
  }

  function Overlap(geo: Geography, a: seq<Station>, b: seq<Station>, pairs: seq<Pair>): (o: seq<OverlapStation>)
    requires forall p :: p in pairs ==> p.0 < |a| && p.1 < |b|
    ensures |o| == |pairs|
  {
    seq(|pairs|, k requires 0 <= k < |pairs| => ToOverlap(a, b, pairs[k]))
  }

  function ToOverlap(a: seq<Station>, b: seq<Station>, p: Pair): OverlapStation
    requires p.0 < |a| && p.1 < |b|
  {
    OverlapStation(a[p.0], a[p.0].order, b[p.1].order)
  }

  /** One name after normalisation, or coordinates that count as near: what the pairing is meant to respect. */
  ghost predicate OnePlace(geo: Geography, x: Station, y: Station)
  {
    x.normalized == y.normalized || geo.near(x.lat, x.lng, y.lat, y.lng)
  }

  /** The entry is station i of the first route, paired with station j of the second, which is the same place. */
  ghost predicate Joins(geo: Geography, a: seq<Station>, b: seq<Station>, o: OverlapStation, i: nat, j: nat)
  {
    && i < |a| && j < |b| && OnePlace(geo, a[i], b[j])
    && o.station == a[i] && o.orderA == a[i].order && o.orderB == b[j].order
  }

  ghost predicate JoinsSome(geo: Geography, a: seq<Station>, b: seq<Station>, o: OverlapStation)
  {
    exists i: nat, j: nat :: Joins(geo, a, b, o, i, j)
  }

  lemma {:induction false} PairsAreOnePlace(geo: Geography, a: seq<Station>, b: seq<Station>, n: nat)
    requires n <= |a|
    ensures forall p :: p in Pairs(geo, a, b, n) ==> p.0 < |a| && p.1 < |b| && OnePlace(geo, a[p.0], b[p.1])
  {
    if n > 0 {
      PairsAreOnePlace(geo, a, b, n - 1);
    }
  }

  lemma OverlapJoins(geo: Geography, a: seq<Station>, b: seq<Station>)
    ensures forall o :: o in Overlap(geo, a, b, AllPairs(geo, a, b)) ==> JoinsSome(geo, a, b, o)
  {
    PairsAreOnePlace(geo, a, b, |a|);
    var pairs := AllPairs(geo, a, b);
    hide Pairs;
    forall o | o in Overlap(geo, a, b, pairs)
      ensures JoinsSome(geo, a, b, o)
    {
      var k :| 0 <= k < |pairs| && Overlap(geo, a, b, pairs)[k] == o;
      assert pairs[k] in pairs;
      assert Joins(geo, a, b, o, pairs[k].0, pairs[k].1);
    }
  }

  method FindFree(p: Station -> bool, b: seq<Station>, taken: set<nat>) returns (r: Option<nat>)
    ensures r == FirstFree(p, b, taken, 0)
  {
    for i := 0 to |b|
      invariant FirstFree(p, b, taken, 0) == FirstFree(p, b, taken, i)
    {
      if i !in taken && p(b[i]) {
        return Some(i);
      }
    }
    r := None;
  }

  method FindOverlapStations(geo: Geography, stationsA: seq<Station>, stationsB: seq<Station>)
    returns (overlap: seq<OverlapStation>)
    ensures overlap == Overlap(geo, stationsA, stationsB, AllPairs(geo, stationsA, stationsB))
    ensures forall o :: o in overlap ==> JoinsSome(geo, stationsA, stationsB, o)
  {
    OverlapJoins(geo, stationsA, stationsB);
    hide JoinsSome;
    overlap := [];
    var matchedB: set<nat> := {};
    for i := 0 to |stationsA|
      invariant overlap == Overlap(geo, stationsA, stationsB, Pairs(geo, stationsA, stationsB, i))
      invariant matchedB == TakenB(Pairs(geo, stationsA, stationsB, i))
    {
      PairsStep(geo, stationsA, stationsB, i);
      var a := stationsA[i];
      var nameMatch := FindFree(NameRule(a), stationsB, matchedB);
      if nameMatch.Some? {
        var idx := nameMatch.value;
        matchedB := matchedB + {idx};
        overlap := overlap + [OverlapStation(a, a.order, stationsB[idx].order)];
        continue;
      }
      var proximityMatch := FindFree(ProximityRule(geo, a), stationsB, matchedB);
      if proximityMatch.Some? {
        var idx := proximityMatch.value;
        matchedB := matchedB + {idx};
        overlap := overlap + [OverlapStation(a, a.order, stationsB[idx].order)];
      }
    }
  }

  /** What one round of the loop adds. */
  lemma PairsStep(geo: Geography, a: seq<Station>, b: seq<Station>, i: nat)
    requires i < |a|
    ensures var prev, next := Pairs(geo, a, b, i), Pairs(geo, a, b, i + 1);
            var choice := Choice(geo, a[i], b, TakenB(prev));
            if choice.Some? then
              && next == prev + [(i, choice.value)]
              && TakenB(next) == TakenB(prev) + {choice.value}
              && Overlap(geo, a, b, next) == Overlap(geo, a, b, prev) + [ToOverlap(a, b, (i, choice.value))]
            else next == prev
  {}

  // ----- Choosing the meetup station -----

  function Sum(o: OverlapStation): int
  {
    o.orderA + o.orderB
  }

  /** The reduction: the running best is replaced only by a strictly smaller sum. */
  function Best(overlap: seq<OverlapStation>): OverlapStation
    requires overlap != []
  {
    var last := overlap[|overlap| - 1];
    if |overlap| == 1 then last
    else
      var best := Best(overlap[..|overlap| - 1]);
      if Sum(last) < Sum(best) then last else best
  }

  function FindMeetupStation(overlap: seq<OverlapStation>): Option<OverlapStation>
  {
    if overlap == [] then None else Some(Best(overlap))
  }

  /** The station on which the routes over `a` and `b` are joined. */
  function Meetup(geo: Geography, a: seq<Station>, b: seq<Station>): Option<OverlapStation>
  {
    FindMeetupStation(Overlap(geo, a, b, AllPairs(geo, a, b)))
  }
}
