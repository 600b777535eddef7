/**
  Which station the two people are sent to: the least combined distance along both routes,
  and when both of them are told the same station.
  */
module MeetupStation {
  import opened Common
  import opened RouteOverlap
  import opened MeetupMatching

  // ----- The reduction -----

  /** Position k holds the least sum, and no earlier position does. */
  ghost predicate FirstLeast(o: seq<OverlapStation>, k: nat)
  {
    && k < |o|
    && (forall j :: 0 <= j < |o| ==> Sum(o[k]) <= Sum(o[j]))
    && (forall j :: 0 <= j < k ==> Sum(o[k]) < Sum(o[j]))
  }

  lemma {:induction false} BestIsFirstLeast(o: seq<OverlapStation>) returns (k: nat)
    requires o != []
    ensures FirstLeast(o, k) && Best(o) == o[k]
  {
    var n := |o| - 1;
    if n == 0 {
      k := 0;
    } else {
      var front := o[..n];
      k := BestIsFirstLeast(front);
      assert forall j :: 0 <= j < n ==> front[j] == o[j];
      if Sum(o[n]) < Sum(Best(front)) {
        k := n;
      }
    }
  }

  // ----- The least eligible pair -----

  /**
    Pairs the meetup is measured against: namesakes, and stations within 50 metres where the
    station of `a` has no namesake in `b` at all.
    */
  ghost predicate Eligible(geo: Geography, a: seq<Station>, b: seq<Station>, i: nat, j: nat)
  {
    && i < |a| && j < |b|
    && (|| SameName(a[i], b[j])
        || (Near(geo, a[i], b[j]) && forall k :: 0 <= k < |b| ==> !SameName(a[i], b[k])))
  }

  /** An eligible pair is greedy itself, or some greedy pair has a smaller sum. */
  lemma EligibleIsBeaten(geo: Geography, a: seq<Station>, b: seq<Station>, i: nat, j: nat) returns (p: Pair)
    requires Eligible(geo, a, b, i, j)
    ensures p in Greedy(geo, a, b)
    ensures p == (i, j) || p.0 + p.1 < i + j
  {
    GreedyCovers(geo, a, b, i, j);
    if e: nat :| e < i && (e, j) in Greedy(geo, a, b) {
      p := (e, j);
    } else {
      var k: nat :| k < |b| && (i, k) in Greedy(geo, a, b) && (k == j || Prefers(a[i], b, k, j));
      p := (i, k);
    }
  }

  /** A first least greedy pair is no worse than any greedy or eligible pair. */
  lemma LeastBeats(geo: Geography, a: seq<Station>, b: seq<Station>, k: nat, p: Pair)
    requires Numbered(a) && Numbered(b)
    requires k < |AllPairs(geo, a, b)| && FirstLeast(Overlap(geo, a, b, AllPairs(geo, a, b)), k)
    requires p in Greedy(geo, a, b) || Eligible(geo, a, b, p.0, p.1)
    ensures var best := AllPairs(geo, a, b)[k];
            best.0 + best.1 <= p.0 + p.1 && (best.0 + best.1 == p.0 + p.1 ==> best.0 <= p.0)
  {
    var pairs := AllPairs(geo, a, b);
    var o := Overlap(geo, a, b, pairs);
    var q := p;
    if p !in Greedy(geo, a, b) {
      q := EligibleIsBeaten(geo, a, b, p.0, p.1);
    }
    PairsAreInjective(geo, a, b, |a|);
    hide Eligible, Pairs;
    var x :| 0 <= x < |pairs| && pairs[x] == q;
    assert Sum(o[x]) == q.0 + q.1 && Sum(o[k]) == pairs[k].0 + pairs[k].1;
  }

  /**
    The meetup on numbered routes: none exactly when nothing matches; otherwise a greedy pair
    whose sum is least among all greedy and all eligible pairs, ties going to the station that
    comes first on route a.
    */
  lemma MeetupIsLeast(geo: Geography, a: seq<Station>, b: seq<Station>)
    requires Numbered(a) && Numbered(b)
    ensures Meetup(geo, a, b).None? <==>
            forall i, j :: 0 <= i < |a| && 0 <= j < |b| ==> !Matches(geo, a[i], b[j])
    ensures Meetup(geo, a, b).Some? ==>
              var r := Meetup(geo, a, b).value;
              && r.orderA >= 0 && r.orderB >= 0
              && (r.orderA, r.orderB) in Greedy(geo, a, b) && r.station == a[r.orderA]
              && (forall p :: p in Greedy(geo, a, b) || Eligible(geo, a, b, p.0, p.1) ==>
                                r.orderA + r.orderB <= p.0 + p.1
                                && (r.orderA + r.orderB == p.0 + p.1 ==> r.orderA <= p.0))
  {
    var pairs := AllPairs(geo, a, b);
    var o := Overlap(geo, a, b, pairs);
    if pairs == [] {
      forall i, j | 0 <= i < |a| && 0 <= j < |b|
        ensures !Matches(geo, a[i], b[j])
      {
        if Matches(geo, a[i], b[j]) {
          GreedyIsMaximal(geo, a, b, i, j);
        }
      }
    } else {
      PairsAllMatch(geo, a, b, |a|);
      PairsAreInjective(geo, a, b, |a|);
      assert Matches(geo, a[pairs[0].0], b[pairs[0].1]);
      var k := BestIsFirstLeast(o);
      assert pairs[k] in Greedy(geo, a, b);
      hide Eligible, FirstLeast, Pairs;
      forall p | p in Greedy(geo, a, b) || Eligible(geo, a, b, p.0, p.1)
        ensures Sum(o[k]) <= p.0 + p.1 && (Sum(o[k]) == p.0 + p.1 ==> pairs[k].0 <= p.0)
      {
        LeastBeats(geo, a, b, k, p);
      }
    }
  }

  /**
    A nearby pair may be passed over when its station of `a` has a namesake elsewhere: the
    first pair below is 0 + 0, yet the meetup sum is 2.
    */
  lemma NearbyPairCanBePassedOver() returns (geo: Geography, a: seq<Station>, b: seq<Station>)
    ensures Numbered(a) && Numbered(b) && |a| == 1 && |b| == 3
    ensures Matches(geo, a[0], b[0])
    ensures Meetup(geo, a, b) == Some(OverlapStation(a[0], 0, 2))
  {
    geo := Geography(s => s, s => NaN, (x, y, z, w) => true);
    a := [Station("X", "X", NaN, NaN, 0)];
    b := [Station("P", "P", NaN, NaN, 0), Station("Q", "Q", NaN, NaN, 1), Station("X", "X", NaN, NaN, 2)];
    var rule := NameRule(a[0]);
    assert !rule(b[0]) && !rule(b[1]) && rule(b[2]);
    assert FirstFree(rule, b, {}, 1) == FirstFree(rule, b, {}, 2) == Some(2);
    assert Pairs(geo, a, b, 0) == [];
    assert TakenB([]) == {};
    assert Choice(geo, a[0], b, TakenB([])) == Some(2);
    PairsStep(geo, a, b, 0);
    assert AllPairs(geo, a, b) == [(0, 2)];
    assert Overlap(geo, a, b, [(0, 2)]) == [OverlapStation(a[0], 0, 2)];
    assert Meetup(geo, a, b) == Some(OverlapStation(a[0], 0, 2));
  }

  // ----- Whether both partners are told the same station -----

  /** Distances are the same in both directions. */
  ghost predicate Symmetric(geo: Geography, a: seq<Station>, b: seq<Station>)
  {
    forall i, j :: 0 <= i < |a| && 0 <= j < |b| ==> (Near(geo, a[i], b[j]) <==> Near(geo, b[j], a[i]))
  }

  /** A station near one of another name has no namesake on the other route. */
  ghost predicate NamesakesApart(geo: Geography, a: seq<Station>, b: seq<Station>)
  {
    forall i, j :: 0 <= i < |a| && 0 <= j < |b| && Near(geo, a[i], b[j]) && !SameName(a[i], b[j]) ==>
                     && (forall k :: 0 <= k < |b| ==> !SameName(a[i], b[k]))
                     && (forall k :: 0 <= k < |a| ==> !SameName(a[k], b[j]))
  }

  /** A matching pair with the least sum of positions. */
  ghost predicate LeastMatch(geo: Geography, a: seq<Station>, b: seq<Station>, i: nat, j: nat)
  {
    && i < |a| && j < |b| && Matches(geo, a[i], b[j])
    && (forall x, y :: 0 <= x < |a| && 0 <= y < |b| && Matches(geo, a[x], b[y]) ==> i + j <= x + y)
  }

  lemma ConditionsSwap(geo: Geography, a: seq<Station>, b: seq<Station>)
    requires Symmetric(geo, a, b) && NamesakesApart(geo, a, b)
    ensures Symmetric(geo, b, a) && NamesakesApart(geo, b, a)
    ensures forall i, j :: 0 <= i < |a| && 0 <= j < |b| ==> (Matches(geo, a[i], b[j]) <==> Matches(geo, b[j], a[i]))
  {}

  lemma LeastSwaps(geo: Geography, a: seq<Station>, b: seq<Station>, i: nat, j: nat)
    requires Symmetric(geo, a, b)
    ensures LeastMatch(geo, a, b, i, j) <==> LeastMatch(geo, b, a, j, i)
  {}

  /** The meetup is a least matching pair, the one that comes first on the caller's own route. */
  lemma MeetupIsLeastMatch(geo: Geography, a: seq<Station>, b: seq<Station>)
    requires Numbered(a) && Numbered(b) && NamesakesApart(geo, a, b)
    ensures Meetup(geo, a, b).Some? ==>
              var r := Meetup(geo, a, b).value;
              && 0 <= r.orderA && 0 <= r.orderB && LeastMatch(geo, a, b, r.orderA, r.orderB) && r.station == a[r.orderA]
              && (forall x, y :: LeastMatch(geo, a, b, x, y) ==> r.orderA <= x)
  {
    MeetupIsLeast(geo, a, b);
    GreedyIsPairing(geo, a, b);
    if Meetup(geo, a, b).Some? {
      var r := Meetup(geo, a, b).value;
      forall x, y | 0 <= x < |a| && 0 <= y < |b| && Matches(geo, a[x], b[y])
        ensures r.orderA + r.orderB <= x + y && (r.orderA + r.orderB == x + y ==> r.orderA <= x)
      {
        var p: Pair := (x, y);
        assert Eligible(geo, a, b, p.0, p.1);
      }
    }
  }

  ghost predicate UniqueLeast(geo: Geography, a: seq<Station>, b: seq<Station>)
  {
    forall i, j, x, y :: LeastMatch(geo, a, b, i, j) && LeastMatch(geo, a, b, x, y) ==> i == x && j == y
  }

  /** The two ends of the line of least pairs match only if they are one pair. */
  lemma EndsMatchIffUnique(geo: Geography, a: seq<Station>, b: seq<Station>, i: nat, j: nat, x: nat, y: nat)
    requires LeastMatch(geo, a, b, i, j) && LeastMatch(geo, a, b, x, y)
    requires forall k, l :: LeastMatch(geo, a, b, k, l) ==> i <= k && y <= l
    ensures Matches(geo, a[i], b[y]) <==> UniqueLeast(geo, a, b)
    ensures (i, j) == (x, y) <==> UniqueLeast(geo, a, b)
  {}

  /**
    Each partner asks with their own route first.  Where no station near one of another name
    has a namesake on the other route, both get a meetup or neither does, and the sums agree.
    The two meet on one pair of stations, and are sent to stations of one name or within 50
    metres, exactly when the least matching pair is unique; they are told one name exactly
    when, in addition, that pair is one of namesakes.
    */
  lemma PartnersAgreeIffLeastIsUnique(geo: Geography, a: seq<Station>, b: seq<Station>)
    requires Numbered(a) && Numbered(b) && Symmetric(geo, a, b) && NamesakesApart(geo, a, b)
    ensures Meetup(geo, a, b).None? <==> Meetup(geo, b, a).None?
    ensures Meetup(geo, a, b).Some? ==>
              var mine, theirs := Meetup(geo, a, b).value, Meetup(geo, b, a).value;
              && Sum(mine) == Sum(theirs)
              && ((mine.orderA, mine.orderB) == (theirs.orderB, theirs.orderA) <==> UniqueLeast(geo, a, b))
              && (Matches(geo, mine.station, theirs.station) <==> UniqueLeast(geo, a, b))
              && (SameName(mine.station, theirs.station) <==>
                    && UniqueLeast(geo, a, b)
                    && 0 <= mine.orderA < |a| && 0 <= mine.orderB < |b| && SameName(a[mine.orderA], b[mine.orderB]))
  {
    ConditionsSwap(geo, a, b);
    MeetupIsLeast(geo, a, b);
    MeetupIsLeast(geo, b, a);
    if Meetup(geo, a, b).Some? {
      MeetupIsLeastMatch(geo, a, b);
      var r := Meetup(geo, a, b).value;
      assert Matches(geo, b[r.orderB], a[r.orderA]);
      MeetupIsLeastMatch(geo, b, a);
      hide Meetup, Eligible, Near;
      EndsOfMeetups(geo, a, b, Meetup(geo, a, b).value, Meetup(geo, b, a).value);
    }
  }

  lemma EndsOfMeetups(geo: Geography, a: seq<Station>, b: seq<Station>, r: OverlapStation, s: OverlapStation)
    requires Symmetric(geo, a, b)
    requires 0 <= r.orderA && 0 <= r.orderB && LeastMatch(geo, a, b, r.orderA, r.orderB) && r.station == a[r.orderA]
    requires 0 <= s.orderA && 0 <= s.orderB && LeastMatch(geo, b, a, s.orderA, s.orderB) && s.station == b[s.orderA]
    requires forall x, y :: LeastMatch(geo, a, b, x, y) ==> r.orderA <= x
    requires forall x, y :: LeastMatch(geo, b, a, x, y) ==> s.orderA <= x
    ensures Sum(r) == Sum(s)
    ensures (r.orderA, r.orderB) == (s.orderB, s.orderA) <==> UniqueLeast(geo, a, b)
    ensures Matches(geo, r.station, s.station) <==> UniqueLeast(geo, a, b)
    ensures SameName(r.station, s.station) <==> UniqueLeast(geo, a, b) && SameName(a[r.orderA], b[r.orderB])
  {
    LeastSwaps(geo, a, b, s.orderB, s.orderA);
    forall k, l | LeastMatch(geo, a, b, k, l)
      ensures s.orderA <= l
    {
      LeastSwaps(geo, a, b, k, l);
    }
    EndsMatchIffUnique(geo, a, b, r.orderA, r.orderB, s.orderB, s.orderA);
  }

  /**
    Two routes through the same two stations in opposite order: each partner is sent to the
    station that comes first on their own route.
    */
  lemma PartnersCanBeSentApart() returns (geo: Geography, a: seq<Station>, b: seq<Station>)
    ensures Numbered(a) && Numbered(b) && Symmetric(geo, a, b) && NamesakesApart(geo, a, b)
    ensures Meetup(geo, a, b).Some? && Meetup(geo, b, a).Some?
    ensures !Matches(geo, Meetup(geo, a, b).value.station, Meetup(geo, b, a).value.station)
  {
    geo := Geography(s => s, s => NaN, (x, y, z, w) => false);
    a := [Station("X", "X", NaN, NaN, 0), Station("Y", "Y", NaN, NaN, 1)];
    b := [Station("Y", "Y", NaN, NaN, 0), Station("X", "X", NaN, NaN, 1)];
    OppositeRoutesTie(geo, a, b);
    MeetupIsLeast(geo, a, b);
    PartnersAgreeIffLeastIsUnique(geo, a, b);
  }

  lemma OppositeRoutesTie(geo: Geography, a: seq<Station>, b: seq<Station>)
    requires |a| == |b| == 2 && a[0].normalized == b[1].normalized == "X" && a[1].normalized == b[0].normalized == "Y"
    requires forall i, j :: 0 <= i < 2 && 0 <= j < 2 ==> !Near(geo, a[i], b[j])
    ensures SameName(a[0], b[1]) && !UniqueLeast(geo, a, b)
  {
    assert LeastMatch(geo, a, b, 0, 1) && LeastMatch(geo, a, b, 1, 0);
  }

  /** A lone station is given the namesake of two matching ones, which is given the first of its two in return. */
  lemma OneAgainstTwo(geo: Geography, a: seq<Station>, b: seq<Station>)
    requires |a| == 1 && |b| == 2 && Numbered(a) && Numbered(b)
    requires forall j :: 0 <= j < 2 ==> Matches(geo, a[0], b[j]) && Matches(geo, b[j], a[0])
    requires !SameName(a[0], b[0]) && SameName(a[0], b[1])
    ensures Meetup(geo, a, b) == Some(OverlapStation(a[0], 0, 1))
    ensures Meetup(geo, b, a) == Some(OverlapStation(b[0], 0, 0))
  {
    NamesakeIsGiven(geo, a, b);
    FirstIsGiven(geo, b, a);
    MeetupIsLeast(geo, a, b);
    MeetupIsLeast(geo, b, a);
    GreedyIsPairing(geo, a, b);
    GreedyIsPairing(geo, b, a);
    hide Greedy, Meetup, Eligible, Matches, SameName;
  }

  lemma NamesakeIsGiven(geo: Geography, a: seq<Station>, b: seq<Station>)
    requires |a| == 1 && |b| == 2 && Matches(geo, a[0], b[1]) && !SameName(a[0], b[0]) && SameName(a[0], b[1])
    ensures (0, 1) in Greedy(geo, a, b) && (0, 0) !in Greedy(geo, a, b)
  {
    GreedyCovers(geo, a, b, 0, 1);
    GreedyIsPairing(geo, a, b);
    hide Greedy, Matches;
  }

  lemma FirstIsGiven(geo: Geography, a: seq<Station>, b: seq<Station>)
    requires |a| == 2 && |b| == 1 && Matches(geo, a[0], b[0])
    ensures (0, 0) in Greedy(geo, a, b)
  {
    GreedyCovers(geo, a, b, 0, 0);
    hide Greedy, Matches;
  }

  /**
    Where a nearby station stands before a namesake, the partners can differ although the least
    matching pair is unique: one is sent to the namesake, the other to the nearer stop, and
    even the sums differ.
    */
  lemma NamesakeCanMislead() returns (geo: Geography, a: seq<Station>, b: seq<Station>)
    ensures |a| == 1 && |b| == 2 && Numbered(a) && Numbered(b) && Symmetric(geo, a, b) && UniqueLeast(geo, a, b)
    ensures Meetup(geo, a, b) == Some(OverlapStation(a[0], 0, 1))
    ensures Meetup(geo, b, a) == Some(OverlapStation(b[0], 0, 0))
    ensures !SameName(a[0], b[0])
  {
    geo := Geography(s => s, s => NaN, (x, y, z, w) => true);
    a := [Station("X", "X", NaN, NaN, 0)];
    b := [Station("P", "P", NaN, NaN, 0), Station("X", "X", NaN, NaN, 1)];
    assert !SameName(a[0], b[0]) && SameName(a[0], b[1]);
    OneAgainstTwo(geo, a, b);
    hide Greedy, Meetup, Numbered;
  }
}
