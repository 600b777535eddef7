/**
  What the greedy pairing of two routes and the meetup chosen from it are worth, stated
  against every other pairing of the two station lists.
  */
module MeetupMatching {
  import opened Common
  import opened RouteOverlap

  // ----- What one station is given -----

  /** `a` would rather have b[j] than b[k]: namesakes first, then earlier stations. */
  ghost predicate Prefers(a: Station, b: seq<Station>, j: nat, k: nat)
    requires j < |b| && k < |b|
  {
    if SameName(a, b[j]) == SameName(a, b[k]) then j < k else SameName(a, b[j])
  }

  lemma {:induction false} FirstFreeIsLeast(p: Station -> bool, b: seq<Station>, taken: set<nat>, from: nat, j: nat)
    requires from <= j < |b| && j !in taken && p(b[j])
    ensures var r := FirstFree(p, b, taken, from); r.Some? && r.value <= j
    decreases j - from
  {
    if from < j {
      FirstFreeIsLeast(p, b, taken, from + 1, j);
    }
  }

  /** The partner picked is matching and free, and no free matching station is liked better. */
  lemma ChoiceIsBest(geo: Geography, a: Station, b: seq<Station>, taken: set<nat>, j: nat)
    requires j < |b| && j !in taken && Matches(geo, a, b[j])
    ensures var r := Choice(geo, a, b, taken); r.Some? && (r.value == j || Prefers(a, b, r.value, j))
  {
    if SameName(a, b[j]) {
      FirstFreeIsLeast(NameRule(a), b, taken, 0, j);
    } else {
      FirstFreeIsLeast(ProximityRule(geo, a), b, taken, 0, j);
    }
  }

  // ----- Pairings in general -----

  /** A set of matching pairs that uses no station twice. */
  ghost predicate Pairing(geo: Geography, a: seq<Station>, b: seq<Station>, m: set<Pair>)
  {
    && (forall p :: p in m ==> p.0 < |a| && p.1 < |b| && Matches(geo, a[p.0], b[p.1]))
    && (forall p, q :: p in m && q in m && (p.0 == q.0 || p.1 == q.1) ==> p == q)
  }

  /**
    Stations i of `a` and j of `b` would leave `m` for each other: i has no partner it likes
    as much, and j has no partner that comes earlier on the route of `a`.
    */
  ghost predicate Blocks(geo: Geography, a: seq<Station>, b: seq<Station>, m: set<Pair>, i: nat, j: nat)
    requires Pairing(geo, a, b, m)
  {
    && i < |a| && j < |b| && Matches(geo, a[i], b[j])
    && (i, j) !in m
    && (forall k :: (i, k) in m ==> Prefers(a[i], b, j, k))
    && (forall k :: (k, j) in m ==> i < k)
  }

  ghost predicate Stable(geo: Geography, a: seq<Station>, b: seq<Station>, m: set<Pair>)
  {
    && Pairing(geo, a, b, m)
    && (forall i: nat, j: nat :: i < |a| && j < |b| ==> !Blocks(geo, a, b, m, i, j))
  }

  /** The greedy result as a set of pairs. */
  ghost function Greedy(geo: Geography, a: seq<Station>, b: seq<Station>): set<Pair>
  {
    Members(AllPairs(geo, a, b))
  }

  // ----- The greedy result is the one stable pairing -----

  /** First indices increase and second indices are pairwise distinct. */
  ghost predicate Injective(pairs: seq<Pair>)
  {
    forall x, y :: 0 <= x < y < |pairs| ==> pairs[x].0 < pairs[y].0 && pairs[x].1 != pairs[y].1
  }

  ghost predicate AllMatch(geo: Geography, a: seq<Station>, b: seq<Station>, pairs: seq<Pair>)
  {
    forall x :: 0 <= x < |pairs| ==>
                  pairs[x].0 < |a| && pairs[x].1 < |b| && Matches(geo, a[pairs[x].0], b[pairs[x].1])
  }

  lemma InjectiveOneMore(pairs: seq<Pair>, p: Pair)
    requires Injective(pairs) && p.1 !in TakenB(pairs)
    requires forall q :: q in pairs ==> q.0 < p.0
    ensures Injective(pairs + [p])
  {}

  lemma AllMatchOneMore(geo: Geography, a: seq<Station>, b: seq<Station>, pairs: seq<Pair>, p: Pair)
    requires AllMatch(geo, a, b, pairs)
    requires p.0 < |a| && p.1 < |b| && Matches(geo, a[p.0], b[p.1])
    ensures AllMatch(geo, a, b, pairs + [p])
  {}

  lemma {:induction false} PairsAllMatch(geo: Geography, a: seq<Station>, b: seq<Station>, n: nat)
    requires n <= |a|
    ensures AllMatch(geo, a, b, Pairs(geo, a, b, n))
  {
    if n > 0 {
      PairsAllMatch(geo, a, b, n - 1);
      var prev := Pairs(geo, a, b, n - 1);
      var choice := Choice(geo, a[n - 1], b, TakenB(prev));
      if choice.Some? {
        AllMatchOneMore(geo, a, b, prev, (n - 1, choice.value));
      }
    }
  }

  /** The loop walks route a forwards and uses each station of route b at most once. */
  lemma {:induction false} PairsAreInjective(geo: Geography, a: seq<Station>, b: seq<Station>, n: nat)
    requires n <= |a|
    ensures Injective(Pairs(geo, a, b, n))
  {
    if n > 0 {
      PairsAreInjective(geo, a, b, n - 1);
      PairsStep(geo, a, b, n - 1);
      var prev := Pairs(geo, a, b, n - 1);
      var choice := Choice(geo, a[n - 1], b, TakenB(prev));
      if choice.Some? {
        InjectiveOneMore(prev, (n - 1, choice.value));
      }
    }
  }

  lemma GreedyIsPairing(geo: Geography, a: seq<Station>, b: seq<Station>)
    ensures Pairing(geo, a, b, Greedy(geo, a, b))
    ensures |Greedy(geo, a, b)| == |AllPairs(geo, a, b)|
  {
    PairsAreInjective(geo, a, b, |a|);
    PairsAllMatch(geo, a, b, |a|);
    DistinctCount(AllPairs(geo, a, b));
  }

  /** The members after one more round. */
  lemma PairsMembers(geo: Geography, a: seq<Station>, b: seq<Station>, i: nat, p: Pair)
    requires i < |a|
    ensures var prev := Pairs(geo, a, b, i);
            p in Pairs(geo, a, b, i + 1) <==> p in prev || (p.0 == i && Choice(geo, a[i], b, TakenB(prev)) == Some(p.1))
  {}

  /** The pairs kept after n rounds are exactly the final pairs with a first index below n. */
  lemma {:induction false} PairsGrow(geo: Geography, a: seq<Station>, b: seq<Station>, n: nat, m: nat, p: Pair)
    requires n <= m <= |a|
    ensures p in Pairs(geo, a, b, n) <==> p in Pairs(geo, a, b, m) && p.0 < n
    decreases m - n
  {
    if n < m {
      PairsGrow(geo, a, b, n, m - 1, p);
      PairsMembers(geo, a, b, m - 1, p);
    }
  }

  /** The partners held by the first i stations of `a`. */
  ghost function Earlier(m: set<Pair>, i: nat): set<nat>
  {
    set p | p in m && p.0 < i :: p.1
  }

  /** Round i in terms of the final result alone. */
  lemma GreedyAt(geo: Geography, a: seq<Station>, b: seq<Station>, i: nat, k: nat)
    requires i < |a|
    ensures var taken := Earlier(Greedy(geo, a, b), i);
            (i, k) in Greedy(geo, a, b) <==> Choice(geo, a[i], b, taken) == Some(k)
  {
    var prev := Pairs(geo, a, b, i);
    var taken := Earlier(Greedy(geo, a, b), i);
    forall p
      ensures p in prev <==> p in Greedy(geo, a, b) && p.0 < i
    {
      PairsGrow(geo, a, b, i, |a|, p);
    }
    assert taken == TakenB(prev);
    PairsGrow(geo, a, b, i + 1, |a|, (i, k));
    PairsMembers(geo, a, b, i, (i, k));
  }

  /**
    A matching pair is either used up by an earlier station of `a`, or station i got a partner
    it likes at least as much.
    */
  lemma GreedyCovers(geo: Geography, a: seq<Station>, b: seq<Station>, i: nat, j: nat)
    requires i < |a| && j < |b| && Matches(geo, a[i], b[j])
    ensures || (exists e: nat :: e < i && (e, j) in Greedy(geo, a, b))
            || (exists k: nat :: k < |b| && (i, k) in Greedy(geo, a, b) && (k == j || Prefers(a[i], b, k, j)))
  {
    var taken := Earlier(Greedy(geo, a, b), i);
    if j in taken {
      var p :| p in Greedy(geo, a, b) && p.0 < i && p.1 == j;
      assert (p.0, j) in Greedy(geo, a, b);
    } else {
      ChoiceIsBest(geo, a[i], b, taken, j);
      var k := Choice(geo, a[i], b, taken).value;
      GreedyAt(geo, a, b, i, k);
      assert (i, k) in Greedy(geo, a, b);
    }
  }

  lemma GreedyIsStable(geo: Geography, a: seq<Station>, b: seq<Station>)
    ensures Stable(geo, a, b, Greedy(geo, a, b))
  {
    var g := Greedy(geo, a, b);
    GreedyIsPairing(geo, a, b);
    forall i: nat, j: nat | i < |a| && j < |b|
      ensures !Blocks(geo, a, b, g, i, j)
    {
      if Matches(geo, a[i], b[j]) {
        GreedyCovers(geo, a, b, i, j);
      }
    }
  }

  /**
    In a stable pairing, a station of `a` holds its best partner among those not held by
    earlier stations.
    */
  lemma StableAt(geo: Geography, a: seq<Station>, b: seq<Station>, m: set<Pair>, taken: set<nat>, i: nat, k: nat)
    requires Stable(geo, a, b, m) && i < |a|
    requires forall j :: j in taken <==> exists e: nat :: e < i && (e, j) in m
    ensures (i, k) in m <==> Choice(geo, a[i], b, taken) == Some(k)
  {
    forall c | (i, c) in m
      ensures c !in taken
    {
      assert forall e: nat :: e < i ==> (e, c) !in m;
    }
    forall c | (i, c) in m
      ensures Choice(geo, a[i], b, taken).Some?
      ensures Choice(geo, a[i], b, taken).value == c || Prefers(a[i], b, Choice(geo, a[i], b, taken).value, c)
    {
      ChoiceIsBest(geo, a[i], b, taken, c);
    }
    var choice := Choice(geo, a[i], b, taken);
    if choice.Some? && (i, choice.value) !in m {
      assert Blocks(geo, a, b, m, i, choice.value);
    }
  }

  /** A stable pairing gives every station of `a` the partner the loop gives it. */
  lemma {:induction false} StableAgree(geo: Geography, a: seq<Station>, b: seq<Station>, m: set<Pair>, i: nat, k: nat)
    requires Stable(geo, a, b, m) && i < |a|
    ensures (i, k) in m <==> (i, k) in Greedy(geo, a, b)
    decreases i
  {
    var g := Greedy(geo, a, b);
    var taken := Earlier(g, i);
    forall p: Pair | p.0 < i
      ensures p in m <==> p in g
    {
      StableAgree(geo, a, b, m, p.0, p.1);
    }
    forall j
      ensures j in taken <==> exists e: nat :: e < i && (e, j) in m
    {
      if e: nat :| e < i && (e, j) in m {
        assert (e, j) in g;
      }
    }
    StableAt(geo, a, b, m, taken, i, k);
    GreedyAt(geo, a, b, i, k);
  }

  /** The greedy result is the only stable pairing of the two lists. */
  lemma GreedyIsTheStablePairing(geo: Geography, a: seq<Station>, b: seq<Station>, m: set<Pair>)
    ensures Stable(geo, a, b, m) <==> m == Greedy(geo, a, b)
  {
    GreedyIsStable(geo, a, b);
    if Stable(geo, a, b, m) {
      forall p: Pair
        ensures p in m <==> p in Greedy(geo, a, b)
      {
        if p.0 < |a| {
          StableAgree(geo, a, b, m, p.0, p.1);
        } else {
          GreedyIsPairing(geo, a, b);
        }
      }
    }
  }

  // ----- Maximality and the half bound -----

  lemma GreedyIsMaximal(geo: Geography, a: seq<Station>, b: seq<Station>, i: nat, j: nat)
    requires i < |a| && j < |b| && OnePlace(geo, a[i], b[j])
    ensures exists p :: p in Greedy(geo, a, b) && (p.0 == i || p.1 == j)
  {
    GreedyCovers(geo, a, b, i, j);
  }

  lemma {:induction false} FirstsCardinality(m: set<Pair>)
    requires forall p, q :: p in m && q in m && p.0 == q.0 ==> p == q
    ensures |set p | p in m :: p.0| == |m|
  {
    if m != {} {
      var x :| x in m;
      FirstsCardinality(m - {x});
      assert (set p | p in m :: p.0) == (set p | p in m - {x} :: p.0) + {x.0};
    }
  }

  lemma {:induction false} SecondsCardinality(m: set<Pair>)
    requires forall p, q :: p in m && q in m && p.1 == q.1 ==> p == q
    ensures |set p | p in m :: p.1| == |m|
  {
    if m != {} {
      var x :| x in m;
      SecondsCardinality(m - {x});
      assert (set p | p in m :: p.1) == (set p | p in m - {x} :: p.1) + {x.1};
    }
  }

  /** Every pair of a pairing shares a station with a greedy pair. */
  lemma PairingIsCovered(geo: Geography, a: seq<Station>, b: seq<Station>, m: set<Pair>)
    requires Pairing(geo, a, b, m)
    ensures var g := Greedy(geo, a, b);
            forall p :: p in m ==> p.0 in (set q | q in g :: q.0) || p.1 in (set q | q in g :: q.1)
  {
    forall p | p in m
      ensures exists q :: q in Greedy(geo, a, b) && (q.0 == p.0 || q.1 == p.1)
    {
      GreedyIsMaximal(geo, a, b, p.0, p.1);
    }
  }

  /** Pairs whose first or second component is drawn from given sets. */
  lemma CoveredCardinality(m: set<Pair>, firsts: set<nat>, seconds: set<nat>)
    requires forall p, q :: p in m && q in m && (p.0 == q.0 || p.1 == q.1) ==> p == q
    requires forall p :: p in m ==> p.0 in firsts || p.1 in seconds
    ensures |m| <= |firsts| + |seconds|
  {
    var left, right := set p | p in m && p.0 in firsts, set p | p in m && p.1 in seconds;
    assert m == left + right;
    FirstsCardinality(left);
    SecondsCardinality(right);
    SubsetCardinality(set p | p in left :: p.0, firsts);
    SubsetCardinality(set p | p in right :: p.1, seconds);
  }

  /** No pairing of the two lists is more than twice as large as the greedy one. */
  lemma GreedyIsHalfOfAnyPairing(geo: Geography, a: seq<Station>, b: seq<Station>, m: set<Pair>)
    requires Pairing(geo, a, b, m)
    ensures |m| <= 2 * |AllPairs(geo, a, b)|
  {
    var g := Greedy(geo, a, b);
    GreedyIsPairing(geo, a, b);
    FirstsCardinality(g);
    SecondsCardinality(g);
    PairingIsCovered(geo, a, b, m);
    CoveredCardinality(m, set p | p in g :: p.0, set p | p in g :: p.1);
  }
}
