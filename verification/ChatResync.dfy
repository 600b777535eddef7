/**
  Resynchronisation after a drop: the client asks for messages from the time of the last one
  it received, 50 at a time, and repeats on every reconnect.
  */
module ChatResync {
  import opened Common
  import opened ChatStore
  import opened ChatLog

  function ViewOf(m: Message): View
  {
    View(m.id, m.sender, Some(m.sentAtMs), m.content, None)
  }

  function Views(page: seq<Message>): (vs: seq<View>)
    ensures |vs| == |page| && forall i :: 0 <= i < |page| ==> vs[i] == ViewOf(page[i])
  {
    seq(|page|, i requires 0 <= i < |page| => ViewOf(page[i]))
  }

  /** The lower bound the gateway reads messages from; a time that is not positive is none. */
  function Since(c: Client): Option<int>
  {
    if c.lastSeen.Some? && c.lastSeen.value.sentAtMs > 0 then Some(c.lastSeen.value.sentAtMs) else None
  }

  /** The answers a synchronisation may get. */
  ghost predicate SyncPage(store: set<Message>, coupleId: string, c: Client, page: seq<Message>)
  {
    PageOf(store, coupleId, None, Since(c), SYNC_PAGE, page)
  }

  function Round(c: Client, me: Id, page: seq<Message>, now: int): Client
  {
    ReceiveAll(c, me, Views(page), now)
  }

  /** Stored messages from the last one received on that the client has not seen. */
  function Missing(store: set<Message>, coupleId: string, c: Client): set<Message>
  {
    set m | m in Matching(store, coupleId, None, Since(c)) && m.id !in c.seen
  }

  /** The stored messages the client has seen among those it asks for. */
  function Repeated(store: set<Message>, coupleId: string, c: Client): set<Message>
  {
    set m | m in Matching(store, coupleId, None, Since(c)) && m.id in c.seen
  }

  /** Row ids are unique and not empty, and times are positive. */
  ghost predicate GoodStore(store: set<Message>)
  {
    UniqueIds(store) && forall m :: m in store ==> m.id != "" && m.sentAtMs > 0
  }

  /** The client has received something, and nothing later than its last message. */
  ghost predicate LastIsMax(store: set<Message>, coupleId: string, c: Client)
  {
    && c.lastSeen.Some? && c.lastSeen.value.sentAtMs > 0
    && forall m :: m in store && m.coupleId == coupleId && m.id in c.seen ==> m.sentAtMs <= c.lastSeen.value.sentAtMs
  }

  // ----- One round -----

  function PageIds(page: seq<Message>): set<Id>
  {
    set m | m in page :: m.id
  }

  /** A round over a page is one message and then the rest. */
  lemma RoundUnfolds(c: Client, me: Id, page: seq<Message>, now: int)
    requires page != []
    ensures Round(c, me, page, now) == Round(Receive(c, me, ViewOf(page[0]), now), me, page[1..], now)
    ensures page == [page[0]] + page[1..] && PageIds(page) == {page[0].id} + PageIds(page[1..])
  {
    assert Views(page)[1..] == Views(page[1..]);
    assert page == [page[0]] + page[1..];
  }

  lemma {:induction false} ReceivesPage(c: Client, me: Id, page: seq<Message>, now: int)
    requires forall m :: m in page ==> m.id != ""
    ensures Round(c, me, page, now).seen == c.seen + PageIds(page)
    decreases |page|
  {
    if page != [] {
      RoundUnfolds(c, me, page, now);
      ReceivesPage(Receive(c, me, ViewOf(page[0]), now), me, page[1..], now);
    }
  }

  lemma ReceivesOne(c: Client, me: Id, m: Message, now: int)
    requires m.id != "" && c.lastSeen.Some?
    ensures var next := Receive(c, me, ViewOf(m), now);
            && next.seen == c.seen + {m.id}
            && next.lastSeen == if m.id !in c.seen && c.lastSeen.value.sentAtMs <= m.sentAtMs
                                then Some(Mark(m.id, m.sentAtMs)) else c.lastSeen
  {}

  predicate OneIdEach(page: seq<Message>)
  {
    page == [] || (page[0].id !in PageIds(page[1..]) && OneIdEach(page[1..]))
  }

  lemma {:induction false} PageHasOneIdEach(store: set<Message>, page: seq<Message>)
    requires UniqueIds(store) && Distinct(page) && forall m :: m in page ==> m in store
    ensures OneIdEach(page)
  {
    if page != [] {
      PageHasOneIdEach(store, page[1..]);
      assert forall n :: n in page[1..] ==> n in page && n != page[0];
    }
  }

  /** The later of the last message and the messages of a page that were not seen. */
  lemma {:induction false} MovesMark(c: Client, me: Id, page: seq<Message>, now: int) returns (n: Message)
    requires c.lastSeen.Some? && OneIdEach(page) && forall m :: m in page ==> m.id != ""
    ensures var after := Round(c, me, page, now);
            && after.lastSeen.Some? && c.lastSeen.value.sentAtMs <= after.lastSeen.value.sentAtMs
            && (after.lastSeen != c.lastSeen ==>
                  n in page && n.id !in c.seen && n.sentAtMs == after.lastSeen.value.sentAtMs)
    ensures forall m :: m in page && m.id !in c.seen ==> m.sentAtMs <= Round(c, me, page, now).lastSeen.value.sentAtMs
    decreases |page|
  {
    if page == [] {
      n :| true;
    } else {
      RoundUnfolds(c, me, page, now);
      ReceivesOne(c, me, page[0], now);
      hide Round, Receive;
      var next := Receive(c, me, ViewOf(page[0]), now);
      n := MovesMark(next, me, page[1..], now);
      forall m | m in page && m.id !in c.seen
        ensures m.sentAtMs <= Round(c, me, page, now).lastSeen.value.sentAtMs
      {
        if m != page[0] {
          assert m in page[1..] && m.id in PageIds(page[1..]);
        }
      }
      if Round(next, me, page[1..], now).lastSeen == next.lastSeen {
        n := page[0];
      }
    }
  }

  lemma SameIdInPage(store: set<Message>, page: seq<Message>, m: Message)
    requires UniqueIds(store) && m in store && m.id in PageIds(page) && forall n :: n in page ==> n in store
    ensures m in page
  {}

  /** A round takes exactly the rows of its page off the missing ones. */
  lemma RoundTakesPage(store: set<Message>, coupleId: string, c: Client, me: Id, page: seq<Message>, now: int)
    requires GoodStore(store) && LastIsMax(store, coupleId, c) && SyncPage(store, coupleId, c, page)
    ensures LastIsMax(store, coupleId, Round(c, me, page, now))
    ensures Missing(store, coupleId, Round(c, me, page, now)) == Missing(store, coupleId, c) - Members(page)
  {
    var after := Round(c, me, page, now);
    ReceivesPage(c, me, page, now);
    PageHasOneIdEach(store, page);
    var last := MovesMark(c, me, page, now);
    forall m | m in store && m.coupleId == coupleId && m.id in after.seen
      ensures m.sentAtMs <= after.lastSeen.value.sentAtMs
    {
      if m.id !in c.seen {
        SameIdInPage(store, page, m);
      }
    }
    forall m | m in Missing(store, coupleId, c) && m !in page
      ensures m in Missing(store, coupleId, after)
    {
      if m.id in PageIds(page) {
        SameIdInPage(store, page, m);
      }
      if after.lastSeen != c.lastSeen {
        assert Precedes(Since(c), last, m);
      }
    }
  }

  // ----- When a round makes progress -----

  /** What has been seen among the messages asked for was all sent at the time asked from. */
  lemma RepeatedAreFirst(store: set<Message>, coupleId: string, c: Client)
    requires LastIsMax(store, coupleId, c)
    ensures forall m :: m in Repeated(store, coupleId, c) ==> m.sentAtMs == c.lastSeen.value.sentAtMs
  {}

  lemma ProgressIfFewSeen(store: set<Message>, coupleId: string, c: Client, page: seq<Message>)
    requires SyncPage(store, coupleId, c, page)
    requires Missing(store, coupleId, c) != {} && |Repeated(store, coupleId, c)| < SYNC_PAGE
    ensures Missing(store, coupleId, c) * Members(page) != {}
  {
    DistinctCount(page);
    if |page| < SYNC_PAGE {
      ShortPageIsAll(store, coupleId, None, Since(c), SYNC_PAGE, page);
      assert Missing(store, coupleId, c) * Members(page) == Missing(store, coupleId, c);
    } else if m :| m in page && m !in Repeated(store, coupleId, c) {
      assert m in Missing(store, coupleId, c) * Members(page);
    } else {
      SubsetCardinality(Members(page), Repeated(store, coupleId, c));
    }
  }

  /** Some order of any `n` members of a set. */
  lemma {:induction false} Listing(s: set<Message>, n: nat) returns (page: seq<Message>)
    requires n <= |s|
    ensures |page| == n && Distinct(page) && forall m :: m in page ==> m in s
    decreases n
  {
    if n == 0 {
      page := [];
    } else {
      var m :| m in s;
      var rest := Listing(s - {m}, n - 1);
      page := [m] + rest;
    }
  }

  /** With 50 messages of one time seen, the server may send those 50 again. */
  lemma StuckPage(store: set<Message>, coupleId: string, c: Client) returns (page: seq<Message>)
    requires LastIsMax(store, coupleId, c) && |Repeated(store, coupleId, c)| >= SYNC_PAGE
    ensures SyncPage(store, coupleId, c, page) && Missing(store, coupleId, c) * Members(page) == {}
  {
    page := Listing(Repeated(store, coupleId, c), SYNC_PAGE);
    RepeatedAreFirst(store, coupleId, c);
    SubsetCardinality(Repeated(store, coupleId, c), Matching(store, coupleId, None, Since(c)));
    assert Since(c) == Some(c.lastSeen.value.sentAtMs);
  }

  ghost predicate Shrinks(store: set<Message>, coupleId: string, c: Client, me: Id, page: seq<Message>, now: int)
  {
    Missing(store, coupleId, Round(c, me, page, now)) < Missing(store, coupleId, c)
  }

  /**
    While messages are missing, a round is certain to bring some of them exactly when fewer
    than 50 messages of the last received time have been seen.
    */
  lemma RoundShrinksIff(store: set<Message>, coupleId: string, c: Client, me: Id, now: int)
    requires GoodStore(store) && LastIsMax(store, coupleId, c) && Missing(store, coupleId, c) != {}
    ensures (forall page :: SyncPage(store, coupleId, c, page) ==> Shrinks(store, coupleId, c, me, page, now))
       <==> |Repeated(store, coupleId, c)| < SYNC_PAGE
  {
    if |Repeated(store, coupleId, c)| < SYNC_PAGE {
      forall page | SyncPage(store, coupleId, c, page)
        ensures Shrinks(store, coupleId, c, me, page, now)
      {
        ProgressIfFewSeen(store, coupleId, c, page);
        RoundTakesPage(store, coupleId, c, me, page, now);
      }
    } else {
      var page := StuckPage(store, coupleId, c);
      RoundTakesPage(store, coupleId, c, me, page, now);
      var missing := Missing(store, coupleId, c);
      assert missing - Members(page) == missing by {
        assert missing * Members(page) == {};
        assert forall m :: m in missing ==> m !in missing * Members(page);
      }
      assert !Shrinks(store, coupleId, c, me, page, now);
    }
  }

  // ----- Repeated rounds -----

  /** Fewer than 50 messages of any one time. */
  ghost predicate Spread(store: set<Message>, coupleId: string)
  {
    forall t: int :: |AtTime(store, coupleId, t)| < SYNC_PAGE
  }

  function AtTime(store: set<Message>, coupleId: string, t: int): set<Message>
  {
    set m | m in store && m.coupleId == coupleId && m.sentAtMs == t
  }

  ghost predicate Rounds(store: set<Message>, coupleId: string, me: Id, cs: seq<Client>, pages: seq<seq<Message>>,
                         now: int)
  {
    && |cs| == |pages| + 1
    && forall n {:trigger pages[n]} :: 0 <= n < |pages| ==>
         SyncPage(store, coupleId, cs[n], pages[n]) && cs[n + 1] == Round(cs[n], me, pages[n], now)
  }

  lemma SpreadIsProgress(store: set<Message>, coupleId: string, c: Client)
    requires LastIsMax(store, coupleId, c) && Spread(store, coupleId)
    ensures |Repeated(store, coupleId, c)| < SYNC_PAGE
  {
    RepeatedAreFirst(store, coupleId, c);
    SubsetCardinality(Repeated(store, coupleId, c), AtTime(store, coupleId, c.lastSeen.value.sentAtMs));
  }

  lemma OneRound(store: set<Message>, coupleId: string, c: Client, me: Id, page: seq<Message>, now: int)
    requires GoodStore(store) && Spread(store, coupleId) && LastIsMax(store, coupleId, c)
    requires SyncPage(store, coupleId, c, page)
    ensures var after := Round(c, me, page, now);
            && LastIsMax(store, coupleId, after)
            && |Missing(store, coupleId, after)| <= Max(0, |Missing(store, coupleId, c)| - 1)
            && c.seen <= after.seen
            && forall m :: m in Missing(store, coupleId, c) ==>
                 m.id in after.seen || m in Missing(store, coupleId, after)
  {
    var before, rows := Missing(store, coupleId, c), Members(page);
    RoundTakesPage(store, coupleId, c, me, page, now);
    ReceivesPage(c, me, page, now);
    SpreadIsProgress(store, coupleId, c);
    if before != {} {
      ProgressIfFewSeen(store, coupleId, c, page);
      var m :| m in before * rows;
      assert m in before && m !in before - rows;
    }
    SubsetCardinality(before - rows, before);
  }

  /**
    Without new traffic, and with fewer than 50 messages of any one time, every round brings
    at least one missing message, none is passed over, and as many rounds as messages were
    missing bring them all.
    */
  lemma {:induction false} ResyncConverges(
      store: set<Message>, coupleId: string, me: Id, cs: seq<Client>, pages: seq<seq<Message>>, now: int, n: nat)
    requires GoodStore(store) && Spread(store, coupleId) && Rounds(store, coupleId, me, cs, pages, now) && n <= |pages|
    requires LastIsMax(store, coupleId, cs[0])
    ensures LastIsMax(store, coupleId, cs[n])
    ensures |Missing(store, coupleId, cs[n])| <= Max(0, |Missing(store, coupleId, cs[0])| - n)
    ensures forall m :: m in Missing(store, coupleId, cs[0]) ==>
              m.id in cs[n].seen || m in Missing(store, coupleId, cs[n])
  {
    if n > 0 {
      ResyncConverges(store, coupleId, me, cs, pages, now, n - 1);
      hide Missing, LastIsMax, Spread, SyncPage, Round, GoodStore;
      var c, page := cs[n - 1], pages[n - 1];
      assert cs[n - 1 + 1] == Round(c, me, page, now);
      OneRound(store, coupleId, c, me, page, now);
    }
  }
}
