/**
  Backward paging: after the first page, the client asks for 20 messages older than the oldest
  it shows, until a page comes back short.  The messages stored when the first page was read
  are all shown in the end exactly when no page ends between two messages of one time.
  */
module ChatPaging {
  import opened Common
  import opened ChatStore
  import opened ChatLog
  import opened ChatResync

  function EntryOf(me: Id, m: Message): Entry
  {
    Entry(m.id, m.sender == me, m.sentAtMs, m.content, false)
  }

  function Entries(me: Id, page: seq<Message>): (r: seq<Entry>)
    ensures |r| == |page| && forall i :: 0 <= i < |page| ==> r[i] == EntryOf(me, page[i])
  {
    seq(|page|, i requires 0 <= i < |page| => EntryOf(me, page[i]))
  }

  lemma {:induction false} MappedPage(me: Id, page: seq<Message>, now: int)
    requires forall m :: m in page ==> m.id != ""
    ensures MappedAll(me, Views(page), now) == Entries(me, page)
  {
    if page != [] {
      assert Views(page)[1..] == Views(page[1..]);
      MappedPage(me, page[1..], now);
      assert Entries(me, page) == [EntryOf(me, page[0])] + Entries(me, page[1..]);
    }
  }

  lemma {:induction false} AllUnseen(log: seq<Entry>, seen: set<Id>)
    requires forall e :: e in log ==> e.id !in seen
    ensures Unseen(log, seen) == log
  {
    if log != [] {
      AllUnseen(log[1..], seen);
    }
  }

  // ----- Where paging stands -----

  /** The messages of `base` before a time. */
  function Older(base: set<Message>, t: int): set<Message>
  {
    set m | m in base && m.sentAtMs < t
  }

  /** The page leaves out no row of the time it ends at. */
  ghost predicate Whole(rows: set<Message>, page: seq<Message>)
  {
    forall m, p :: m in rows && m !in page && p in page ==> m.sentAtMs < p.sentAtMs
  }

  /** Paging has not passed what it has not shown, and the page under way is asked for from the oldest entry. */
  ghost predicate Paged(base: set<Message>, c: Client)
  {
    && (c.log == [] ==> base == {}) && (base == {} ==> !c.hasMore)
    && (c.fetching.Some? ==> c.hasMore && c.fetching.value == Oldest(c.log))
    && (c.log != [] && base != {} ==> Oldest(c.log) > 0)
    && (forall m :: m in base && m.id in c.seen ==> c.log != [] && Oldest(c.log) <= m.sentAtMs)
  }

  ghost predicate AllShown(base: set<Message>, c: Client)
  {
    forall m :: m in base ==> m.id in c.seen
  }

  /** Everything from the oldest entry on is shown, and everything is once the server has no more. */
  ghost predicate NothingPassed(base: set<Message>, c: Client)
  {
    && (forall m :: m in base && c.log != [] && Oldest(c.log) <= m.sentAtMs ==> m.id in c.seen)
    && (!c.hasMore ==> AllShown(base, c))
  }

  /** A message not older than the oldest entry is not shown. */
  ghost predicate SomePassed(base: set<Message>, c: Client)
  {
    exists m :: m in base && m.id !in c.seen && c.log != [] && Oldest(c.log) <= m.sentAtMs
  }

  lemma OldestEntry(log: seq<Entry>) returns (e: Entry)
    requires log != []
    ensures e in log && e.sentAtMs == Oldest(log)
  {
    var t := Oldest(log);
    e :| e in log && e.sentAtMs == t;
  }

  lemma OldestOfMore(more: seq<Entry>, log: seq<Entry>)
    requires more != [] || log != []
    ensures Oldest(more + log) == if more == [] then Oldest(log) else if log == [] then Oldest(more)
                                  else Min(Oldest(more), Oldest(log))
  {}

  // ----- The first page -----

  lemma LoadIsPage(c: Client, me: Id, page: seq<Message>, now: int)
    requires forall m :: m in page ==> m.id != ""
    ensures var after := Load(c, me, Views(page), now);
            && after.log == Entries(me, page) && after.seen == PageIds(page)
            && (after.hasMore <==> c.hasMore && |page| >= INITIAL_PAGE) && after.fetching == c.fetching
  {
    MappedPage(me, page, now);
    var mapped := Entries(me, page);
    forall x
      ensures x in Ids(mapped) <==> x in PageIds(page)
    {
      if x in PageIds(page) {
        var i :| 0 <= i < |page| && page[i].id == x;
        assert mapped[i] in mapped;
      }
    }
  }

  /** What is shown after the first page. */
  lemma OldestOfPage(me: Id, page: seq<Message>)
    requires page != []
    ensures exists p :: p in page && p.sentAtMs == Oldest(Entries(me, page))
    ensures forall p :: p in page ==> Oldest(Entries(me, page)) <= p.sentAtMs
  {
    var log := Entries(me, page);
    var e := OldestEntry(log);
    var i :| 0 <= i < |log| && log[i] == e;
    assert page[i] in page;
    forall p | p in page
      ensures Oldest(log) <= p.sentAtMs
    {
      var j :| 0 <= j < |page| && page[j] == p;
      assert log[j] in log;
    }
  }

  ghost predicate FirstPage(base: set<Message>, coupleId: string, page: seq<Message>)
  {
    PageOf(base, coupleId, None, None, INITIAL_PAGE, page)
  }

  /** The messages of one couple, with unique non-empty ids and positive times. */
  ghost predicate Base(base: set<Message>, coupleId: string)
  {
    GoodStore(base) && forall m :: m in base ==> m.coupleId == coupleId
  }

  lemma FirstPageIsPaged(base: set<Message>, coupleId: string, c: Client, me: Id, page: seq<Message>, now: int)
    requires Base(base, coupleId) && FirstPage(base, coupleId, page) && c.hasMore && c.fetching == None
    ensures var after := Load(c, me, Views(page), now);
            && Paged(base, after)
            && (Whole(base, page) ==> NothingPassed(base, after))
            && (!Whole(base, page) ==> SomePassed(base, after))
  {
    var after := Load(c, me, Views(page), now);
    assert Matching(base, coupleId, None, None) == base;
    LoadIsPage(c, me, page, now);
    ShortPageIsAll(base, coupleId, None, None, INITIAL_PAGE, page);
    SeenIsInPage(base, page);
    if page != [] {
      OldestOfPage(me, page);
    }
  }

  lemma SeenIsInPage(base: set<Message>, page: seq<Message>)
    requires UniqueIds(base) && forall m :: m in page ==> m in base
    ensures forall m :: m in base ==> (m.id in PageIds(page) <==> m in page)
  {}

  // ----- Older pages -----

  /** The server's answer to the request under way, when nothing older has arrived since. */
  ghost predicate OlderPage(base: set<Message>, coupleId: string, c: Client, store: set<Message>, page: seq<Message>)
  {
    && c.fetching.Some?
    && PageOf(store, coupleId, c.fetching, None, OLDER_PAGE, page)
    && base <= store
    && (forall m :: m in store && m !in base && m.coupleId == coupleId ==> c.log != [] && Oldest(c.log) <= m.sentAtMs)
  }

  lemma OlderRows(base: set<Message>, coupleId: string, c: Client, store: set<Message>, page: seq<Message>)
    requires Base(base, coupleId) && Paged(base, c) && base != {} && OlderPage(base, coupleId, c, store, page)
    ensures Matching(store, coupleId, c.fetching, None) == Older(base, Oldest(c.log))
  {}

  lemma FinishIsPage(base: set<Message>, coupleId: string, c: Client, me: Id, store: set<Message>, page: seq<Message>,
                     now: int)
    requires Base(base, coupleId) && Paged(base, c) && base != {} && OlderPage(base, coupleId, c, store, page)
    ensures var after := FinishOlder(c, me, Views(page), now);
            && after.log == Entries(me, page) + c.log && after.seen == c.seen + PageIds(page)
            && (after.hasMore <==> c.hasMore && |page| >= OLDER_PAGE) && after.fetching == None
  {
    OlderRows(base, coupleId, c, store, page);
    assert forall m :: m in page ==> m in base && m.sentAtMs < Oldest(c.log);
    MappedPage(me, page, now);
    var mapped := Entries(me, page);
    forall e | e in mapped
      ensures e.id !in c.seen
    {
      var i :| 0 <= i < |mapped| && mapped[i] == e;
      assert page[i] in page;
    }
    AllUnseen(mapped, c.seen);
    LoadIsPage(c, me, page, now);
  }

  lemma OlderKeepsPaged(base: set<Message>, coupleId: string, c: Client, me: Id, store: set<Message>,
                        page: seq<Message>, now: int)
    requires Base(base, coupleId) && Paged(base, c) && base != {} && OlderPage(base, coupleId, c, store, page)
    ensures var after := FinishOlder(c, me, Views(page), now);
            && Paged(base, after)
            && after.log != []
            && (page == [] ==> Oldest(after.log) == Oldest(c.log))
            && (forall p :: p in page ==> Oldest(after.log) <= p.sentAtMs)
            && (page != [] ==> exists p :: p in page && p.sentAtMs == Oldest(after.log))
  {
    OlderRows(base, coupleId, c, store, page);
    FinishIsPage(base, coupleId, c, me, store, page, now);
    var log := Entries(me, page);
    OldestOfMore(log, c.log);
    if page != [] {
      OldestOfPage(me, page);
    }
    assert forall m :: m in page ==> m in base;
    SeenIsInPage(base, page);
  }

  lemma OlderKeepsNothingPassed(base: set<Message>, coupleId: string, c: Client, me: Id, store: set<Message>,
                                page: seq<Message>, now: int)
    requires Base(base, coupleId) && Paged(base, c) && base != {} && OlderPage(base, coupleId, c, store, page)
    requires NothingPassed(base, c) && Whole(Older(base, Oldest(c.log)), page)
    ensures NothingPassed(base, FinishOlder(c, me, Views(page), now))
  {
    OlderRows(base, coupleId, c, store, page);
    FinishIsPage(base, coupleId, c, me, store, page, now);
    OlderKeepsPaged(base, coupleId, c, me, store, page, now);
    ShortPageIsAll(store, coupleId, c.fetching, None, OLDER_PAGE, page);
    assert forall m :: m in page ==> m in Members(page) && m.id in PageIds(page);
    var after := FinishOlder(c, me, Views(page), now);
    forall m | m in base && Oldest(after.log) <= m.sentAtMs
      ensures m.id in after.seen
    {
      if m.sentAtMs < Oldest(c.log) {
        assert m in Older(base, Oldest(c.log));
      }
    }
  }

  /** A page that ends between two messages of one time passes one of them. */
  lemma SplitPasses(base: set<Message>, coupleId: string, c: Client, me: Id, store: set<Message>, page: seq<Message>,
                    now: int)
    requires Base(base, coupleId) && Paged(base, c) && base != {} && OlderPage(base, coupleId, c, store, page)
    requires !Whole(Older(base, Oldest(c.log)), page)
    ensures SomePassed(base, FinishOlder(c, me, Views(page), now))
  {
    OlderRows(base, coupleId, c, store, page);
    FinishIsPage(base, coupleId, c, me, store, page, now);
    OlderKeepsPaged(base, coupleId, c, me, store, page, now);
    var m, p :| m in Older(base, Oldest(c.log)) && m !in page && p in page && p.sentAtMs <= m.sentAtMs;
    assert forall n :: n in page ==> n in base;
    SeenIsInPage(base, page);
    assert m.id !in FinishOlder(c, me, Views(page), now).seen;
  }

  /** What was passed is never asked for again. */
  lemma OlderKeepsSomePassed(base: set<Message>, coupleId: string, c: Client, me: Id, store: set<Message>,
                             page: seq<Message>, now: int)
    requires Base(base, coupleId) && Paged(base, c) && base != {} && OlderPage(base, coupleId, c, store, page)
    requires SomePassed(base, c)
    ensures SomePassed(base, FinishOlder(c, me, Views(page), now))
  {
    OlderRows(base, coupleId, c, store, page);
    FinishIsPage(base, coupleId, c, me, store, page, now);
    OlderKeepsPaged(base, coupleId, c, me, store, page, now);
    var m :| m in base && m.id !in c.seen && Oldest(c.log) <= m.sentAtMs;
    assert forall n :: n in page ==> n in base && n != m;
    SeenIsInPage(base, page);
    assert m.id !in FinishOlder(c, me, Views(page), now).seen;
    OldestOfMore(Entries(me, page), c.log);
  }

  lemma OlderSplits(base: set<Message>, t: int, u: int, rows: set<Message>)
    requires t <= u && forall p :: p in rows ==> p in Older(base, u) && t <= p.sentAtMs
    ensures |Older(base, t)| + |rows| <= |Older(base, u)|
  {
    var rest := Older(base, t);
    assert rest !! rows;
    SubsetCardinality(rest + rows, Older(base, u));
  }

  /** A full page leaves at least 20 fewer messages to ask for. */
  lemma OlderShrinks(base: set<Message>, coupleId: string, c: Client, me: Id, store: set<Message>, page: seq<Message>,
                     now: int)
    requires Base(base, coupleId) && Paged(base, c) && base != {} && OlderPage(base, coupleId, c, store, page)
    ensures var after := FinishOlder(c, me, Views(page), now);
            after.hasMore ==> |Older(base, Oldest(after.log))| + OLDER_PAGE <= |Older(base, Oldest(c.log))|
  {
    OlderRows(base, coupleId, c, store, page);
    FinishIsPage(base, coupleId, c, me, store, page, now);
    OlderKeepsPaged(base, coupleId, c, me, store, page, now);
    var after := FinishOlder(c, me, Views(page), now);
    if after.hasMore {
      DistinctCount(page);
      assert Oldest(after.log) <= Oldest(c.log) by {
        var p := page[0];
        assert p in page && p in Older(base, Oldest(c.log));
      }
      assert forall p :: p in page ==> p in Older(base, Oldest(c.log));
      hide FinishOlder, Paged, PageOf, OlderPage, Base, Views;
      OlderSplits(base, Oldest(after.log), Oldest(c.log), Members(page));
    }
  }

  // ----- Other traffic -----

  /** A view of a message already seen, or of a new one that is not older than the oldest entry. */
  ghost predicate Harmless(base: set<Message>, c: Client, v: View, now: int)
  {
    || v.id in c.seen
    || (&& (forall m :: m in base ==> m.id != v.id)
        && (c.log == [] || Oldest(c.log) <= if v.sentAtMs.Some? then v.sentAtMs.value else now))
  }

  /** Nothing arrives late and the log is not loaded anew. */
  ghost predicate NoLate(base: set<Message>, c: Client, op: Op, now: int)
  {
    match op
    case Incoming(v) => Harmless(base, c, v, now)
    case Synced(vs) => forall v :: v in vs ==> Harmless(base, c, v, now)
    case Sent(cid, _) => (forall m :: m in base ==> m.id != cid) && (c.log == [] || Oldest(c.log) <= now)
    case Loaded(_) => false
    case OlderLoaded(_) => false
    case _ => true
  }

  /** The part of the client that paging depends on is the same. */
  ghost predicate SamePaging(base: set<Message>, c: Client, after: Client)
  {
    && (c.log == [] || (after.log != [] && Oldest(after.log) == Oldest(c.log)))
    && (forall m :: m in base ==> (m.id in after.seen <==> m.id in c.seen))
    && after.hasMore == c.hasMore
  }

  lemma AppendIsSame(base: set<Message>, c: Client, e: Entry, optimistic: bool)
    requires e.id in c.seen || ((forall m :: m in base ==> m.id != e.id) &&
                                (c.log == [] || Oldest(c.log) <= e.sentAtMs))
    ensures SamePaging(base, c, Append(c, e, optimistic))
  {}

  lemma ReceiveIsSame(base: set<Message>, c: Client, me: Id, v: View, now: int)
    requires Harmless(base, c, v, now)
    ensures SamePaging(base, c, Receive(c, me, v, now)) && Receive(c, me, v, now).fetching == c.fetching
    ensures c.seen <= Receive(c, me, v, now).seen
  {}

  lemma {:induction false} ReceiveAllIsSame(base: set<Message>, c: Client, me: Id, vs: seq<View>, now: int)
    requires forall v :: v in vs ==> Harmless(base, c, v, now)
    requires c.log == [] ==> base == {}
    ensures base != {} ==> SamePaging(base, c, ReceiveAll(c, me, vs, now))
    ensures ReceiveAll(c, me, vs, now).fetching == c.fetching && ReceiveAll(c, me, vs, now).hasMore == c.hasMore
    ensures c.log != [] ==> ReceiveAll(c, me, vs, now).log != []
    decreases |vs|
  {
    if base == {} {
      ReceiveAllFrame(c, me, vs, now);
    } else if vs != [] {
      var next := Receive(c, me, vs[0], now);
      ReceiveIsSame(base, c, me, vs[0], now);
      forall v | v in vs[1..]
        ensures Harmless(base, next, v, now)
      {
        assert v in vs;
      }
      ReceiveAllIsSame(base, next, me, vs[1..], now);
    }
  }

  lemma {:induction false} ReceiveAllFrame(c: Client, me: Id, vs: seq<View>, now: int)
    ensures ReceiveAll(c, me, vs, now).fetching == c.fetching && ReceiveAll(c, me, vs, now).hasMore == c.hasMore
    ensures c.log != [] ==> ReceiveAll(c, me, vs, now).log != []
    decreases |vs|
  {
    if vs != [] {
      ReceiveAllFrame(Receive(c, me, vs[0], now), me, vs[1..], now);
    }
  }

  lemma OtherIsSame(base: set<Message>, c: Client, me: Id, op: Op, now: int)
    requires Paged(base, c) && NoLate(base, c, op, now) && base != {}
    ensures SamePaging(base, c, Do(c, me, op, now)) && Paged(base, Do(c, me, op, now))
  {
    match op
    case Incoming(v) => ReceiveIsSame(base, c, me, v, now);
    case Synced(vs) => ReceiveAllIsSame(base, c, me, vs, now);
    case Sent(cid, content) => AppendIsSame(base, c, Entry(cid, true, now, content, false), true);
    case SendFailed(cid) => FailedIsSame(c.log, cid);
    case _ =>
  }

  lemma FailedIsSame(log: seq<Entry>, cid: Id)
    requires log != []
    ensures Oldest(Failed(log, cid)) == Oldest(log)
  {}

  lemma OtherWithoutBase(c: Client, me: Id, op: Op, now: int)
    requires Paged({}, c) && NoLate({}, c, op, now)
    ensures Paged({}, Do(c, me, op, now)) && !Do(c, me, op, now).hasMore
  {
    match op
    case Synced(vs) => ReceiveAllFrame(c, me, vs, now);
    case _ =>
  }

  // ----- Whole runs -----

  ghost predicate Step(base: set<Message>, coupleId: string, c: Client, op: Op, now: int, store: set<Message>,
                       page: seq<Message>)
  {
    if op.OlderLoaded? then op.views == Views(page) && OlderPage(base, coupleId, c, store, page)
    else NoLate(base, c, op, now)
  }

  /** A run that begins with the first page, read while `base` was stored. */
  ghost predicate Paging(
      base: set<Message>, coupleId: string, me: Id, start: Client, first: seq<Message>, at: int,
      cs: seq<Client>, ops: seq<Op>, times: seq<int>, stores: seq<set<Message>>, pages: seq<seq<Message>>)
  {
    && |cs| == |ops| + 1 && |times| == |stores| == |pages| == |ops|
    && start.hasMore && start.fetching == None && FirstPage(base, coupleId, first)
    && cs[0] == Load(start, me, Views(first), at)
    && forall n {:trigger ops[n]} :: 0 <= n < |ops| ==>
         && Step(base, coupleId, cs[n], ops[n], times[n], stores[n], pages[n])
         && cs[n + 1] == Do(cs[n], me, ops[n], times[n])
  }

  /** No page so far ends between two messages of one time. */
  ghost predicate WholePages(base: set<Message>, first: seq<Message>, cs: seq<Client>, ops: seq<Op>,
                             pages: seq<seq<Message>>, n: nat)
    requires n <= |ops| <= |cs| && |pages| == |ops|
  {
    && Whole(base, first)
    && forall j {:trigger ops[j]} :: 0 <= j < n && ops[j].OlderLoaded? ==>
         cs[j].log == [] || Whole(Older(base, Oldest(cs[j].log)), pages[j])
  }

  ghost predicate Progress(base: set<Message>, c: Client, whole: bool)
  {
    && Paged(base, c)
    && (whole ==> NothingPassed(base, c))
    && (!whole ==> SomePassed(base, c))
  }

  lemma StepProgress(base: set<Message>, coupleId: string, me: Id, c: Client, op: Op, now: int, store: set<Message>,
                     page: seq<Message>, whole: bool)
    requires Base(base, coupleId) && Progress(base, c, whole) && Step(base, coupleId, c, op, now, store, page)
    ensures var stays := op.OlderLoaded? ==> c.log == [] || Whole(Older(base, Oldest(c.log)), page);
            Progress(base, Do(c, me, op, now), whole && stays)
  {
    if op.OlderLoaded? {
      OlderKeepsPaged(base, coupleId, c, me, store, page, now);
      if !whole {
        OlderKeepsSomePassed(base, coupleId, c, me, store, page, now);
      } else if Whole(Older(base, Oldest(c.log)), page) {
        OlderKeepsNothingPassed(base, coupleId, c, me, store, page, now);
      } else {
        SplitPasses(base, coupleId, c, me, store, page, now);
      }
    } else if base == {} {
      OtherWithoutBase(c, me, op, now);
    } else {
      OtherIsSame(base, c, me, op, now);
      hide Paged, NoLate, Do, Base;
      SameProgress(base, c, Do(c, me, op, now));
    }
  }

  lemma SameProgress(base: set<Message>, c: Client, after: Client)
    requires SamePaging(base, c, after) && base != {} && c.log != []
    ensures NothingPassed(base, c) ==> NothingPassed(base, after)
    ensures SomePassed(base, c) ==> SomePassed(base, after)
  {}

  lemma WholePagesStep(base: set<Message>, first: seq<Message>, cs: seq<Client>, ops: seq<Op>, pages: seq<seq<Message>>,
                       n: nat)
    requires n < |ops| <= |cs| && |pages| == |ops|
    ensures WholePages(base, first, cs, ops, pages, n + 1) <==>
              && WholePages(base, first, cs, ops, pages, n)
              && (ops[n].OlderLoaded? ==> cs[n].log == [] || Whole(Older(base, Oldest(cs[n].log)), pages[n]))
  {}

  lemma {:induction false} RunProgress(
      base: set<Message>, coupleId: string, me: Id, start: Client, first: seq<Message>, at: int,
      cs: seq<Client>, ops: seq<Op>, times: seq<int>, stores: seq<set<Message>>, pages: seq<seq<Message>>, n: nat)
    requires Base(base, coupleId) && Paging(base, coupleId, me, start, first, at, cs, ops, times, stores, pages)
    requires n <= |ops|
    ensures Progress(base, cs[n], WholePages(base, first, cs, ops, pages, n))
  {
    hide Do, Step, Progress, Whole, Base, FirstPage, Older, Oldest;
    if n == 0 {
      ProgressAtFirst(base, coupleId, start, me, first, at);
    } else {
      RunProgress(base, coupleId, me, start, first, at, cs, ops, times, stores, pages, n - 1);
      var c, op := cs[n - 1], ops[n - 1];
      assert cs[n - 1 + 1] == Do(c, me, op, times[n - 1]);
      WholePagesStep(base, first, cs, ops, pages, n - 1);
      hide WholePages;
      StepProgress(base, coupleId, me, c, op, times[n - 1], stores[n - 1], pages[n - 1],
                   WholePages(base, first, cs, ops, pages, n - 1));
    }
  }

  lemma ProgressAtFirst(base: set<Message>, coupleId: string, c: Client, me: Id, page: seq<Message>, now: int)
    requires Base(base, coupleId) && FirstPage(base, coupleId, page) && c.hasMore && c.fetching == None
    ensures Progress(base, Load(c, me, Views(page), now), Whole(base, page))
  {
    hide Load, Whole, Base, FirstPage, Paged, NothingPassed, SomePassed;
    FirstPageIsPaged(base, coupleId, c, me, page, now);
  }

  /**
    Once the server has no more, everything that was stored when the first page was read is
    shown, if and only if no page ended between two messages of one time.
    */
  lemma PagingShowsAllIff(
      base: set<Message>, coupleId: string, me: Id, start: Client, first: seq<Message>, at: int,
      cs: seq<Client>, ops: seq<Op>, times: seq<int>, stores: seq<set<Message>>, pages: seq<seq<Message>>, n: nat)
    requires Base(base, coupleId) && Paging(base, coupleId, me, start, first, at, cs, ops, times, stores, pages)
    requires n <= |ops| && !cs[n].hasMore
    ensures AllShown(base, cs[n]) <==> WholePages(base, first, cs, ops, pages, n)
  {
    RunProgress(base, coupleId, me, start, first, at, cs, ops, times, stores, pages, n);
  }

  function OlderPages(ops: seq<Op>, n: nat): nat
    requires n <= |ops|
  {
    if n == 0 then 0 else OlderPages(ops, n - 1) + if ops[n - 1].OlderLoaded? then 1 else 0
  }

  /** While the server has more, every page brought 20 new messages; so there are finitely many. */
  lemma {:induction false} PagingEnds(
      base: set<Message>, coupleId: string, me: Id, start: Client, first: seq<Message>, at: int,
      cs: seq<Client>, ops: seq<Op>, times: seq<int>, stores: seq<set<Message>>, pages: seq<seq<Message>>, n: nat)
    requires Base(base, coupleId) && Paging(base, coupleId, me, start, first, at, cs, ops, times, stores, pages)
    requires n <= |ops| && cs[n].hasMore
    ensures cs[n].log != [] && OLDER_PAGE * OlderPages(ops, n) + |Older(base, Oldest(cs[n].log))| <= |base|
  {
    hide Do, Step, Base, FirstPage, Oldest, NothingPassed, SomePassed, WholePages, Load;
    RunProgress(base, coupleId, me, start, first, at, cs, ops, times, stores, pages, n);
    if n == 0 {
      SubsetCardinality(Older(base, Oldest(cs[0].log)), base);
    } else {
      RunProgress(base, coupleId, me, start, first, at, cs, ops, times, stores, pages, n - 1);
      var c, op := cs[n - 1], ops[n - 1];
      assert cs[n - 1 + 1] == Do(c, me, op, times[n - 1]);
      StepShrinks(base, coupleId, me, c, op, times[n - 1], stores[n - 1], pages[n - 1]);
      PagingEnds(base, coupleId, me, start, first, at, cs, ops, times, stores, pages, n - 1);
    }
  }

  lemma StepShrinks(base: set<Message>, coupleId: string, me: Id, c: Client, op: Op, now: int, store: set<Message>,
                    page: seq<Message>)
    requires Base(base, coupleId) && Paged(base, c) && Step(base, coupleId, c, op, now, store, page)
    requires Do(c, me, op, now).hasMore && Do(c, me, op, now).log != []
    ensures c.hasMore && c.log != []
    ensures |Older(base, Oldest(Do(c, me, op, now).log))| + (if op.OlderLoaded? then OLDER_PAGE else 0)
         <= |Older(base, Oldest(c.log))|
  {
    if op.OlderLoaded? {
      OlderShrinks(base, coupleId, c, me, store, page, now);
    } else if base == {} {
      OtherWithoutBase(c, me, op, now);
    } else {
      OtherIsSame(base, c, me, op, now);
    }
  }

  /** Where no two messages have one time, no page can end between two. */
  lemma DistinctTimesAreWhole(store: set<Message>, coupleId: string, before: Option<int>, limit: nat,
                              page: seq<Message>)
    requires PageOf(store, coupleId, before, None, limit, page)
    requires forall m, n :: m in store && n in store && m.sentAtMs == n.sentAtMs ==> m == n
    ensures Whole(Matching(store, coupleId, before, None), page)
  {}
}
