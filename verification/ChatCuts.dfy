/**
  Which stored messages backward paging shows in the end, said of the store alone: all of them,
  if and only if every page boundary that matters (after 50 messages and then every 20) falls
  between two times.
  */
module ChatCuts {
  import opened Common
  import opened ChatStore
  import opened ChatLog
  import opened ChatResync
  import opened ChatPaging

  /** The messages sent at or after a time. */
  function AtOrAfter(base: set<Message>, t: int): set<Message>
  {
    set m | m in base && t <= m.sentAtMs
  }

  /** Some time has exactly `n` messages at or after it. */
  ghost predicate CutAt(base: set<Message>, n: nat)
  {
    exists t: int :: |AtOrAfter(base, t)| == n
  }

  /** How many messages the first page and `k` full pages after it hold. */
  function Held(k: nat): nat
  {
    INITIAL_PAGE + OLDER_PAGE * k
  }

  /** Every boundary between two pages falls between two times. */
  ghost predicate Cuttable(base: set<Message>)
  {
    forall k: nat :: Held(k) < |base| ==> CutAt(base, Held(k))
  }

  lemma AtOrAfterIsRest(base: set<Message>, t: int)
    ensures AtOrAfter(base, t) == base - Older(base, t) && |AtOrAfter(base, t)| + |Older(base, t)| == |base|
  {
    assert base == AtOrAfter(base, t) + Older(base, t);
    assert AtOrAfter(base, t) !! Older(base, t);
  }

  /** A set that holds the latest messages and has the size of a cut is that cut. */
  lemma LatestAreCut(base: set<Message>, latest: set<Message>, t: int)
    requires latest <= base && |latest| == |AtOrAfter(base, t)|
    requires forall m, p :: m in base && m !in latest && p in latest ==> m.sentAtMs <= p.sentAtMs
    ensures latest == AtOrAfter(base, t)
  {
    var cut := AtOrAfter(base, t);
    if x :| x in cut && x !in latest {
      assert forall y :: y in latest ==> y in cut;
      SubsetCardinality(latest, cut);
    } else {
      SubsetCardinality(cut, latest);
    }
  }

  /** A full page above which everything is shown leaves no tie exactly where a cut falls. */
  lemma PageIsWholeIffCut(base: set<Message>, shown: set<Message>, rows: set<Message>, page: seq<Message>)
    requires shown !! rows && base == shown + rows && Members(page) <= rows && page != []
    requires forall m, p :: m in rows && p in shown ==> m.sentAtMs < p.sentAtMs
    requires forall m, p :: m in rows && m !in page && p in page ==> m.sentAtMs <= p.sentAtMs
    ensures Members(page) != rows ==> (Whole(rows, page) <==> CutAt(base, |shown| + |Members(page)|))
    ensures Members(page) == rows ==> Whole(rows, page)
  {
    var latest := shown + Members(page);
    assert |latest| == |shown| + |Members(page)|;
    if Members(page) != rows {
      if Whole(rows, page) {
        var last := Earliest(page);
        assert AtOrAfter(base, last.sentAtMs) == latest;
      } else if CutAt(base, |latest|) {
        var t :| |AtOrAfter(base, t)| == |latest|;
        LatestAreCut(base, latest, t);
      }
    }
  }

  lemma {:induction false} Earliest(page: seq<Message>) returns (m: Message)
    requires page != []
    ensures m in page && forall n :: n in page ==> m.sentAtMs <= n.sentAtMs
  {
    m := page[0];
    if |page| > 1 {
      var rest := Earliest(page[1..]);
      assert page == [page[0]] + page[1..];
      m := if rest.sentAtMs < m.sentAtMs then rest else m;
    }
  }

  /** The page holds the latest `limit` of the rows. */
  ghost predicate LatestOf(rows: set<Message>, page: seq<Message>, limit: nat)
  {
    && Distinct(page) && (forall m :: m in page ==> m in rows) && |page| == Min(limit, |rows|)
    && (forall m, p :: m in rows && m !in page && p in page ==> m.sentAtMs <= p.sentAtMs)
  }

  /** Shown above, still to be read below. */
  ghost predicate Divides(base: set<Message>, shown: set<Message>, rows: set<Message>)
  {
    && shown !! rows && base == shown + rows
    && (forall m, p :: m in rows && p in shown ==> m.sentAtMs < p.sentAtMs)
  }

  /** A page of the latest rows leaves no tie exactly if its end, where it is one, is a cut. */
  lemma PageCuts(base: set<Message>, shown: set<Message>, rows: set<Message>, page: seq<Message>, limit: nat)
    requires Divides(base, shown, rows) && LatestOf(rows, page, limit) && limit > 0
    ensures Whole(rows, page) <==> (|shown| + limit < |base| ==> CutAt(base, |shown| + limit))
  {
    DistinctCount(page);
    SubsetCardinality(Members(page), rows);
    assert |base| == |shown| + |rows|;
    if page != [] {
      PageIsWholeIffCut(base, shown, rows, page);
    }
  }

  /** What is at or after the end of a whole page is the page and what was shown before. */
  lemma WholePageIsCut(base: set<Message>, shown: set<Message>, rows: set<Message>, page: seq<Message>, limit: nat,
                       t: int)
    requires Divides(base, shown, rows) && LatestOf(rows, page, limit) && Whole(rows, page)
    requires (exists p :: p in page && p.sentAtMs == t) && forall p :: p in page ==> t <= p.sentAtMs
    ensures |AtOrAfter(base, t)| == |shown| + |page|
  {
    DistinctCount(page);
    var last :| last in page && last.sentAtMs == t;
    assert AtOrAfter(base, t) == shown + Members(page);
    assert shown !! Members(page);
  }

  lemma FirstIsLatest(base: set<Message>, coupleId: string, first: seq<Message>)
    requires Base(base, coupleId) && FirstPage(base, coupleId, first)
    ensures Divides(base, {}, base) && LatestOf(base, first, INITIAL_PAGE)
  {
    assert Matching(base, coupleId, None, None) == base;
    assert forall m, p :: m in base && m !in first && p in first ==> Precedes(None, p, m);
  }

  lemma OlderIsLatest(base: set<Message>, coupleId: string, c: Client, store: set<Message>, page: seq<Message>)
    requires Base(base, coupleId) && Paged(base, c) && base != {} && OlderPage(base, coupleId, c, store, page)
    ensures var t := Oldest(c.log);
            Divides(base, AtOrAfter(base, t), Older(base, t)) && LatestOf(Older(base, t), page, OLDER_PAGE)
  {
    OlderRows(base, coupleId, c, store, page);
    var rows := Older(base, Oldest(c.log));
    forall m, p | m in rows && m !in page && p in page
      ensures m.sentAtMs <= p.sentAtMs
    {
      assert Precedes(None, p, m);
    }
  }

  lemma FirstPageCuts(base: set<Message>, coupleId: string, first: seq<Message>)
    requires Base(base, coupleId) && FirstPage(base, coupleId, first)
    ensures Whole(base, first) <==> (Held(0) < |base| ==> CutAt(base, Held(0)))
  {
    FirstIsLatest(base, coupleId, first);
    hide Base, FirstPage, Divides, LatestOf, Whole, CutAt;
    PageCuts(base, {}, base, first, INITIAL_PAGE);
  }

  lemma OlderPageCuts(base: set<Message>, coupleId: string, c: Client, store: set<Message>, page: seq<Message>, k: nat)
    requires Base(base, coupleId) && Paged(base, c) && base != {} && OlderPage(base, coupleId, c, store, page)
    requires |AtOrAfter(base, Oldest(c.log))| == Held(k)
    ensures Whole(Older(base, Oldest(c.log)), page) <==> (Held(k + 1) < |base| ==> CutAt(base, Held(k + 1)))
  {
    hide Base, Paged, OlderPage, Divides, LatestOf, Whole, CutAt, AtOrAfter, Older, Oldest;
    OlderIsLatest(base, coupleId, c, store, page);
    PageCuts(base, AtOrAfter(base, Oldest(c.log)), Older(base, Oldest(c.log)), page, OLDER_PAGE);
  }

  /** What the client has after the first page. */
  lemma LoadedFirst(base: set<Message>, coupleId: string, c: Client, me: Id, first: seq<Message>, at: int)
    requires Base(base, coupleId) && FirstPage(base, coupleId, first) && c.hasMore && c.fetching == None
    ensures var after := Load(c, me, Views(first), at);
            && (after.hasMore <==> |first| >= INITIAL_PAGE)
            && (first != [] ==> after.log != [])
            && (first != [] ==> forall p :: p in first ==> Oldest(after.log) <= p.sentAtMs)
            && (first != [] ==> exists p :: p in first && p.sentAtMs == Oldest(after.log))
  {
    LoadIsPage(c, me, first, at);
    if first != [] {
      OldestOfPage(me, first);
    }
    hide Load, Entries, Views, PageIds, Oldest;
  }

  /** How many messages are shown after a whole first page. */
  lemma FirstPageCounts(base: set<Message>, coupleId: string, c: Client, me: Id, first: seq<Message>, at: int)
    requires Base(base, coupleId) && FirstPage(base, coupleId, first) && c.hasMore && c.fetching == None
    requires Whole(base, first)
    ensures var after := Load(c, me, Views(first), at);
            && (after.hasMore ==> after.log != [] && |AtOrAfter(base, Oldest(after.log))| == Held(0))
            && (!after.hasMore ==> |base| < Held(0))
  {
    hide Base, FirstPage, Divides, Whole, Load, AtOrAfter, Oldest, Views;
    LoadedFirst(base, coupleId, c, me, first, at);
    FirstIsLatest(base, coupleId, first);
    if Load(c, me, Views(first), at).hasMore {
      WholePageIsCut(base, {}, base, first, INITIAL_PAGE, Oldest(Load(c, me, Views(first), at).log));
    }
  }

  /** What the client has after a page of older messages. */
  lemma FinishedOlder(base: set<Message>, coupleId: string, c: Client, me: Id, store: set<Message>, page: seq<Message>,
                      now: int)
    requires Base(base, coupleId) && Paged(base, c) && base != {} && OlderPage(base, coupleId, c, store, page)
    ensures var after := FinishOlder(c, me, Views(page), now);
            && (after.hasMore <==> |page| >= OLDER_PAGE) && after.log != []
            && (page != [] ==> forall p :: p in page ==> Oldest(after.log) <= p.sentAtMs)
            && (page != [] ==> exists p :: p in page && p.sentAtMs == Oldest(after.log))
  {
    OlderKeepsPaged(base, coupleId, c, me, store, page, now);
    FinishIsPage(base, coupleId, c, me, store, page, now);
    hide FinishOlder, Views, Oldest, Base;
  }

  /** How many messages are shown after a whole page of older ones. */
  lemma OlderPageCounts(base: set<Message>, coupleId: string, c: Client, me: Id, store: set<Message>,
                        page: seq<Message>, now: int, k: nat)
    requires Base(base, coupleId) && Paged(base, c) && base != {} && OlderPage(base, coupleId, c, store, page)
    requires |AtOrAfter(base, Oldest(c.log))| == Held(k) && Whole(Older(base, Oldest(c.log)), page)
    ensures var after := FinishOlder(c, me, Views(page), now);
            && (after.hasMore ==> after.log != [] && |AtOrAfter(base, Oldest(after.log))| == Held(k + 1))
            && (!after.hasMore ==> |base| < Held(k + 1))
  {
    hide Base, Paged, OlderPage, Divides, Whole, FinishOlder, AtOrAfter, Older, Oldest, Views;
    FinishedOlder(base, coupleId, c, me, store, page, now);
    OlderIsLatest(base, coupleId, c, store, page);
    var t, after := Oldest(c.log), FinishOlder(c, me, Views(page), now);
    AtOrAfterIsRest(base, t);
    if after.hasMore {
      WholePageIsCut(base, AtOrAfter(base, t), Older(base, t), page, OLDER_PAGE, Oldest(after.log));
    }
  }

  // ----- Whole runs -----

  /** Everything said of the pages read so far. */
  ghost predicate Counted(base: set<Message>, c: Client, k: nat)
  {
    && (c.hasMore ==> c.log != [] && |AtOrAfter(base, Oldest(c.log))| == Held(k))
    && (!c.hasMore ==> |base| < Held(k))
    && forall j: nat :: j < k && Held(j) < |base| ==> CutAt(base, Held(j))
  }

  lemma StepCounted(base: set<Message>, coupleId: string, me: Id, c: Client, op: Op, now: int, store: set<Message>,
                    page: seq<Message>, k: nat)
    requires Base(base, coupleId) && Paged(base, c) && Step(base, coupleId, c, op, now, store, page)
    requires Counted(base, c, k)
    ensures op.OlderLoaded? ==> c.log != [] && base != {}
    ensures op.OlderLoaded? ==>
              (Whole(Older(base, Oldest(c.log)), page) <==> (Held(k + 1) < |base| ==> CutAt(base, Held(k + 1))))
    ensures op.OlderLoaded? && Whole(Older(base, Oldest(c.log)), page) ==> Counted(base, Do(c, me, op, now), k + 1)
    ensures !op.OlderLoaded? ==> Counted(base, Do(c, me, op, now), k)
  {
    if op.OlderLoaded? {
      OlderPageCuts(base, coupleId, c, store, page, k);
      if Whole(Older(base, Oldest(c.log)), page) {
        OlderPageCounts(base, coupleId, c, me, store, page, now, k);
        assert CutAt(base, Held(k));
      }
    } else if base == {} {
      OtherWithoutBase(c, me, op, now);
    } else {
      OtherIsSame(base, c, me, op, now);
    }
  }

  /** As long as the pages are whole, their number says how much is shown, and where they end there are cuts. */
  lemma {:induction false} WholeRunIsCounted(
      base: set<Message>, coupleId: string, me: Id, start: Client, first: seq<Message>, at: int,
      cs: seq<Client>, ops: seq<Op>, times: seq<int>, stores: seq<set<Message>>, pages: seq<seq<Message>>, n: nat)
    requires Base(base, coupleId) && Paging(base, coupleId, me, start, first, at, cs, ops, times, stores, pages)
    requires n <= |ops| && WholePages(base, first, cs, ops, pages, n)
    ensures Counted(base, cs[n], OlderPages(ops, n))
  {
    hide Do, Step, Base, FirstPage, Counted, Progress, Whole, Older, Load;
    if n == 0 {
      FirstIsCounted(base, coupleId, start, me, first, at);
    } else {
      WholePagesStep(base, first, cs, ops, pages, n - 1);
      WholeRunIsCounted(base, coupleId, me, start, first, at, cs, ops, times, stores, pages, n - 1);
      RunIsPaged(base, coupleId, me, start, first, at, cs, ops, times, stores, pages, n - 1);
      var c, op := cs[n - 1], ops[n - 1];
      assert cs[n - 1 + 1] == Do(c, me, op, times[n - 1]);
      hide WholePages, Paged;
      StepCounted(base, coupleId, me, c, op, times[n - 1], stores[n - 1], pages[n - 1], OlderPages(ops, n - 1));
    }
  }

  lemma FirstIsCounted(base: set<Message>, coupleId: string, c: Client, me: Id, first: seq<Message>, at: int)
    requires Base(base, coupleId) && FirstPage(base, coupleId, first) && c.hasMore && c.fetching == None
    requires Whole(base, first)
    ensures Counted(base, Load(c, me, Views(first), at), 0)
  {
    FirstPageCounts(base, coupleId, c, me, first, at);
  }

  lemma RunIsPaged(
      base: set<Message>, coupleId: string, me: Id, start: Client, first: seq<Message>, at: int,
      cs: seq<Client>, ops: seq<Op>, times: seq<int>, stores: seq<set<Message>>, pages: seq<seq<Message>>, n: nat)
    requires Base(base, coupleId) && Paging(base, coupleId, me, start, first, at, cs, ops, times, stores, pages)
    requires n <= |ops|
    ensures Paged(base, cs[n])
  {
    RunProgress(base, coupleId, me, start, first, at, cs, ops, times, stores, pages, n);
    hide Paging, Paged, NothingPassed, SomePassed;
  }

  /** In a store that can be cut, every page is whole. */
  lemma {:induction false} CuttableIsWhole(
      base: set<Message>, coupleId: string, me: Id, start: Client, first: seq<Message>, at: int,
      cs: seq<Client>, ops: seq<Op>, times: seq<int>, stores: seq<set<Message>>, pages: seq<seq<Message>>, n: nat)
    requires Base(base, coupleId) && Paging(base, coupleId, me, start, first, at, cs, ops, times, stores, pages)
    requires n <= |ops| && Cuttable(base)
    ensures WholePages(base, first, cs, ops, pages, n)
  {
    hide Do, Step, Base, FirstPage, Counted, Progress, Whole, Older, Load;
    if n == 0 {
      FirstPageCuts(base, coupleId, first);
    } else {
      CuttableIsWhole(base, coupleId, me, start, first, at, cs, ops, times, stores, pages, n - 1);
      WholeRunIsCounted(base, coupleId, me, start, first, at, cs, ops, times, stores, pages, n - 1);
      RunIsPaged(base, coupleId, me, start, first, at, cs, ops, times, stores, pages, n - 1);
      WholePagesStep(base, first, cs, ops, pages, n - 1);
      var c, op := cs[n - 1], ops[n - 1];
      hide WholePages, Paged;
      StepCounted(base, coupleId, me, c, op, times[n - 1], stores[n - 1], pages[n - 1], OlderPages(ops, n - 1));
    }
  }

  /**
    Once the server has no more, every message stored when the first page was read is shown, if
    and only if, for every k with 50 + 20k fewer than all messages, some time has exactly
    50 + 20k of them at or after it.
    */
  lemma PagingShowsAllIffCuttable(
      base: set<Message>, coupleId: string, me: Id, start: Client, first: seq<Message>, at: int,
      cs: seq<Client>, ops: seq<Op>, times: seq<int>, stores: seq<set<Message>>, pages: seq<seq<Message>>, n: nat)
    requires Base(base, coupleId) && Paging(base, coupleId, me, start, first, at, cs, ops, times, stores, pages)
    requires n <= |ops| && !cs[n].hasMore
    ensures AllShown(base, cs[n]) <==> Cuttable(base)
    ensures WholePages(base, first, cs, ops, pages, n) <==> Cuttable(base)
  {
    hide Base, CutAt, Step, Do, FirstPage, Load;
    PagingShowsAllIff(base, coupleId, me, start, first, at, cs, ops, times, stores, pages, n);
    if Cuttable(base) {
      CuttableIsWhole(base, coupleId, me, start, first, at, cs, ops, times, stores, pages, n);
    }
    if WholePages(base, first, cs, ops, pages, n) {
      WholeRunIsCounted(base, coupleId, me, start, first, at, cs, ops, times, stores, pages, n);
    }
  }
}
