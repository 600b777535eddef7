/** Fifty-one messages of one time: a store on which paging loses one and resynchronisation stops. */
module ChatTies {
  import opened Common
  import opened ChatStore
  import opened ChatLog
  import opened ChatResync
  import opened ChatPaging
  import opened ChatCuts

  function Name(i: nat): (s: Id)
    ensures |s| == i + 1
  {
    seq(i + 1, _ => 'x')
  }

  function Tie(i: nat): Message
  {
    Message(Name(i), "couple", "partner", 1, "")
  }

  function TiedPage(n: nat): (page: seq<Message>)
    ensures |page| == n && forall i :: 0 <= i < n ==> page[i] == Tie(i)
  {
    seq(n, i requires 0 <= i < n => Tie(i))
  }

  function Tied(n: nat): set<Message>
  {
    Members(TiedPage(n))
  }

  lemma TiesDiffer(i: nat, j: nat)
    ensures Tie(i) == Tie(j) || Tie(i).id == Tie(j).id ==> i == j
  {
    assert |Name(i)| == i + 1 && |Name(j)| == j + 1;
  }

  lemma TiedIsBase(n: nat)
    ensures Base(Tied(n), "couple") && |Tied(n)| == n && Distinct(TiedPage(n))
    ensures forall m :: m in Tied(n) ==> m.sentAtMs == 1
  {
    var page := TiedPage(n);
    forall i, j | 0 <= i < n && 0 <= j < n
      ensures page[i] == page[j] || page[i].id == page[j].id ==> i == j
    {
      TiesDiffer(i, j);
    }
    DistinctCount(page);
  }

  lemma FewerTies(m: nat, n: nat)
    requires m <= n
    ensures forall t :: t in TiedPage(m) ==> t in Tied(n)
  {
    assert forall i :: 0 <= i < m ==> TiedPage(m)[i] == TiedPage(n)[i];
  }

  lemma AllTiesMatch(before: Option<int>, after: Option<int>)
    requires before == None && (after == None || after == Some(1))
    ensures Matching(Tied(51), "couple", before, after) == Tied(51)
  {
    TiedIsBase(51);
    hide Name, Tie, Tied, TiedPage, UniqueIds;
  }

  /** The database may answer a query for all of them with the first fifty. */
  lemma FiftyAreAPage(before: Option<int>, after: Option<int>)
    requires before == None && (after == None || after == Some(1))
    ensures PageOf(Tied(51), "couple", before, after, 50, TiedPage(50))
  {
    TiedIsBase(51);
    TiedIsBase(50);
    FewerTies(50, 51);
    AllTiesMatch(before, after);
    hide Name, Tie, Tied, TiedPage, UniqueIds, Matching, Distinct, Base;
  }

  lemma TiedIsNotCuttable()
    ensures !Cuttable(Tied(51))
  {
    TiedIsBase(51);
    forall t: int
      ensures |AtOrAfter(Tied(51), t)| != 50
    {
      assert AtOrAfter(Tied(51), t) == if t <= 1 then Tied(51) else {};
    }
    assert Held(0) == 50 && !CutAt(Tied(51), Held(0));
  }

  // ----- Paging -----

  /** The client after the first page. */
  function Loaded50(me: Id): Client
  {
    Load(Fresh(), me, Views(TiedPage(50)), 1)
  }

  lemma LoadedIsFifty(me: Id)
    ensures var c := Loaded50(me);
            && c.hasMore && c.fetching == None && c.log != [] && Oldest(c.log) == 1
            && c.seen == PageIds(TiedPage(50))
  {
    TiedIsBase(50);
    assert forall m :: m in TiedPage(50) ==> m in Tied(50);
    LoadIsPage(Fresh(), me, TiedPage(50), 1);
    OldestOfPage(me, TiedPage(50));
  }

  lemma NoneOlderThanTies(c: Client)
    requires c.fetching == Some(1) && c.log != [] && Oldest(c.log) == 1
    ensures OlderPage(Tied(51), "couple", c, Tied(51), [])
  {
    TiedIsBase(51);
    hide Tied, Oldest;
    assert Matching(Tied(51), "couple", Some(1), None) == {};
  }

  lemma FinishNothing(c: Client, me: Id)
    ensures FinishOlder(c, me, [], 1) == c.(hasMore := false, fetching := None)
  {
    assert [] + c.log == c.log;
  }

  lemma StartAtTies(me: Id)
    ensures StartOlder(Loaded50(me)) == Loaded50(me).(fetching := Some(1))
  {
    LoadedIsFifty(me);
    hide Loaded50, TiedPage, Oldest;
  }

  lemma FiftyAreFirst()
    ensures FirstPage(Tied(51), "couple", TiedPage(50))
  {
    FiftyAreAPage(None, None);
    hide PageOf;
  }

  function LosingOps(): seq<Op>
  {
    [OlderStarted, OlderLoaded([])]
  }

  function LosingClients(me: Id): seq<Client>
  {
    var c := Loaded50(me);
    [c, StartOlder(c), FinishOlder(StartOlder(c), me, [], 1)]
  }

  lemma LosingSteps(me: Id)
    ensures var cs, all := LosingClients(me), Tied(51);
            && Step(all, "couple", cs[0], LosingOps()[0], 1, all, [])
            && Step(all, "couple", cs[1], LosingOps()[1], 1, all, [])
            && !cs[2].hasMore
  {
    LoadedIsFifty(me);
    StartAtTies(me);
    hide Tied, TiedPage, Loaded50, Oldest, FinishOlder, OlderPage, StartOlder, PageIds;
    NoneOlderThanTies(LosingClients(me)[1]);
    FinishNothing(LosingClients(me)[1], me);
    assert Views([]) == [];
  }

  /** A run that loads everything there is to load and does not show one of the messages. */
  lemma PagingLosesTie(me: Id)
    ensures Paging(Tied(51), "couple", me, Fresh(), TiedPage(50), 1, LosingClients(me), LosingOps(), [1, 1],
                   [Tied(51), Tied(51)], [[], []])
    ensures !LosingClients(me)[2].hasMore && !AllShown(Tied(51), LosingClients(me)[2])
  {
    hide Tied, TiedPage, FirstPage, Step, Base, Cuttable, Load, FinishOlder, StartOlder, AllShown;
    FiftyAreFirst();
    LosingSteps(me);
    TiedIsBase(51);
    TiedIsNotCuttable();
    PagingShowsAllIffCuttable(Tied(51), "couple", me, Fresh(), TiedPage(50), 1, LosingClients(me), LosingOps(), [1, 1],
                              [Tied(51), Tied(51)], [[], []], 2);
  }

  // ----- Resynchronisation -----

  /** A page of messages that have all been seen changes nothing. */
  lemma {:induction false} SeenPageChangesNothing(c: Client, me: Id, page: seq<Message>, now: int)
    requires forall m :: m in page ==> m.id in c.seen
    ensures Round(c, me, page, now) == c
    decreases |page|
  {
    if page != [] {
      RoundUnfolds(c, me, page, now);
      SeenPageChangesNothing(c, me, page[1..], now);
    }
  }

  lemma FiftySeen(me: Id)
    ensures forall m :: m in TiedPage(50) ==> m.id in Loaded50(me).seen
  {
    LoadedIsFifty(me);
    hide Loaded50, TiedPage;
  }

  lemma FiftyAreASyncPage(me: Id)
    ensures SyncPage(Tied(51), "couple", Loaded50(me), TiedPage(50))
  {
    TiedMark(me);
    FiftyAreAPage(None, Some(1));
    hide Loaded50, TiedPage, Tied, PageOf;
  }

  lemma FiftyAreMax(me: Id)
    ensures LastIsMax(Tied(51), "couple", Loaded50(me))
  {
    TiedMark(me);
    TiedIsBase(51);
    hide Loaded50, TiedPage, Tied;
  }

  lemma OneTieIsMissing(me: Id)
    ensures Tie(50) in Missing(Tied(51), "couple", Loaded50(me))
  {
    TiedMark(me);
    LastTieIsUnseen(me);
    hide Loaded50, TiedPage, Tied, Name;
  }

  /** However many rounds follow, the server may send the same fifty each time, and one message stays missing. */
  lemma ResyncStopsAtTies(me: Id, now: int, n: nat) returns (cs: seq<Client>, pages: seq<seq<Message>>)
    ensures |pages| == n && Rounds(Tied(51), "couple", me, cs, pages, now) && LastIsMax(Tied(51), "couple", cs[0])
    ensures Tie(50) in Missing(Tied(51), "couple", cs[n])
  {
    hide Tied, TiedPage, SyncPage, Loaded50, Round, LastIsMax, Missing, Tie;
    var c := Loaded50(me);
    cs, pages := seq(n + 1, _ => c), seq(n, _ => TiedPage(50));
    FiftySeen(me);
    FiftyAreASyncPage(me);
    FiftyAreMax(me);
    OneTieIsMissing(me);
    SeenPageChangesNothing(c, me, TiedPage(50), now);
  }

  lemma TiedMark(me: Id)
    ensures Loaded50(me).lastSeen.Some? && Loaded50(me).lastSeen.value.sentAtMs == 1
  {
    TiedIsBase(50);
    assert forall m :: m in TiedPage(50) ==> m in Tied(50);
    MappedPage(me, TiedPage(50), 1);
    var log := Entries(me, TiedPage(50));
    var latest := Latest(log);
    assert latest in log;
  }

  lemma LastTieIsUnseen(me: Id)
    ensures Tie(50) in Tied(51) && Tie(50).id !in Loaded50(me).seen
  {
    LoadedIsFifty(me);
    assert TiedPage(51)[50] == Tie(50);
    forall m | m in TiedPage(50)
      ensures m.id != Tie(50).id
    {
      var i :| 0 <= i < 50 && TiedPage(50)[i] == m;
      TiesDiffer(i, 50);
    }
    hide Loaded50, TiedPage;
  }
}
