/**
  The stored messages of a couple and the reads clients page through them with.  The database
  orders by time alone, so rows of one time may come in any order.
  */
module ChatStore {
  import opened Common

  type Id = string

  datatype Message = Message(id: Id, coupleId: string, sender: Id, sentAtMs: int, content: string)

  /** A bound of a query: absent, null and zero all mean no bound. */
  predicate Given(bound: Option<int>)
  {
    bound.Some? && bound.value != 0
  }

  function Matching(store: set<Message>, coupleId: string, before: Option<int>, after: Option<int>)
    : (rows: set<Message>)
    ensures forall m :: m in rows ==> m in store && m.coupleId == coupleId
    ensures before in {None, Some(0)} && after in {None, Some(0)} ==>
              forall m :: m in store && m.coupleId == coupleId ==> m in rows
  {
    set m | m in store && m.coupleId == coupleId
         && (Given(before) ==> m.sentAtMs < before.value) && (Given(after) ==> after.value <= m.sentAtMs)
  }

  /** Time order: ascending where a lower bound is given, descending otherwise. */
  predicate Precedes(after: Option<int>, m: Message, n: Message)
  {
    if Given(after) then m.sentAtMs <= n.sentAtMs else n.sentAtMs <= m.sentAtMs
  }

  /** A result the query may give: the first `limit` matching rows in time order. */
  ghost predicate PageOf(store: set<Message>, coupleId: string, before: Option<int>, after: Option<int>, limit: nat,
                         page: seq<Message>)
  {
    var rows := Matching(store, coupleId, before, after);
    && Distinct(page) && (forall m :: m in page ==> m in rows)
    && |page| == Min(limit, |rows|)
    && (forall i, j :: 0 <= i < j < |page| ==> Precedes(after, page[i], page[j]))
    && (forall m, n :: m in page && n in rows && n !in page ==> Precedes(after, m, n))
  }

  /** Row ids are unique. */
  ghost predicate UniqueIds(store: set<Message>)
  {
    forall m, n :: m in store && n in store && m.id == n.id ==> m == n
  }

  /** A page that is not full holds every matching row. */
  lemma ShortPageIsAll(store: set<Message>, coupleId: string, before: Option<int>, after: Option<int>, limit: nat,
                       page: seq<Message>)
    requires PageOf(store, coupleId, before, after, limit, page)
    ensures |page| < limit ==> Members(page) == Matching(store, coupleId, before, after)
    ensures |Matching(store, coupleId, before, after)| <= limit ==>
              Members(page) == Matching(store, coupleId, before, after)
  {
    DistinctCount(page);
    SubsetCardinality(Members(page), Matching(store, coupleId, before, after));
  }
}
