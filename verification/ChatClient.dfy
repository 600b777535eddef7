/**
  The chat tab's message state as its event handlers update it.  Each handler is tied to the
  function that says what it does to the whole state, and keeps the log free of repeats.
  */
module ChatClient {
  import opened Common
  import opened ChatStore
  import opened ChatLog
  import opened ChatEntries

  method FlagFailed(messages: seq<Entry>, id: Id) returns (marked: seq<Entry>)
    ensures marked == Failed(messages, id)
  {
    ghost var result := Failed(messages, id);
    hide Failed;
    marked := [];
    for i := 0 to |messages|
      invariant |marked| == i && forall j :: 0 <= j < i ==> marked[j] == result[j]
    {
      var msg := messages[i];
      marked := marked + [if msg.id == id then msg.(sendFailed := true) else msg];
    }
  }

  method FindLatest(messages: seq<Entry>) returns (latest: Entry)
    requires messages != []
    ensures latest == Latest(messages)
    ensures exists i :: 0 <= i < |messages| && messages[i] == latest
                        && forall j :: 0 <= j < i ==> messages[j].sentAtMs < latest.sentAtMs
  {
    latest := messages[0];
    for i := 1 to |messages|
      invariant latest == Latest(messages[..i])
    {
      assert messages[..i + 1][..i] == messages[..i];
      if messages[i].sentAtMs > latest.sentAtMs {
        latest := messages[i];
      }
    }
    assert messages[..|messages|] == messages;
    hide Latest;
    ghost var first := LatestIsFirst(messages);
  }

  method DropSeen(messages: seq<Entry>, seen: set<Id>) returns (unseen: seq<Entry>)
    ensures unseen == Unseen(messages, seen)
  {
    unseen := [];
    for i := 0 to |messages|
      invariant unseen + Unseen(messages[i..], seen) == Unseen(messages, seen)
    {
      assert messages[i..][1..] == messages[i + 1..];
      if messages[i].id !in seen {
        unseen := unseen + [messages[i]];
      }
    }
  }

  method AddIds(seen: set<Id>, messages: seq<Entry>) returns (ids: set<Id>)
    ensures ids == seen + Ids(messages)
  {
    ids := seen;
    for i := 0 to |messages|
      invariant ids == seen + Ids(messages[..i])
    {
      assert messages[..i + 1] == messages[..i] + [messages[i]];
      ids := ids + {messages[i].id};
    }
    assert messages[..|messages|] == messages;
  }

  class ChatTab {
    const userId: Id

    var allMessages: seq<Entry>
    var seenMessageIds: set<Id>
    var lastSeenMessage: Option<Mark>
    var hasMoreServer: bool
    var fetchingOlder: Option<int>

    ghost function State(): Client
      reads this
    {
      Client(allMessages, seenMessageIds, lastSeenMessage, hasMoreServer, fetchingOlder)
    }

    /** The ids in the log are pairwise distinct and are the ids counted as seen. */
    ghost predicate Valid()
      reads this
    {
      Tidy(State())
    }

    constructor (userId: Id)
      ensures State() == Fresh() && this.userId == userId
      ensures Valid()
    {
      this.userId := userId;
      allMessages, seenMessageIds, lastSeenMessage, hasMoreServer, fetchingOlder := [], {}, None, true, None;
    }

    method AppendMessage(next: Entry, isOptimistic: bool)
      requires Valid()
      modifies this
      ensures State() == Append(old(State()), next, isOptimistic)
      ensures Valid()
    {
      AppendIsTidy(State(), next, isOptimistic);
      if next.id in seenMessageIds {
        return;
      }
      seenMessageIds := seenMessageIds + {next.id};
      if !isOptimistic && (lastSeenMessage.None? || next.sentAtMs >= lastSeenMessage.value.sentAtMs) {
        lastSeenMessage := Some(Mark(next.id, next.sentAtMs));
      }
      allMessages := allMessages + [next];
    }

    method HandleIncomingMessage(payload: View, now: int)
      requires Valid()
      modifies this
      ensures State() == Receive(old(State()), userId, payload, now)
      ensures IsDelivered(old(State()), State(), userId, payload, now)
      ensures Valid()
    {
      hide IsDelivered;
      ReceiveDelivers(State(), userId, payload, now);
      if payload.clientMessageId.Some? && payload.clientMessageId.value != "" {
        if payload.clientMessageId.value in seenMessageIds {
          return;
        }
      }
      var mapped := Mapped(userId, payload, now);
      if mapped.Some? {
        AppendMessage(mapped.value, false);
      }
    }

    /** The answer to a resynchronisation request. */
    method HandleSync(items: seq<View>, now: int)
      requires Valid()
      modifies this
      ensures State() == ReceiveAll(old(State()), userId, items, now)
      ensures Valid()
    {
      for i := 0 to |items|
        invariant Valid()
        invariant ReceiveAll(State(), userId, items[i..], now) == ReceiveAll(old(State()), userId, items, now)
      {
        assert items[i..][1..] == items[i + 1..];
        HandleIncomingMessage(items[i], now);
      }
    }

    method SendOptimistic(clientMessageId: Id, content: string, now: int)
      requires Valid()
      modifies this
      ensures State() == Send(old(State()), clientMessageId, content, now)
      ensures if clientMessageId in old(seenMessageIds) then State() == old(State())
              else allMessages == old(allMessages) + [Entry(clientMessageId, true, now, content, false)]
                   && seenMessageIds == old(seenMessageIds) + {clientMessageId}
      ensures lastSeenMessage == old(lastSeenMessage)
      ensures Valid()
    {
      AppendMessage(Entry(clientMessageId, true, now, content, false), true);
    }

    method SendFailed(clientMessageId: Id)
      requires Valid()
      modifies this
      ensures State() == MarkFailed(old(State()), clientMessageId)
      ensures Valid()
    {
      MarkFailedIsTidy(State(), clientMessageId);
      allMessages := FlagFailed(allMessages, clientMessageId);
    }

    method MapPayload(items: seq<View>, now: int) returns (mapped: seq<Entry>)
      ensures mapped == MappedAll(userId, items, now)
    {
      mapped := [];
      for i := 0 to |items|
        invariant mapped + MappedAll(userId, items[i..], now) == MappedAll(userId, items, now)
      {
        assert items[i..][1..] == items[i + 1..];
        var entry := Mapped(userId, items[i], now);
        if entry.Some? {
          mapped := mapped + [entry.value];
        }
      }
    }

    /** The first page has been answered. */
    method FetchMessages(items: seq<View>, now: int)
      requires Valid() && DistinctViews(items)
      modifies this
      ensures State() == Load(old(State()), userId, items, now)
      ensures IsLoaded(old(State()), State(), userId, items, now)
      ensures Valid()
    {
      hide IsLoaded, Latest, DistinctViews;
      MappedIds(userId, items, now);
      LoadLoads(State(), userId, items, now);
      var mapped := MapPayload(items, now);
      allMessages := mapped;
      seenMessageIds := set e | e in mapped :: e.id;
      if |mapped| > 0 {
        var latest := FindLatest(mapped);
        lastSeenMessage := Some(Mark(latest.id, latest.sentAtMs));
      }
      if |mapped| < INITIAL_PAGE {
        hasMoreServer := false;
      }
    }

    method StartFetchingOlder()
      requires Valid()
      modifies this
      ensures State() == StartOlder(old(State()))
      ensures IsAsked(old(State()), State())
      ensures Valid()
    {
      if !hasMoreServer || fetchingOlder.Some? || allMessages == [] {
        return;
      }
      fetchingOlder := Some(Oldest(allMessages));
    }

    /** The page of older messages under way has been answered. */
    method FetchOlderFromServer(items: seq<View>, now: int)
      requires Valid() && DistinctViews(items)
      modifies this
      ensures State() == FinishOlder(old(State()), userId, items, now)
      ensures IsExtended(old(State()), State(), userId, items, now)
      ensures Valid()
    {
      hide IsExtended;
      FinishOlderIsTidy(State(), userId, items, now);
      FinishExtends(State(), userId, items, now);
      var mapped := MapPayload(items, now);
      if |mapped| < OLDER_PAGE {
        hasMoreServer := false;
      }
      var newMessages := DropSeen(mapped, seenMessageIds);
      seenMessageIds := AddIds(seenMessageIds, newMessages);
      allMessages := newMessages + allMessages;
      fetchingOlder := None;
    }
  }
}
