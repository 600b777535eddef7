/**
  The photo hook's state as its callbacks update it, next to the rows they are answered from and
  to the history that says which photos it cannot know of.
  */
module PhotosHook {
  import opened Common
  import opened PhotoPaging

  method DropIds(photos: seq<Id>, ids: set<Id>) returns (kept: seq<Id>)
    ensures kept == Without(photos, ids)
  {
    kept := [];
    for i := 0 to |photos|
      invariant kept + Without(photos[i..], ids) == Without(photos, ids)
    {
      assert photos[i..][1..] == photos[i + 1..];
      if photos[i] !in ids {
        kept := kept + [photos[i]];
      }
    }
  }

  class PhotosHook {
    var rows: map<Id, int>
    var photos: seq<Id>
    var cursor: Option<Id>
    var hasMore: bool
    ghost var history: History

    ghost function State(): World
      reads this
    {
      World(rows, photos, cursor, hasMore)
    }

    /**
      No photo is shown twice; rows down to the last one loaded are shown but for the partner's
      new ones, the newest first; with nothing more to load all of them are, unless paging was
      cut off.
      */
    ghost predicate Valid()
      reads this
    {
      Inv(State(), history) && NewestFirst(State(), history)
    }

    /** The hook loads the first page as soon as it is mounted. */
    constructor (rows: map<Id, int>, data: seq<Id>)
      requires DistinctTimes(rows) && PageOf(rows, None, data)
      ensures State() == PhotoPaging.Refetch(World(rows, [], None, true), data)
      ensures Valid()
    {
      this.rows, photos, cursor, hasMore := rows, [], None, true;
      history := History(rows.Keys, {}, {}, None, None);
      new;
      LoadFirst(data);
    }

    /** Everything from the newest photo on. */
    method LoadFirst(data: seq<Id>)
      requires NoRepeats(State(), history) && PageOf(rows, None, data)
      modifies this
      ensures State() == PhotoPaging.Refetch(old(State()), data)
      ensures history == Remember(old(State()), old(history), Refetches(data))
      ensures Valid()
    {
      RefetchKeepsInv(State(), history, data);
      FirstPageIsOrdered(State(), history, data);
      hide NewestFirst, Inv, PageOf, NoRepeats;
      history := Remember(State(), history, Refetches(data));
      cursor := None;
      hasMore := true;
      FetchPhotos(None, data);
    }

    method FetchPhotos(behind: Option<Id>, data: seq<Id>)
      modifies this`photos, this`cursor, this`hasMore
      ensures State() == Fetched(old(State()), data, behind.Some?)
    {
      if |data| < PAGE_SIZE {
        hasMore := false;
      }
      if behind.Some? {
        photos := photos + data;
      } else {
        photos := data;
      }
      if |data| > 0 {
        cursor := Some(data[|data| - 1]);
      }
    }

    method LoadMore(data: seq<Id>)
      requires Valid() && Possible(State(), history, LoadsMore(data))
      modifies this
      ensures State() == Do(old(State()), LoadsMore(data))
      ensures photos == old(photos) + if old(hasMore) && old(cursor).Some? then data else []
      ensures history == Remember(old(State()), old(history), LoadsMore(data))
      ensures Valid()
    {
      DoKeepsInv(State(), history, LoadsMore(data));
      DoKeepsOrder(State(), history, LoadsMore(data));
      hide NewestFirst, Inv, PageOf;
      history := Remember(State(), history, LoadsMore(data));
      if !hasMore || cursor.None? {
        return;
      }
      FetchPhotos(cursor, data);
    }

    method Refetch(data: seq<Id>)
      requires Valid() && PageOf(rows, None, data)
      modifies this
      ensures State() == Do(old(State()), Refetches(data))
      ensures history == Remember(old(State()), old(history), Refetches(data))
      ensures Valid()
    {
      LoadFirst(data);
    }

    method UploadPhotos(ids: seq<Id>, at: int)
      requires Valid() && FreshIds(State(), history, ids, at)
      modifies this
      ensures State() == Do(old(State()), Uploads(ids, at))
      ensures photos == ids + old(photos)
      ensures history == Remember(old(State()), old(history), Uploads(ids, at))
      ensures Valid()
    {
      DoKeepsInv(State(), history, Uploads(ids, at));
      DoKeepsOrder(State(), history, Uploads(ids, at));
      hide NewestFirst, Inv, FreshIds;
      history := Remember(State(), history, Uploads(ids, at));
      rows := Stored(rows, ids, at);
      photos := ids + photos;
    }

    method DeletePhotos(ids: set<Id>)
      requires Valid()
      modifies this
      ensures State() == Do(old(State()), Deletes(ids))
      ensures history == Remember(old(State()), old(history), Deletes(ids))
      ensures Valid()
    {
      DoKeepsInv(State(), history, Deletes(ids));
      DoKeepsOrder(State(), history, Deletes(ids));
      hide NewestFirst, Inv;
      history := Remember(State(), history, Deletes(ids));
      rows := rows - ids;
      photos := DropIds(photos, ids);
    }

    method DeletePhoto(id: Id)
      requires Valid()
      modifies this
      ensures State() == Do(old(State()), DeletesOne(id))
      ensures history == Remember(old(State()), old(history), DeletesOne(id))
      ensures Valid()
    {
      if id in rows {
        DeletePhotos({id});
      }
    }

    /** The partner uploads or deletes, which the hook does not learn of. */
    method PartnerChanges(op: Op)
      requires Valid() && Possible(State(), history, op) && (op.PartnerUploads? || op.PartnerDeletes?)
      modifies this`rows, this`history
      ensures State() == Do(old(State()), op)
      ensures history == Remember(old(State()), old(history), op)
      ensures Valid()
    {
      DoKeepsInv(State(), history, op);
      DoKeepsOrder(State(), history, op);
      hide NewestFirst, Inv, FreshIds;
      history := Remember(State(), history, op);
      rows := if op.PartnerUploads? then Stored(rows, op.ids, op.at) else rows - op.gone;
    }
  }
}
