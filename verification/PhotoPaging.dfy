/**
  Cursor paging through a couple's photos while photos are uploaded and deleted.  A page holds
  the 36 newest photos behind the last one of the page before; the database finds nothing
  behind a photo that has been deleted.
  */
module PhotoPaging {
  import opened Common

  type Id = string

  const PAGE_SIZE := 36

  /** The rows with their creation times, and what the hook holds of them. */
  datatype World = World(rows: map<Id, int>, photos: seq<Id>, cursor: Option<Id>, hasMore: bool)

  // ----- The cursor read -----

  /** The rows a page is taken from. */
  function Behind(rows: map<Id, int>, cursor: Option<Id>): set<Id>
  {
    match cursor
    case None => rows.Keys
    case Some(c) => if c in rows then set r | r in rows && rows[r] < rows[c] else {}
  }

  /** The newest rows behind the cursor, newest first. */
  ghost predicate PageOf(rows: map<Id, int>, cursor: Option<Id>, page: seq<Id>)
  {
    && Distinct(page)
    && (forall p :: p in page ==> p in Behind(rows, cursor) && p in rows)
    && |page| == Min(PAGE_SIZE, |Behind(rows, cursor)|)
    && (forall i, j :: 0 <= i < j < |page| ==> rows[page[i]] > rows[page[j]])
    && (forall r, p :: r in Behind(rows, cursor) && r !in page && p in page ==> r in rows && rows[r] < rows[p])
  }

  // ----- The hook -----

  function Fetched(w: World, page: seq<Id>, append: bool): World
  {
    w.(hasMore := w.hasMore && |page| >= PAGE_SIZE,
       photos := if append then w.photos + page else page,
       cursor := if page != [] then Some(page[|page| - 1]) else w.cursor)
  }

  /** Everything again from the newest photo on. */
  function Refetch(w: World, page: seq<Id>): World
  {
    Fetched(w.(cursor := None, hasMore := true), page, false)
  }

  function LoadMore(w: World, page: seq<Id>): World
  {
    if !w.hasMore || w.cursor.None? then w else Fetched(w, page, true)
  }

  function Without(photos: seq<Id>, ids: set<Id>): (r: seq<Id>)
    ensures forall p :: p in r <==> p in photos && p !in ids
  {
    if photos == [] then []
    else if photos[0] in ids then Without(photos[1..], ids)
    else [photos[0]] + Without(photos[1..], ids)
  }

  function Stored(rows: map<Id, int>, ids: seq<Id>, at: int): map<Id, int>
    decreases |ids|
  {
    if ids == [] then rows else Stored(rows[ids[0] := at], ids[1..], at + 1)
  }

  datatype Op =
    | Refetches(page: seq<Id>)
    | LoadsMore(page: seq<Id>)
    | Uploads(ids: seq<Id>, at: int)
    | Deletes(gone: set<Id>)
    | DeletesOne(id: Id)
    | PartnerUploads(ids: seq<Id>, at: int)
    | PartnerDeletes(gone: set<Id>)

  /** Photos deleted together leave the list in any case; one that is already gone is an error and stays in it. */
  function Do(w: World, op: Op): World
    decreases if op.DeletesOne? then 1 else 0
  {
    match op
    case Refetches(page) => Refetch(w, page)
    case LoadsMore(page) => LoadMore(w, page)
    case Uploads(ids, at) => w.(rows := Stored(w.rows, ids, at), photos := ids + w.photos)
    case Deletes(ids) => w.(rows := w.rows - ids, photos := Without(w.photos, ids))
    case DeletesOne(id) => if id in w.rows then Do(w, Deletes({id})) else w
    case PartnerUploads(ids, at) => w.(rows := Stored(w.rows, ids, at))
    case PartnerDeletes(ids) => w.(rows := w.rows - ids)
  }

  /** Pages come from the read; uploads have new ids and are newer than every row. */
  ghost predicate Possible(w: World, h: History, op: Op)
  {
    match op
    case Refetches(page) => PageOf(w.rows, None, page)
    case LoadsMore(page) => w.hasMore && w.cursor.Some? ==> PageOf(w.rows, w.cursor, page)
    case Uploads(ids, at) => FreshIds(w, h, ids, at)
    case PartnerUploads(ids, at) => FreshIds(w, h, ids, at)
    case _ => true
  }

  ghost predicate FreshIds(w: World, h: History, ids: seq<Id>, at: int)
  {
    && Distinct(ids) && (forall i :: i in ids ==> i !in h.used)
    && (forall r :: r in w.rows ==> w.rows[r] < at) && (h.edge.Some? ==> h.edge.value < at)
  }

  /**
    What has happened since the last first page: the partner's uploads, the own ones, the time
    of the last photo loaded, and the time of the photo whose deletion cut paging off, if one
    did.  `used` holds every id given out so far.
    */
  datatype History = History(
    used: set<Id>, foreign: set<Id>, own: set<Id>, edge: Option<int>, cut: Option<int>)

  function EdgeOf(rows: map<Id, int>, page: seq<Id>, otherwise: Option<int>): Option<int>
  {
    if page != [] && page[|page| - 1] in rows then Some(rows[page[|page| - 1]]) else otherwise
  }

  /** The photo the next page is counted from is among these, and there is a next page. */
  predicate HitsCursor(w: World, gone: set<Id>)
  {
    w.hasMore && w.cursor.Some? && w.cursor.value in gone
  }

  function Remember(w: World, h: History, op: Op): History
    decreases if op.DeletesOne? then 1 else 0
  {
    match op
    case Refetches(page) => h.(foreign := {}, own := {}, edge := EdgeOf(w.rows, page, None), cut := None)
    case LoadsMore(page) => if w.hasMore && w.cursor.Some? then h.(edge := EdgeOf(w.rows, page, h.edge)) else h
    case Uploads(ids, _) => h.(used := h.used + Members(ids), own := h.own + Members(ids))
    case PartnerUploads(ids, _) => h.(used := h.used + Members(ids), foreign := h.foreign + Members(ids))
    case Deletes(gone) => if HitsCursor(w, gone) then h.(cut := h.edge) else h
    case DeletesOne(id) => if id in w.rows then Remember(w, h, Deletes({id})) else h
    case PartnerDeletes(gone) => if HitsCursor(w, gone) then h.(cut := h.edge) else h
  }

  // ----- What every run keeps -----

  ghost predicate DistinctTimes(rows: map<Id, int>)
  {
    forall r, q :: r in rows && q in rows && rows[r] == rows[q] ==> r == q
  }

  ghost predicate NoRepeats(w: World, h: History)
  {
    && Distinct(w.photos) && DistinctTimes(w.rows)
    && (forall p :: p in w.photos ==> p in h.used) && (forall r :: r in w.rows ==> r in h.used)
    && (forall r :: r in h.foreign ==> r !in w.photos && r in h.used)
  }

  /** Every row is shown but for the partner's new ones. */
  ghost predicate AllShown(w: World, h: History)
  {
    forall r :: r in w.rows ==> r in w.photos || r in h.foreign
  }

  /** Rows down to the last photo loaded are shown, apart from the partner's new ones; older rows are not. */
  ghost predicate InStep(w: World, h: History)
  {
    && (w.cursor.Some? <==> h.edge.Some?)
    && (h.edge.Some? ==> forall r :: r in w.rows && h.edge.value <= w.rows[r] ==> r in w.photos || r in h.foreign)
    && (h.edge.Some? ==> forall r :: r in w.rows && w.rows[r] < h.edge.value ==> r !in w.photos && r !in h.foreign)
    && (h.edge.None? ==> !w.hasMore && h.cut.None? && AllShown(w, h))
    && (w.hasMore && h.cut.None? ==> w.cursor.value in w.rows && w.rows[w.cursor.value] == h.edge.value)
    && (h.cut.Some? ==> h.cut == h.edge && w.cursor.value !in w.rows && w.cursor.value in h.used)
    && (!w.hasMore && h.cut.None? ==> AllShown(w, h))
  }

  ghost predicate Inv(w: World, h: History)
  {
    NoRepeats(w, h) && InStep(w, h)
  }

  /** The rows after an upload: the ones before as they were, and newer ones. */
  ghost predicate Grown(rows: map<Id, int>, after: map<Id, int>, ids: seq<Id>, at: int)
  {
    && DistinctTimes(after)
    && (forall r :: r in after <==> r in rows || r in ids)
    && (forall r :: r in rows ==> after[r] == rows[r])
    && (forall r :: r in ids ==> after[r] >= at)
  }

  lemma {:induction false} StoredRows(rows: map<Id, int>, ids: seq<Id>, at: int)
    requires DistinctTimes(rows) && Distinct(ids) && (forall i :: i in ids ==> i !in rows)
    requires forall r :: r in rows ==> rows[r] < at
    ensures Grown(rows, Stored(rows, ids, at), ids, at)
    decreases |ids|
  {
    if ids != [] {
      assert ids == [ids[0]] + ids[1..];
      StoredRows(rows[ids[0] := at], ids[1..], at + 1);
    }
  }

  lemma JoinIsDistinct(a: seq<Id>, b: seq<Id>)
    requires Distinct(a) && Distinct(b) && forall i :: i in a ==> i !in b
    ensures Distinct(a + b)
  {
    forall i, j | 0 <= i < |a| && 0 <= j < |b|
      ensures a[i] != b[j]
    {
      assert a[i] in a && b[j] in b;
    }
  }

  lemma {:induction false} WithoutIsDistinct(photos: seq<Id>, ids: set<Id>)
    requires Distinct(photos)
    ensures Distinct(Without(photos, ids))
  {
    if photos != [] {
      assert forall p :: p in photos[1..] ==> p != photos[0];
      WithoutIsDistinct(photos[1..], ids);
    }
  }

  lemma ShortPageIsAll(rows: map<Id, int>, cursor: Option<Id>, page: seq<Id>)
    requires PageOf(rows, cursor, page) && |page| < PAGE_SIZE
    ensures Members(page) == Behind(rows, cursor)
  {
    DistinctCount(page);
    SubsetCardinality(Members(page), Behind(rows, cursor));
  }

  /** The last photo of a page is its oldest. */
  lemma LastIsOldest(rows: map<Id, int>, cursor: Option<Id>, page: seq<Id>)
    requires PageOf(rows, cursor, page) && page != []
    ensures forall p :: p in page ==> rows[page[|page| - 1]] <= rows[p]
  {}

  lemma RefetchKeepsInv(w: World, h: History, page: seq<Id>)
    requires NoRepeats(w, h) && PageOf(w.rows, None, page)
    ensures Inv(Refetch(w, page), Remember(w, h, Refetches(page)))
  {
    if page != [] {
      LastIsOldest(w.rows, None, page);
    }
    if |page| < PAGE_SIZE {
      ShortPageIsAll(w.rows, None, page);
    }
  }

  lemma LoadKeepsInv(w: World, h: History, page: seq<Id>)
    requires Inv(w, h) && Possible(w, h, LoadsMore(page))
    ensures Inv(LoadMore(w, page), Remember(w, h, LoadsMore(page)))
  {
    if w.hasMore && w.cursor.Some? {
      if h.cut.Some? {
        DeletedCursorEndsPaging(w, page);
      } else {
        if page != [] {
          LastIsOldest(w.rows, w.cursor, page);
        }
        if |page| < PAGE_SIZE {
          ShortPageIsAll(w.rows, w.cursor, page);
        }
      }
    }
  }

  /** A page asked for behind a deleted photo is empty, and paging ends with it. */
  lemma DeletedCursorEndsPaging(w: World, page: seq<Id>)
    requires w.hasMore && w.cursor.Some? && w.cursor.value !in w.rows && PageOf(w.rows, w.cursor, page)
    ensures page == [] && LoadMore(w, page) == w.(hasMore := false)
    ensures forall more :: LoadMore(LoadMore(w, page), more) == LoadMore(w, page)
  {}

  lemma UploadKeepsNoRepeats(w: World, h: History, ids: seq<Id>, at: int, after: map<Id, int>)
    requires NoRepeats(w, h) && FreshIds(w, h, ids, at) && Grown(w.rows, after, ids, at)
    ensures NoRepeats(w.(rows := after, photos := ids + w.photos),
                      h.(used := h.used + Members(ids), own := h.own + Members(ids)))
    ensures NoRepeats(w.(rows := after), h.(used := h.used + Members(ids), foreign := h.foreign + Members(ids)))
  {
    JoinIsDistinct(ids, w.photos);
    hide DistinctTimes, Distinct;
  }

  lemma UploadKeepsInStep(w: World, h: History, ids: seq<Id>, at: int, after: map<Id, int>)
    requires NoRepeats(w, h) && InStep(w, h) && FreshIds(w, h, ids, at) && Grown(w.rows, after, ids, at)
    ensures InStep(w.(rows := after, photos := ids + w.photos),
                   h.(used := h.used + Members(ids), own := h.own + Members(ids)))
  {
    hide DistinctTimes, Distinct;
  }

  lemma PartnerUploadKeepsInStep(w: World, h: History, ids: seq<Id>, at: int, after: map<Id, int>)
    requires NoRepeats(w, h) && InStep(w, h) && FreshIds(w, h, ids, at) && Grown(w.rows, after, ids, at)
    ensures InStep(w.(rows := after), h.(used := h.used + Members(ids), foreign := h.foreign + Members(ids)))
  {
    hide DistinctTimes, Distinct;
  }

  lemma UploadKeepsInv(w: World, h: History, ids: seq<Id>, at: int)
    requires Inv(w, h) && FreshIds(w, h, ids, at)
    ensures Inv(Do(w, Uploads(ids, at)), Remember(w, h, Uploads(ids, at)))
    ensures Inv(Do(w, PartnerUploads(ids, at)), Remember(w, h, PartnerUploads(ids, at)))
  {
    StoredRows(w.rows, ids, at);
    var after := Stored(w.rows, ids, at);
    UploadKeepsNoRepeats(w, h, ids, at, after);
    UploadKeepsInStep(w, h, ids, at, after);
    PartnerUploadKeepsInStep(w, h, ids, at, after);
    hide Stored, NoRepeats, InStep, Grown;
  }

  lemma DeleteKeepsInv(w: World, h: History, gone: set<Id>)
    requires Inv(w, h)
    ensures Inv(Do(w, Deletes(gone)), Remember(w, h, Deletes(gone)))
    ensures Inv(Do(w, PartnerDeletes(gone)), Remember(w, h, PartnerDeletes(gone)))
  {
    WithoutIsDistinct(w.photos, gone);
  }

  lemma DoKeepsInv(w: World, h: History, op: Op)
    requires Inv(w, h) && Possible(w, h, op)
    ensures Inv(Do(w, op), Remember(w, h, op))
  {
    hide Inv;
    match op
    case Refetches(page) => RefetchOfInv(w, h, page);
    case LoadsMore(page) => LoadKeepsInv(w, h, page);
    case Uploads(ids, at) => UploadKeepsInv(w, h, ids, at);
    case Deletes(gone) => DeleteKeepsInv(w, h, gone);
    case DeletesOne(id) => DeleteKeepsInv(w, h, {id});
    case PartnerUploads(ids, at) => UploadKeepsInv(w, h, ids, at);
    case PartnerDeletes(gone) => DeleteKeepsInv(w, h, gone);
  }

  lemma RefetchOfInv(w: World, h: History, page: seq<Id>)
    requires Inv(w, h) && PageOf(w.rows, None, page)
    ensures Inv(Refetch(w, page), Remember(w, h, Refetches(page)))
  {
    RefetchKeepsInv(w, h, page);
  }

  // ----- The order of the list -----

  /** Whatever stands before a photo that was loaded, and not uploaded here, is newer. */
  ghost predicate NewestFirst(w: World, h: History)
  {
    forall i, j :: 0 <= i < j < |w.photos| && w.photos[i] in w.rows && w.photos[j] in w.rows ==>
                     w.photos[j] in h.own || w.rows[w.photos[i]] > w.rows[w.photos[j]]
  }

  lemma {:induction false} WithoutKeepsOrder(photos: seq<Id>, ids: set<Id>, i: nat, j: nat) returns (k: nat, l: nat)
    requires i < j < |Without(photos, ids)|
    ensures k < l < |photos| && photos[k] == Without(photos, ids)[i] && photos[l] == Without(photos, ids)[j]
  {
    if photos[0] in ids {
      k, l := WithoutKeepsOrder(photos[1..], ids, i, j);
      k, l := k + 1, l + 1;
    } else if i > 0 {
      k, l := WithoutKeepsOrder(photos[1..], ids, i - 1, j - 1);
      k, l := k + 1, l + 1;
    } else {
      k := 0;
      assert Without(photos, ids)[j] in Without(photos[1..], ids);
      var m :| 0 <= m < |photos[1..]| && photos[1..][m] == Without(photos, ids)[j];
      l := m + 1;
    }
  }

  lemma LoadKeepsOrder(w: World, h: History, page: seq<Id>)
    requires Inv(w, h) && NewestFirst(w, h) && Possible(w, h, LoadsMore(page))
    ensures NewestFirst(LoadMore(w, page), Remember(w, h, LoadsMore(page)))
  {
    if w.hasMore && w.cursor.Some? && h.cut.Some? {
      DeletedCursorEndsPaging(w, page);
    }
    hide NoRepeats;
  }

  lemma UploadKeepsOrder(w: World, h: History, ids: seq<Id>, at: int)
    requires Inv(w, h) && NewestFirst(w, h) && FreshIds(w, h, ids, at)
    ensures NewestFirst(Do(w, Uploads(ids, at)), Remember(w, h, Uploads(ids, at)))
    ensures NewestFirst(Do(w, PartnerUploads(ids, at)), Remember(w, h, PartnerUploads(ids, at)))
  {
    StoredRows(w.rows, ids, at);
    hide InStep, Distinct, DistinctTimes, Stored;
    assert forall p :: p in w.photos ==> p !in ids;
  }

  lemma DeleteKeepsOrder(w: World, h: History, gone: set<Id>)
    requires NewestFirst(w, h)
    ensures NewestFirst(Do(w, Deletes(gone)), Remember(w, h, Deletes(gone)))
    ensures NewestFirst(Do(w, PartnerDeletes(gone)), Remember(w, h, PartnerDeletes(gone)))
  {
    hide Without;
    var left, rows := Without(w.photos, gone), w.rows - gone;
    forall i, j | 0 <= i < j < |left| && left[i] in rows && left[j] in rows && left[j] !in h.own
      ensures rows[left[i]] > rows[left[j]]
    {
      var k, l := WithoutKeepsOrder(w.photos, gone, i, j);
    }
  }

  lemma DoKeepsOrder(w: World, h: History, op: Op)
    requires Inv(w, h) && NewestFirst(w, h) && Possible(w, h, op)
    ensures NewestFirst(Do(w, op), Remember(w, h, op))
  {
    hide Inv, NewestFirst;
    match op
    case Refetches(page) => FirstPageIsOrdered(w, h, page);
    case LoadsMore(page) => LoadKeepsOrder(w, h, page);
    case Uploads(ids, at) => UploadKeepsOrder(w, h, ids, at);
    case Deletes(gone) => DeleteKeepsOrder(w, h, gone);
    case DeletesOne(id) => DeleteKeepsOrder(w, h, {id});
    case PartnerUploads(ids, at) => UploadKeepsOrder(w, h, ids, at);
    case PartnerDeletes(gone) => DeleteKeepsOrder(w, h, gone);
  }

  lemma FirstPageIsOrdered(w: World, h: History, page: seq<Id>)
    requires PageOf(w.rows, None, page)
    ensures NewestFirst(Refetch(w, page), Remember(w, h, Refetches(page)))
  {}

  // ----- Runs from a first page on -----

  ghost predicate Run(ws: seq<World>, hs: seq<History>, ops: seq<Op>)
  {
    && |ws| == |hs| == |ops| + 1
    && |ops| > 0 && ops[0].Refetches? && NoRepeats(ws[0], hs[0])
    && forall n {:trigger ops[n]} :: 0 <= n < |ops| ==>
         && Possible(ws[n], hs[n], ops[n])
         && ws[n + 1] == Do(ws[n], ops[n]) && hs[n + 1] == Remember(ws[n], hs[n], ops[n])
  }

  lemma {:induction false} RunKeepsInv(ws: seq<World>, hs: seq<History>, ops: seq<Op>, n: nat)
    requires Run(ws, hs, ops) && 1 <= n <= |ops|
    ensures Inv(ws[n], hs[n])
  {
    hide Possible, Do, Remember, Inv, NoRepeats;
    var w, h, op := ws[n - 1], hs[n - 1], ops[n - 1];
    assert ws[n - 1 + 1] == Do(w, op);
    if n == 1 {
      FirstPageKeepsInv(w, h, op);
    } else {
      RunKeepsInv(ws, hs, ops, n - 1);
      DoKeepsInv(w, h, op);
    }
  }

  lemma FirstPageKeepsInv(w: World, h: History, op: Op)
    requires NoRepeats(w, h) && op.Refetches? && Possible(w, h, op)
    ensures Inv(Do(w, op), Remember(w, h, op))
  {
    RefetchKeepsInv(w, h, op.page);
  }

  /**
    From a first page on, through any uploads and deletions by either partner: no photo is
    shown twice.  Once there is no more to load, all rows but the partner's new ones are shown
    if and only if paging was not cut off by the deletion of its current cursor, or no row
    older than the deleted photo is left.
    */
  lemma PhotosAreCompleteIff(ws: seq<World>, hs: seq<History>, ops: seq<Op>, n: nat)
    requires Run(ws, hs, ops) && 1 <= n <= |ops|
    ensures Distinct(ws[n].photos)
    ensures !ws[n].hasMore ==>
              (AllShown(ws[n], hs[n]) <==>
                 hs[n].cut.None? || forall r :: r in ws[n].rows ==> hs[n].cut.value <= ws[n].rows[r])
  {
    RunKeepsInv(ws, hs, ops, n);
  }

  /** Through any run, whatever stands before a loaded photo is newer; photos uploaded here stand in front. */
  lemma {:induction false} PhotosAreNewestFirst(ws: seq<World>, hs: seq<History>, ops: seq<Op>, n: nat)
    requires Run(ws, hs, ops) && 1 <= n <= |ops|
    ensures NewestFirst(ws[n], hs[n])
  {
    hide Possible, Do, Remember, Inv, NoRepeats, NewestFirst, PageOf;
    var w, h, op := ws[n - 1], hs[n - 1], ops[n - 1];
    assert ws[n - 1 + 1] == Do(w, op);
    if n == 1 {
      FirstStepIsOrdered(w, h, op);
    } else {
      RunKeepsInv(ws, hs, ops, n - 1);
      PhotosAreNewestFirst(ws, hs, ops, n - 1);
      DoKeepsOrder(w, h, op);
    }
  }

  lemma FirstStepIsOrdered(w: World, h: History, op: Op)
    requires op.Refetches? && Possible(w, h, op)
    ensures NewestFirst(Do(w, op), Remember(w, h, op))
  {
    FirstPageIsOrdered(w, h, op.page);
    hide NewestFirst;
  }

  /** The deletion spares the photo the next page is counted from. */
  predicate SparesCursor(w: World, op: Op)
  {
    match op
    case Deletes(gone) => !HitsCursor(w, gone)
    case DeletesOne(id) => id in w.rows ==> !HitsCursor(w, {id})
    case PartnerDeletes(gone) => !HitsCursor(w, gone)
    case _ => true
  }

  lemma {:induction false} SparedRunsAreUncut(ws: seq<World>, hs: seq<History>, ops: seq<Op>, n: nat)
    requires Run(ws, hs, ops) && 1 <= n <= |ops|
    requires forall j {:trigger ops[j]} :: 0 <= j < n ==> SparesCursor(ws[j], ops[j])
    ensures hs[n].cut.None?
  {
    assert hs[n - 1 + 1] == Remember(ws[n - 1], hs[n - 1], ops[n - 1]);
    if n > 1 {
      SparedRunsAreUncut(ws, hs, ops, n - 1);
    }
  }

  /** Where deletions spare the current cursor, everything is shown in the end. */
  lemma PhotosAreComplete(ws: seq<World>, hs: seq<History>, ops: seq<Op>, n: nat)
    requires Run(ws, hs, ops) && 1 <= n <= |ops|
    requires forall j {:trigger ops[j]} :: 0 <= j < n ==> SparesCursor(ws[j], ops[j])
    ensures !ws[n].hasMore ==> forall r :: r in ws[n].rows ==> (r in ws[n].photos <==> r !in hs[n].foreign)
  {
    hide Possible, Do, Remember, SparesCursor;
    SparedRunsAreUncut(ws, hs, ops, n);
    PhotosAreCompleteIff(ws, hs, ops, n);
    RunKeepsInv(ws, hs, ops, n);
  }

  /**
    When the current cursor is deleted, by its owner or by the partner, the next page ends
    paging, and nothing is lost exactly when no other row was behind it.
    */
  lemma LostIffRowsBehind(w: World, h: History, gone: set<Id>, own: bool, page: seq<Id>)
    requires Inv(w, h) && h.cut.None? && HitsCursor(w, gone)
    requires PageOf(w.rows - gone, w.cursor, page)
    ensures var after := LoadMore(Do(w, if own then Deletes(gone) else PartnerDeletes(gone)), page);
            && !after.hasMore
            && (AllShown(after, h) <==>
                  forall r :: r in w.rows && r !in gone ==> w.rows[w.cursor.value] < w.rows[r])
  {
    var deleted := Do(w, if own then Deletes(gone) else PartnerDeletes(gone));
    DeletedCursorEndsPaging(deleted, page);
  }

  // ----- Runs that lose a photo -----

  /** A full first page, the deletion of its last photo by oneself, and the next page, which is empty. */
  function LosingOps(page: seq<Id>): seq<Op>
    requires |page| == PAGE_SIZE
  {
    [Refetches(page), Deletes({page[PAGE_SIZE - 1]}), LoadsMore([])]
  }

  function WorldsOf(w: World, ops: seq<Op>): (ws: seq<World>)
    ensures |ws| == |ops| + 1 && ws[0] == w
    ensures forall n {:trigger ops[n]} :: 0 <= n < |ops| ==> ws[n + 1] == Do(ws[n], ops[n])
    decreases |ops|
  {
    if ops == [] then [w] else [w] + WorldsOf(Do(w, ops[0]), ops[1..])
  }

  function HistoriesOf(w: World, h: History, ops: seq<Op>): (hs: seq<History>)
    ensures |hs| == |ops| + 1 && hs[0] == h
    ensures forall n {:trigger ops[n]} :: 0 <= n < |ops| ==> hs[n + 1] == Remember(WorldsOf(w, ops)[n], hs[n], ops[n])
    decreases |ops|
  {
    if ops == [] then [h] else [h] + HistoriesOf(Do(w, ops[0]), Remember(w, h, ops[0]), ops[1..])
  }

  lemma NothingBehindGone(rows: map<Id, int>, c: Id)
    requires c !in rows
    ensures PageOf(rows, Some(c), [])
  {}

  /** A full first page of more rows leaves out an older one. */
  lemma PageLeavesOlder(rows: map<Id, int>, page: seq<Id>) returns (r: Id)
    requires PageOf(rows, None, page) && |rows.Keys| > PAGE_SIZE
    ensures |page| == PAGE_SIZE && r in rows && r !in page && rows[r] < rows[page[PAGE_SIZE - 1]]
  {
    DistinctCount(page);
    if Members(page) == rows.Keys {
      assert false;
    }
    SubsetCardinality(Members(page), rows.Keys);
    r :| r in rows.Keys && r !in page;
    assert page[PAGE_SIZE - 1] in page;
  }

  /** What deleting the last photo of a first page leaves. */
  lemma AfterOwnDeletion(w: World, h: History, page: seq<Id>)
    requires NoRepeats(w, h) && PageOf(w.rows, None, page) && |page| == PAGE_SIZE
    ensures var last := page[PAGE_SIZE - 1];
            var w1, h1 := Do(w, Refetches(page)), Remember(w, h, Refetches(page));
            var w2 := Do(w1, Deletes({last}));
            && Inv(w1, h1) && h1.cut.None? && HitsCursor(w1, {last}) && w1.rows == w.rows && w1.cursor == Some(last)
            && w2.rows == w.rows - {last} && w2.hasMore && w2.cursor == Some(last)
            && PageOf(w2.rows, w2.cursor, [])
            && PageOf(w1.rows - {last}, w1.cursor, [])
  {
    RefetchKeepsInv(w, h, page);
    NothingBehindGone(w.rows - {page[PAGE_SIZE - 1]}, page[PAGE_SIZE - 1]);
    hide PageOf, Inv, NoRepeats;
  }

  lemma LosingRun(w: World, h: History, page: seq<Id>)
    requires NoRepeats(w, h) && PageOf(w.rows, None, page) && |page| == PAGE_SIZE
    ensures Run(WorldsOf(w, LosingOps(page)), HistoriesOf(w, h, LosingOps(page)), LosingOps(page))
  {
    AfterOwnDeletion(w, h, page);
    hide PageOf, NoRepeats, Inv, Do, Remember, WorldsOf, HistoriesOf, Run, FreshIds, HitsCursor;
    var ops := LosingOps(page);
    var ws, hs := WorldsOf(w, ops), HistoriesOf(w, h, ops);
    assert ws[1] == Do(w, ops[0]) && ws[2] == Do(ws[1], ops[1]);
    assert Possible(ws[0], hs[0], ops[0]) && Possible(ws[1], hs[1], ops[1]) && Possible(ws[2], hs[2], ops[2]);
    RunOfThree(ws, hs, ops);
  }

  lemma RunOfThree(ws: seq<World>, hs: seq<History>, ops: seq<Op>)
    requires |ops| == 3 && |ws| == |hs| == 4 && ops[0].Refetches? && NoRepeats(ws[0], hs[0])
    requires forall n {:trigger ops[n]} :: 0 <= n < 3 ==>
               ws[n + 1] == Do(ws[n], ops[n]) && hs[n + 1] == Remember(ws[n], hs[n], ops[n])
    requires Possible(ws[0], hs[0], ops[0]) && Possible(ws[1], hs[1], ops[1]) && Possible(ws[2], hs[2], ops[2])
    ensures Run(ws, hs, ops)
  {
    hide PageOf, NoRepeats, Do, Remember, Possible;
  }

  /**
    Whoever deletes the last photo of a first page while older photos remain never gets to see
    them: the next page ends paging.
    */
  lemma OwnDeletionLosesPhotos(w: World, h: History, page: seq<Id>)
    requires NoRepeats(w, h) && PageOf(w.rows, None, page) && |w.rows.Keys| > PAGE_SIZE
    ensures |page| == PAGE_SIZE
    ensures var ops := LosingOps(page);
            var ws, hs := WorldsOf(w, ops), HistoriesOf(w, h, ops);
            Run(ws, hs, ops) && !ws[3].hasMore && !AllShown(ws[3], hs[3])
  {
    hide NoRepeats, Inv, Run;
    var r := PageLeavesOlder(w.rows, page);
    LosingRun(w, h, page);
    AfterOwnDeletion(w, h, page);
    hide PageOf;
    var ops := LosingOps(page);
    var ws, hs := WorldsOf(w, ops), HistoriesOf(w, h, ops);
    assert ws[1] == Do(w, ops[0]) && ws[2] == Do(ws[1], ops[1]) && ws[3] == Do(ws[2], ops[2]);
    assert hs[1] == Remember(w, h, ops[0]) && hs[2] == Remember(ws[1], hs[1], ops[1]);
    assert hs[3] == Remember(ws[2], hs[2], ops[2]);
    LostIffRowsBehind(ws[1], hs[1], {page[PAGE_SIZE - 1]}, true, []);
    assert AllShown(ws[3], hs[3]) == AllShown(ws[3], hs[1]);
  }

  // ----- One such album -----

  function Name(i: nat): (s: Id)
    ensures |s| == i + 1
  {
    seq(i + 1, _ => 'x')
  }

  /** Thirty-seven photos, one a millisecond, the latest first. */
  function Album(): (ids: seq<Id>)
    ensures |ids| == 37 && forall i :: 0 <= i < 37 ==> |ids[i]| == 37 - i
  {
    seq(37, i requires 0 <= i < 37 => Name(36 - i))
  }

  function AlbumRows(): (rows: map<Id, int>)
    ensures rows.Keys == Members(Album())
    ensures forall r :: r in rows ==> rows[r] == |r|
  {
    map r | r in Members(Album()) :: |r|
  }

  function EmptyHook(): World
  {
    World(AlbumRows(), [], None, true)
  }

  function EmptyHistory(): History
  {
    History(Members(Album()), {}, {}, None, None)
  }

  lemma PlaceInAlbum(r: Id) returns (i: nat)
    requires r in Members(Album())
    ensures i < 37 && Album()[i] == r && |r| == 37 - i
  {
    i :| i < 37 && Album()[i] == r;
  }

  lemma AlbumNoRepeats()
    ensures Distinct(Album()) && |AlbumRows().Keys| == 37 && NoRepeats(EmptyHook(), EmptyHistory())
  {
    hide Album, AlbumRows;
    DistinctCount(Album());
    forall r, q | r in AlbumRows() && q in AlbumRows() && AlbumRows()[r] == AlbumRows()[q]
      ensures r == q
    {
      var i := PlaceInAlbum(r);
      var j := PlaceInAlbum(q);
    }
  }

  function AlbumFirst(): (page: seq<Id>)
    ensures |page| == 36 && forall i :: 0 <= i < 36 ==> page[i] == Album()[i]
  {
    Album()[..36]
  }

  lemma OldestIsLeft(r: Id, p: Id)
    requires r in AlbumRows() && r !in AlbumFirst() && p in AlbumFirst()
    ensures p in AlbumRows() && AlbumRows()[r] < AlbumRows()[p]
  {
    hide Album, AlbumRows, AlbumFirst;
    assert forall i :: 0 <= i < 36 ==> Album()[i] in AlbumFirst();
    var i := PlaceInAlbum(r);
    var j :| 0 <= j < 36 && AlbumFirst()[j] == p;
    assert Album()[j] == p;
  }

  lemma AlbumFirstFalls()
    ensures forall p :: p in AlbumFirst() ==> p in AlbumRows()
    ensures forall i, j :: 0 <= i < j < 36 ==> AlbumRows()[AlbumFirst()[i]] > AlbumRows()[AlbumFirst()[j]]
  {
    hide Album, AlbumRows, AlbumFirst;
    assert forall i :: 0 <= i < 36 ==> Album()[i] in Members(Album());
  }

  /** The first page of the album leaves out its oldest photo. */
  lemma AlbumPage()
    ensures PageOf(AlbumRows(), None, AlbumFirst())
  {
    AlbumNoRepeats();
    AlbumFirstFalls();
    hide Album, AlbumRows, NoRepeats, Members, AlbumFirst;
    forall r, p | r in AlbumRows() && r !in AlbumFirst() && p in AlbumFirst()
      ensures AlbumRows()[r] < AlbumRows()[p]
    {
      OldestIsLeft(r, p);
    }
    assert Distinct(AlbumFirst());
  }

  /** Such a run exists: of thirty-seven photos the thirty-sixth is deleted and the last never shown. */
  lemma OwnDeletionHappens()
    ensures var ops := LosingOps(AlbumFirst());
            var ws, hs := WorldsOf(EmptyHook(), ops), HistoriesOf(EmptyHook(), EmptyHistory(), ops);
            Run(ws, hs, ops) && !ws[3].hasMore && !AllShown(ws[3], hs[3])
  {
    AlbumNoRepeats();
    AlbumPage();
    hide NoRepeats, PageOf, Run, AllShown, Album, AlbumRows, AlbumFirst;
    OwnDeletionLosesPhotos(EmptyHook(), EmptyHistory(), AlbumFirst());
  }
}
