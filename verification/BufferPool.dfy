/** The buffer pool as a cache of the disk: frames, page table, free list.  The replacer is the
  * queue that `ClockReplacer` keeps: `Unpin` appends, `Pin` deletes, `Victim` takes the first. */
module BufferPool {
  import opened Wrappers
  import opened Bytes
  import opened ClockReplacer
  import opened LogFile

  type PageId = int
  /** The bytes of a page; its LSN is the four bytes behind the page id. */
  type Data = s: seq<byte> | |s| == 4096 witness seq(4096, _ => 0 as byte)

  const OFFSET_LSN := 4

  function PageLsn(d: Data): int { Signed(U32At(d, OFFSET_LSN)) }

  /** `owed` is a history variable: the bytes were changed and the change not yet reported by an
    * unpin with the dirty flag. */
  datatype Frame =
    | NoPage
    | Frame(id: PageId, data: Data, pins: nat, dirty: bool, deallocated: bool, owed: bool)

  /** The pool at one moment.  `free` are the frames that hold no page, `evictable` the queue of
    * the replacer, `content` what clients last wrote to every live page. */
  datatype Pool = Pool(pages: seq<Frame>, free: seq<FrameId>, evictable: seq<FrameId>, table: map<PageId, FrameId>,
                       reusable: seq<PageId>, disk: map<PageId, Data>, next: PageId, content: map<PageId, Data>)

  ghost predicate NoDuplicates<T(!new)>(s: seq<T>) {
    forall i, j :: 0 <= i < j < |s| ==> s[i] != s[j]
  }

  /** A frame is free, or evictable, or pinned; never two of these. */
  ghost predicate Partitioned(p: Pool) {
    && NoDuplicates(p.free) && NoDuplicates(p.evictable)
    && (forall f {:trigger f in p.free} :: f in p.free <==> 0 <= f < |p.pages| && p.pages[f].NoPage?)
    && (forall f {:trigger f in p.evictable} :: f in p.evictable <==> 0 <= f < |p.pages| && p.pages[f].Frame? && p.pages[f].pins == 0)
  }

  /** The page table is one-to-one between cached ids and used frames. */
  ghost predicate Indexed(p: Pool) {
    && (forall id :: id in p.table ==> p.table[id] < |p.pages| && p.pages[p.table[id]].Frame? && p.pages[p.table[id]].id == id)
    && (forall f :: 0 <= f < |p.pages| && p.pages[f].Frame? ==> p.pages[f].id in p.table && p.table[p.pages[f].id] == f)
  }

  /** A cached page holds its last content; unmarked it also is what the disk holds, unless a
    * client still owes the mark, which it does not without a pin. */
  ghost predicate FrameOk(x: Frame, disk: map<PageId, Data>, content: map<PageId, Data>)
    requires x.Frame?
  {
    && x.id in content && content[x.id] == x.data
    && (x.deallocated || x.dirty || x.owed || (x.id in disk && disk[x.id] == x.data))
    && (x.pins == 0 && x.owed ==> x.deallocated || x.dirty)
  }

  ghost predicate Transparent(p: Pool) {
    && (forall f {:trigger FrameOk(p.pages[f], p.disk, p.content)} ::
          0 <= f < |p.pages| && p.pages[f].Frame? ==> FrameOk(p.pages[f], p.disk, p.content))
    && (forall id :: id in p.content && id !in p.table ==> id in p.disk && p.disk[id] == p.content[id])
  }

  /** Reusable ids are neither cached nor live, and every id in use was handed out. */
  ghost predicate IdsOk(p: Pool) {
    && NoDuplicates(p.reusable)
    && (forall id :: id in p.reusable ==> id !in p.content && id < p.next)
    && (forall id :: id in p.content ==> id < p.next)
    && (forall id :: id in p.table ==> id in p.content)
  }

  ghost predicate Ok(p: Pool) {
    Partitioned(p) && Indexed(p) && Transparent(p) && IdsOk(p)
  }

  // ---- what the operations do to the pool ----

  function Hit(p: Pool, f: FrameId): Pool
    requires f < |p.pages| && p.pages[f].Frame?
  {
    p.(pages := p.pages[f := p.pages[f].(pins := p.pages[f].pins + 1)], evictable := Without(p.evictable, f))
  }

  predicate CanEvict(p: Pool) {
    p.evictable != [] && p.evictable[0] < |p.pages| && p.pages[p.evictable[0]].Frame?
  }

  /** The page of the frame at the head of the queue leaves the pool. */
  function Evicted(p: Pool): Pool
    requires CanEvict(p)
  {
    var f := p.evictable[0];
    var x := p.pages[f];
    var q := p.(pages := p.pages[f := NoPage], evictable := p.evictable[1..], free := p.free + [f], table := p.table - {x.id});
    if x.deallocated then q.(reusable := p.reusable + [x.id], content := p.content - {x.id})
    else if x.dirty then q.(disk := p.disk[x.id := x.data])
    else q
  }

  /** A page put into the free frame `f`. */
  function Installed(p: Pool, i: nat, id: PageId, data: Data, fresh_: bool): Pool
    requires i < |p.free| && p.free[i] < |p.pages|
  {
    var f := p.free[i];
    p.(pages := p.pages[f := Frame(id, data, 1, false, false, fresh_)], free := p.free[..i] + p.free[i + 1..],
       table := p.table[id := f], content := p.content[id := data])
  }

  /** The pool with the page read into frame `f`. */
  function Loaded(p: Pool, f: FrameId, id: PageId, data: Data): Pool
    requires f < |p.pages|
  {
    p.(pages := p.pages[f := Frame(id, data, 1, false, false, false)], table := p.table[id := f], content := p.content[id := data])
  }

  /** The id given back longest ago is used again; without one the next number is handed out. */
  predicate TakenId(ids: seq<PageId>, next: PageId, id: PageId, ids': seq<PageId>, next': PageId) {
    if ids != [] then ids == [id] + ids' && next' == next else id == next && ids' == [] && next' == next + 1
  }

  /** A new page with these bytes has been made in frame `f`. */
  ghost predicate Made(p: Pool, q: Pool, f: FrameId, id: PageId, data: Data) {
    && f < |p.pages| && TakenId(p.reusable, p.next, id, q.reusable, q.next)
    && q == p.(pages := p.pages[f := Frame(id, data, 1, false, false, true)], table := p.table[id := f],
               content := p.content[id := data], reusable := q.reusable, next := q.next)
  }

  function Unpinned(p: Pool, f: FrameId, isDirty: bool): Pool
    requires f < |p.pages| && p.pages[f].Frame? && p.pages[f].pins > 0
  {
    var x := p.pages[f];
    var y := x.(pins := x.pins - 1, dirty := x.dirty || isDirty, owed := x.owed && !isDirty);
    p.(pages := p.pages[f := y],
       evictable := if y.pins == 0 && f !in p.evictable then p.evictable + [f] else p.evictable)
  }

  function Flushed(p: Pool, f: FrameId): Pool
    requires f < |p.pages| && p.pages[f].Frame?
  {
    var x := p.pages[f];
    p.(pages := p.pages[f := x.(dirty := false, owed := false)], disk := p.disk[x.id := x.data])
  }

  /** A client's change of the bytes of a page it has pinned. */
  function Written(p: Pool, f: FrameId, data: Data): Pool
    requires f < |p.pages| && p.pages[f].Frame?
  {
    var x := p.pages[f];
    p.(pages := p.pages[f := x.(data := data, owed := true)], content := p.content[x.id := data])
  }

  lemma {:induction false} WithoutKeepsDistinct(q: seq<FrameId>, id: FrameId)
    requires NoDuplicates(q)
    ensures NoDuplicates(Without(q, id))
  {
    if q != [] {
      var t := q[1..];
      assert NoDuplicates(t) && q[0] !in t;
      WithoutKeepsDistinct(t, id);
      assert q[0] !in Without(t, id);
    }
  }

  /** One frame's page replaced by the same page in another state. */
  lemma SamePage(p: Pool, q: Pool, f: FrameId)
    requires Ok(p) && f < |p.pages| && p.pages[f].Frame? && |q.pages| == |p.pages|
    requires q.pages[f].Frame? && q.pages[f].id == p.pages[f].id && q.pages == p.pages[f := q.pages[f]]
    requires q.free == p.free && q.table == p.table && q.reusable == p.reusable && q.next == p.next
    requires NoDuplicates(q.evictable)
    requires forall g :: g in q.evictable <==> if g == f then q.pages[f].pins == 0 else g in p.evictable
    requires q.content.Keys == p.content.Keys && q.disk.Keys >= p.disk.Keys
    requires forall id :: id in p.content && id != p.pages[f].id ==> q.content[id] == p.content[id]
    requires forall id :: id in p.disk && id != p.pages[f].id ==> q.disk[id] == p.disk[id]
    requires FrameOk(q.pages[f], q.disk, q.content)
    ensures Ok(q)
  {
    forall g | 0 <= g < |q.pages| && q.pages[g].Frame? ensures FrameOk(q.pages[g], q.disk, q.content) {
      if g != f { assert FrameOk(p.pages[g], p.disk, p.content); }
    }
  }

  lemma HitOk(p: Pool, f: FrameId)
    requires Ok(p) && f < |p.pages| && p.pages[f].Frame?
    ensures Ok(Hit(p, f))
  {
    assert FrameOk(p.pages[f], p.disk, p.content);
    WithoutKeepsDistinct(p.evictable, f);
    SamePage(p, Hit(p, f), f);
  }

  /** Clients that change bytes report it: without a report the last unpin finds nothing owed. */
  lemma UnpinnedOk(p: Pool, f: FrameId, isDirty: bool)
    requires Ok(p) && f < |p.pages| && p.pages[f].Frame? && p.pages[f].pins > 0
    requires p.pages[f].pins == 1 && p.pages[f].owed ==> isDirty || p.pages[f].dirty || p.pages[f].deallocated
    ensures Ok(Unpinned(p, f, isDirty))
  {
    assert FrameOk(p.pages[f], p.disk, p.content);
    SamePage(p, Unpinned(p, f, isDirty), f);
  }

  lemma FlushedOk(p: Pool, f: FrameId)
    requires Ok(p) && f < |p.pages| && p.pages[f].Frame?
    ensures Ok(Flushed(p, f)) && Flushed(p, f).content == p.content
  {
    assert FrameOk(p.pages[f], p.disk, p.content);
    SamePage(p, Flushed(p, f), f);
  }

  function GivenUp(p: Pool, f: FrameId): Pool
    requires f < |p.pages| && p.pages[f].Frame?
  {
    p.(pages := p.pages[f := p.pages[f].(deallocated := true)])
  }

  lemma GivenUpOk(p: Pool, f: FrameId)
    requires Ok(p) && f < |p.pages| && p.pages[f].Frame?
    ensures Ok(GivenUp(p, f))
  {
    assert FrameOk(p.pages[f], p.disk, p.content);
    SamePage(p, GivenUp(p, f), f);
  }

  /** A page given up and then unpinned for the last time: its eviction makes its id reusable and
    * dead, so that the next new page may have it. */
  lemma GivenUpIsReused(p: Pool, f: FrameId)
    requires Ok(p) && f < |p.pages| && p.pages[f].Frame? && p.pages[f].pins == 1 && p.evictable == []
    ensures var q := Unpinned(GivenUp(p, f), f, false);
            && Ok(q) && CanEvict(q) && q.evictable == [f]
            && Evicted(q).reusable == p.reusable + [p.pages[f].id]
            && p.pages[f].id !in Evicted(q).content && p.pages[f].id !in Evicted(q).table
            && Ok(Evicted(q))
  {
    GivenUpOk(p, f);
    UnpinnedOk(GivenUp(p, f), f, false);
    EvictedOk(Unpinned(GivenUp(p, f), f, false));
  }

  lemma WrittenOk(p: Pool, f: FrameId, data: Data)
    requires Ok(p) && f < |p.pages| && p.pages[f].Frame? && p.pages[f].pins > 0
    ensures Ok(Written(p, f, data))
  {
    assert FrameOk(p.pages[f], p.disk, p.content);
    SamePage(p, Written(p, f, data), f);
  }

  /** An eviction loses nothing: what was not deallocated can be read back from the disk. */
  lemma EvictedOk(p: Pool)
    requires Ok(p) && p.evictable != []
    ensures CanEvict(p) && p.pages[p.evictable[0]].pins == 0
    ensures Ok(Evicted(p))
    ensures var x := p.pages[p.evictable[0]];
            Evicted(p).content == if x.deallocated then p.content - {x.id} else p.content
  {
    var f := p.evictable[0];
    assert f in p.evictable;
    var x, q := p.pages[f], Evicted(p);
    assert FrameOk(x, p.disk, p.content);
    EvictedPartition(p);
    EvictedFrames(p);
    assert IdsOk(q);
  }

  lemma EvictedPartition(p: Pool)
    requires Partitioned(p) && CanEvict(p)
    ensures Partitioned(Evicted(p))
  {
    var f, q := p.evictable[0], Evicted(p);
    assert p.evictable == [f] + q.evictable;
    assert f in p.evictable && f !in p.free && f !in q.evictable;
    forall g ensures g in q.free <==> 0 <= g < |q.pages| && q.pages[g].NoPage? {
      assert g in q.free <==> g in p.free || g == f;
    }
    forall g ensures g in q.evictable <==> 0 <= g < |q.pages| && q.pages[g].Frame? && q.pages[g].pins == 0 {
      assert g in p.evictable <==> g in q.evictable || g == f;
    }
  }

  lemma EvictedFrames(p: Pool)
    requires Ok(p) && CanEvict(p)
    ensures Indexed(Evicted(p)) && Transparent(Evicted(p))
  {
    var f, q := p.evictable[0], Evicted(p);
    assert f in p.evictable;
    assert FrameOk(p.pages[f], p.disk, p.content);
    forall g | 0 <= g < |q.pages| && q.pages[g].Frame? ensures FrameOk(q.pages[g], q.disk, q.content) {
      assert FrameOk(p.pages[g], p.disk, p.content);
      assert p.pages[g].id != p.pages[f].id;
    }
  }

  lemma InstalledOk(p: Pool, i: nat, id: PageId, data: Data, fresh_: bool)
    requires Ok(p) && i < |p.free| && id !in p.table && id < p.next && id !in p.reusable
    requires if fresh_ then id !in p.content else id in p.content && p.content[id] == data
    ensures p.free[i] < |p.pages| && Ok(Installed(p, i, id, data, fresh_))
  {
    var f := p.free[i];
    assert f in p.free;
    var q := Installed(p, i, id, data, fresh_);
    InstalledPartition(p, i, id, data, fresh_);
    forall g | 0 <= g < |q.pages| && q.pages[g].Frame? ensures FrameOk(q.pages[g], q.disk, q.content) {
      if g != f { assert FrameOk(p.pages[g], p.disk, p.content); }
    }
    assert Indexed(q);
  }

  lemma InstalledPartition(p: Pool, i: nat, id: PageId, data: Data, fresh_: bool)
    requires Partitioned(p) && i < |p.free| && p.free[i] < |p.pages|
    ensures Partitioned(Installed(p, i, id, data, fresh_))
  {
    var f, q := p.free[i], Installed(p, i, id, data, fresh_);
    assert p.free == p.free[..i] + [f] + p.free[i + 1..];
    assert f in p.free && f !in p.evictable && f !in q.free && NoDuplicates(q.free);
    forall g ensures g in q.free <==> 0 <= g < |q.pages| && q.pages[g].NoPage? {
      assert g in p.free <==> g in q.free || g == f;
    }
    forall g ensures g in q.evictable <==> 0 <= g < |q.pages| && q.pages[g].Frame? && q.pages[g].pins == 0 {
      assert g in p.evictable <==> g in q.evictable;
    }
  }

  const EMPTY_PAGE: Data := seq(4096, _ => 0 as byte)

  lemma EmptyPageLsn()
    ensures PageLsn(EMPTY_PAGE) == 0
  {
    FourBytes(EMPTY_PAGE[OFFSET_LSN..OFFSET_LSN + 4]);
  }

  class BufferPoolManager {
    var pages: seq<Frame>
    var replacer: seq<FrameId>
    var freeList: seq<FrameId>
    var reUsablePageList: seq<PageId>
    var pageTable: map<PageId, FrameId>

    /** The disk: what is stored, and the next id never handed out. */
    var disk: map<PageId, Data>
    var nextPageId: PageId
    /** Log records appended, and how many of them are in the log file. */
    var appended: nat
    var durable: nat

    /** The last content of every live page. */
    ghost var content: map<PageId, Data>

    ghost function Abs(): Pool
      reads this
    {
      Pool(pages, freeList, replacer, pageTable, reUsablePageList, disk, nextPageId, content)
    }

    /** The pool with a frame picked for a page but not yet filled. */
    ghost function With(f: FrameId): Pool
      reads this
    {
      Pool(pages, freeList + [f], replacer, pageTable, reUsablePageList, disk, nextPageId, content)
    }

    ghost predicate Valid()
      reads this
    {
      Ok(Abs()) && LogOk()
    }

    /** Page LSNs are LSNs of appended records. */
    ghost predicate LogOk()
      reads this
    {
      durable <= appended && forall id :: id in content ==> Covered(PageLsn(content[id]), appended)
    }

    /** No page on disk is ahead of the log file. */
    ghost predicate WriteAheadRule()
      reads this
    {
      forall id :: id in disk ==> Covered(PageLsn(disk[id]), durable)
    }

    constructor (poolSize: nat)
      ensures Valid() && WriteAheadRule() && content == map[] && |pages| == poolSize
    {
      pages := seq(poolSize, _ => NoPage);
      replacer := [];
      freeList := seq(poolSize, i => i);
      reUsablePageList, pageTable, disk, nextPageId := [], map[], map[], 0;
      appended, durable := 0, 0;
      content := map[];
      new;
      NothingCached(Abs());
    }

    method AppendLogRecord()
      modifies this`appended
      ensures appended == old(appended) + 1
    {
      appended := appended + 1;
    }

    method FlushLog()
      modifies this`durable
      ensures durable == appended
    {
      durable := appended;
    }

    /** The page of frame `f`, which the replacer has just given up, leaves the pool. */
    method CacheOut(f: FrameId, ghost before: Pool)
      requires CanEvict(before) && before.evictable == [f] + replacer && before == Abs().(evictable := before.evictable)
      requires freeList == [] && LogOk() && f < |pages| && pages[f].Frame?
      requires pages[f].id in content && content[pages[f].id] == pages[f].data
      modifies this
      ensures With(f) == Evicted(before) && LogOk() && freeList == []
      ensures old(WriteAheadRule()) ==> WriteAheadRule()
    {
      var currentPage := pages[f];
      pageTable := pageTable - {currentPage.id};
      pages := pages[f := NoPage];
      assert freeList + [f] == before.free + [f];
      if currentPage.deallocated {
        reUsablePageList := reUsablePageList + [currentPage.id];
        content := content - {currentPage.id};
        assert With(f) == Evicted(before);
      } else if currentPage.dirty {
        FlushLog();
        disk := disk[currentPage.id := currentPage.data];
        assert With(f) == Evicted(before);
      } else {
        assert With(f) == Evicted(before);
      }
    }

    /** What holds while a frame is picked but not yet filled. */
    ghost predicate Picked(f: FrameId)
      reads this
    {
      Ok(With(f)) && LogOk()
    }

    method TakeFree() returns (f: FrameId)
      requires Valid() && freeList != []
      modifies this`freeList
      ensures Picked(f) && With(f).(free := []) == old(Abs()).(free := []) && Vacated(old(pages), pages, f)
      ensures f == old(freeList)[0] && freeList == old(freeList)[1..]
    {
      f := freeList[0];
      assert f in Abs().free;
      assert pages == pages[f := NoPage];
      freeList := freeList[1..];
      FreeTaken(old(Abs()), With(f), f);
    }

    method TakeVictim() returns (f: FrameId)
      requires Valid() && freeList == [] && replacer != []
      modifies this
      ensures Picked(f) && old(Abs()).evictable == [f] + replacer && CanEvict(old(Abs())) && With(f) == Evicted(old(Abs()))
      ensures Vacated(old(pages), pages, f)
      ensures old(WriteAheadRule()) ==> WriteAheadRule()
    {
      ghost var before := Abs();
      EvictedOk(before);
      VictimContent(before);
      f := replacer[0];
      replacer := replacer[1..];
      assert Abs() == before.(evictable := replacer);
      CacheOut(f, before);
    }

    /** A frame for a new page: a free one, or the victim's. */
    method GetFrameID() returns (f: FrameId)
      requires Valid() && (freeList != [] || replacer != [])
      modifies this
      ensures Picked(f) && Kept(old(Abs()), With(f)) && Vacated(old(pages), pages, f)
      ensures old(freeList) != [] ==>
                f == old(freeList)[0] && freeList == old(freeList)[1..] && Abs() == old(Abs()).(free := freeList)
      ensures old(freeList) == [] ==>
                && CanEvict(old(Abs())) && f == old(replacer)[0] && freeList == []
                && Abs() == Evicted(old(Abs())).(free := [])
      ensures old(WriteAheadRule()) ==> WriteAheadRule()
    {
      if freeList != [] {
        f := TakeFree();
      } else {
        ghost var before := Abs();
        f := TakeVictim();
        EvictedKeeps(before);
      }
    }

    /** The page, with its last content, pinned once more.  `None` is the panic of a pool whose
      * frames are all pinned. */
    method FetchPage(id: PageId) returns (r: Option<FrameId>)
      requires Valid() && id in content
      modifies this
      ensures Valid() && (old(WriteAheadRule()) ==> WriteAheadRule())
      ensures r.None? <==> old(id !in pageTable && freeList == [] && replacer == [])
      ensures r.None? ==> Abs() == old(Abs())
      ensures r.Some? ==> Holds(id, r.value) && content[id] == old(content)[id]
      ensures r.Some? ==> pages[r.value].pins == if id in old(pageTable) then old(pages[pageTable[id]].pins) + 1 else 1
      ensures r.Some? ==> PinnedStay(old(pages), pages, id) && Kept(old(Abs()), Abs().(table := pageTable - {id}))
      // cached: one pin more, no longer evictable, nothing else
      ensures id in old(pageTable) ==>
                var f := old(pageTable)[id];
                && r == Some(f) && pages == old(pages)[f := old(pages)[f].(pins := old(pages)[f].pins + 1)]
                && replacer == Without(old(replacer), f)
                && Abs() == old(Abs()).(pages := pages, evictable := replacer)
      // not cached: the first free frame takes the page
      ensures id !in old(pageTable) && old(freeList) != [] ==>
                && r == Some(old(freeList)[0]) && freeList == old(freeList)[1..]
                && pages == old(pages)[r.value := Frame(id, old(content)[id], 1, false, false, false)]
                && pageTable == old(pageTable)[id := r.value]
                && Abs() == old(Abs()).(pages := pages, free := freeList, table := pageTable)
      // no free frame: the page that has been evictable longest goes, to the disk if it was changed
      ensures id !in old(pageTable) && old(freeList) == [] && r.Some? ==>
                && CanEvict(old(Abs())) && r.value == old(replacer)[0] && replacer == old(replacer)[1..] && freeList == []
                && var x := old(pages)[r.value];
                && pages == old(pages)[r.value := Frame(id, old(content)[id], 1, false, false, false)]
                && pageTable == (old(pageTable) - {x.id})[id := r.value]
                && disk == (if x.dirty && !x.deallocated then old(disk)[x.id := x.data] else old(disk))
                && reUsablePageList == old(reUsablePageList) + (if x.deallocated then [x.id] else [])
                && content == (if x.deallocated then old(content) - {x.id} else old(content))
    {
      if id in pageTable {
        var f := PinCached(id);
        return Some(f);
      }
      if freeList == [] && replacer == [] { return None; }
      var f := LoadPage(id);
      return Some(f);
    }

    /** The page is cached in the frame, pinned, with its content. */
    ghost predicate Holds(id: PageId, f: FrameId)
      reads this
    {
      && id in pageTable && pageTable[id] == f && id in content
      && f < |pages| && pages[f].Frame? && pages[f].id == id && pages[f].data == content[id] && pages[f].pins > 0
    }

    method LoadPage(id: PageId) returns (f: FrameId)
      requires Valid() && id in content && id !in pageTable && (freeList != [] || replacer != [])
      modifies this
      ensures Valid() && id in pageTable && pageTable[id] == f && id in content && content[id] == old(content)[id]
      ensures f < |pages| && pages[f] == Frame(id, old(content)[id], 1, false, false, false)
      ensures PinnedStay(old(pages), pages, id) && Kept(old(Abs()), Abs().(table := pageTable - {id}))
      ensures old(freeList) != [] ==>
                f == old(freeList)[0] && Abs() == Loaded(old(Abs()).(free := old(freeList)[1..]), f, id, old(content)[id])
      ensures old(freeList) == [] ==>
                && CanEvict(old(Abs())) && f == old(replacer)[0]
                && Abs() == Loaded(Evicted(old(Abs())).(free := []), f, id, old(content)[id])
      ensures old(WriteAheadRule()) ==> WriteAheadRule()
    {
      ghost var before := Abs();
      f := GetFrameID();
      ghost var picked, mid := With(f), Abs();
      LiveIsReadable(before, picked, id);
      var data := disk[id];
      Install(f, id, data, false);
      assert Abs() == Loaded(mid, f, id, data);
      assert content == picked.content;
      InstallKeeps(before, picked, Abs(), id);
    }

    method PinCached(id: PageId) returns (f: FrameId)
      requires Valid() && id in pageTable
      modifies this
      ensures Valid() && id in pageTable && f == pageTable[id]
      ensures pageTable == old(pageTable) && content == old(content) && id in content
      ensures f < |pages| && pages[f].Frame? && pages[f].id == id && pages[f].data == content[id] && pages[f].pins > 0
      ensures pages[f].pins == old(pages)[f].pins + 1 && PinnedStay(old(pages), pages, id)
      ensures Kept(old(Abs()), Abs().(table := pageTable - {id}))
      ensures Abs() == Hit(old(Abs()), f)
      ensures old(WriteAheadRule()) ==> WriteAheadRule()
    {
      f := pageTable[id];
      ghost var p := Abs();
      HitOk(p, f);
      HitKeeps(p, f, id);
      pages := pages[f := pages[f].(pins := pages[f].pins + 1)];
      replacer := Without(replacer, f);
      assert Abs() == Hit(p, f);
    }

    /** A page of zeros under an id that no live page has.  `None` is the panic of a pool whose
      * frames are all pinned. */
    method NewPage() returns (r: Option<FrameId>, id: PageId)
      requires Valid()
      modifies this
      ensures Valid() && (old(WriteAheadRule()) ==> WriteAheadRule())
      ensures r.None? <==> old(freeList == [] && replacer == [])
      ensures r.None? ==> Abs() == old(Abs())
      ensures r.Some? ==> Holds(id, r.value) && content[id] == EMPTY_PAGE
      ensures r.Some? ==> id !in old(content) || Deallocated(old(Abs()), id)
      ensures r.Some? ==> pages[r.value].pins == 1 && PinnedStay(old(pages), pages, id) && OthersKept(old(Abs()), content, id)
      // the first free frame takes the page, under the id given back longest ago or else a fresh one
      ensures old(freeList) != [] ==>
                && r == Some(old(freeList)[0]) && freeList == old(freeList)[1..] && replacer == old(replacer)
                && pages == old(pages)[r.value := Frame(id, EMPTY_PAGE, 1, false, false, true)]
                && pageTable == old(pageTable)[id := r.value] && disk == old(disk) && content == old(content)[id := EMPTY_PAGE]
                && TakenId(old(reUsablePageList), old(nextPageId), id, reUsablePageList, nextPageId)
      // no free frame: the page that has been evictable longest goes, and if given up its id can be had at once
      ensures old(freeList) == [] && r.Some? ==>
                && CanEvict(old(Abs())) && r.value == old(replacer)[0] && replacer == old(replacer)[1..] && freeList == []
                && var x := old(pages)[r.value];
                && pages == old(pages)[r.value := Frame(id, EMPTY_PAGE, 1, false, false, true)]
                && pageTable == (old(pageTable) - {x.id})[id := r.value]
                && disk == (if x.dirty && !x.deallocated then old(disk)[x.id := x.data] else old(disk))
                && content == (if x.deallocated then old(content) - {x.id} else old(content))[id := EMPTY_PAGE]
                && TakenId(old(reUsablePageList) + (if x.deallocated then [x.id] else []), old(nextPageId), id,
                           reUsablePageList, nextPageId)
    {
      if freeList == [] && replacer == [] { return None, 0; }
      var f;
      f, id := FillFrame();
      return Some(f), id;
    }

    method FillFrame() returns (f: FrameId, id: PageId)
      requires Valid() && (freeList != [] || replacer != [])
      modifies this
      ensures Valid() && Holds(id, f) && content[id] == EMPTY_PAGE
      ensures id !in old(content) || Deallocated(old(Abs()), id)
      ensures pages[f].pins == 1 && PinnedStay(old(pages), pages, id) && OthersKept(old(Abs()), content, id)
      ensures old(freeList) != [] ==>
                f == old(freeList)[0] && Made(old(Abs()).(free := old(freeList)[1..]), Abs(), f, id, EMPTY_PAGE)
      ensures old(freeList) == [] ==>
                CanEvict(old(Abs())) && f == old(replacer)[0] && Made(Evicted(old(Abs())).(free := []), Abs(), f, id, EMPTY_PAGE)
      ensures old(WriteAheadRule()) ==> WriteAheadRule()
    {
      ghost var before := Abs();
      f := GetFrameID();
      ghost var picked := With(f);
      id := AllocateId(f);
      assert content == picked.content;
      EmptyPageLsn();
      Install(f, id, EMPTY_PAGE, true);
      NewKeeps(before, picked, content, id, EMPTY_PAGE);
    }

    /** A reusable id, logged as reused, or the next one of the disk. */
    method AllocateId(ghost f: FrameId) returns (id: PageId)
      requires Picked(f)
      modifies this`reUsablePageList, this`nextPageId, this`appended, this`durable
      ensures Picked(f) && id !in content && id !in pageTable && id !in reUsablePageList && id < nextPageId
      ensures With(f).(reusable := [], next := 0) == old(With(f)).(reusable := [], next := 0)
      ensures TakenId(old(reUsablePageList), old(nextPageId), id, reUsablePageList, nextPageId)
      ensures old(WriteAheadRule()) ==> WriteAheadRule()
    {
      ghost var p := With(f);
      if |reUsablePageList| > 0 {
        id := reUsablePageList[0];
        IdTaken(p, id);
        reUsablePageList := reUsablePageList[1..];
        AppendLogRecord();
        FlushLog();
        assert With(f) == p.(reusable := p.reusable[1..]);
      } else {
        id := nextPageId;
        IdHandedOut(p);
        nextPageId := nextPageId + 1;
        assert With(f) == p.(next := p.next + 1);
      }
    }

    method Install(f: FrameId, id: PageId, data: Data, fresh_: bool)
      requires Picked(f) && id !in pageTable && id < nextPageId && id !in reUsablePageList
      requires if fresh_ then id !in content else id in content && content[id] == data
      requires Covered(PageLsn(data), appended)
      modifies this`pages, this`pageTable, this`content
      ensures Valid() && f < |old(pages)|
      ensures pages == old(pages)[f := Frame(id, data, 1, false, false, fresh_)]
      ensures pageTable == old(pageTable)[id := f] && content == old(content)[id := data]
      ensures old(WriteAheadRule()) ==> WriteAheadRule()
    {
      ghost var p, i := With(f), |freeList|;
      InstalledOk(p, i, id, data, fresh_);
      assert p.free[..i] + p.free[i + 1..] == freeList;
      pages := pages[f := Frame(id, data, 1, false, false, fresh_)];
      pageTable := pageTable[id := f];
      content := content[id := data];
      assert Abs() == Installed(p, i, id, data, fresh_);
    }

    /** One pin less; without pins the frame becomes evictable.  A client that changed the bytes
      * says so before the last pin is gone. */
    method UnpinPage(id: PageId, isDirty: bool)
      requires Valid() && id in pageTable && pages[pageTable[id]].pins > 0
      requires pages[pageTable[id]].pins == 1 && pages[pageTable[id]].owed ==>
                 isDirty || pages[pageTable[id]].dirty || pages[pageTable[id]].deallocated
      modifies this
      ensures Valid() && content == old(content) && pageTable == old(pageTable)
      ensures var f := pageTable[id];
              var x := old(pages)[f];
              pages == old(pages)[f := x.(pins := x.pins - 1, dirty := x.dirty || isDirty, owed := x.owed && !isDirty)]
      ensures replacer == if pages[pageTable[id]].pins == 0 then old(replacer) + [pageTable[id]] else old(replacer)
      ensures freeList == old(freeList) && reUsablePageList == old(reUsablePageList) && disk == old(disk)
      ensures nextPageId == old(nextPageId) && appended == old(appended) && durable == old(durable)
      ensures old(WriteAheadRule()) ==> WriteAheadRule()
    {
      var f := pageTable[id];
      ghost var p := Abs();
      UnpinnedOk(p, f, isDirty);
      PinnedIsBusy(p, f);
      ghost var q := Unpinned(p, f, isDirty);
      var x := pages[f];
      pages := pages[f := x.(pins := x.pins - 1, dirty := x.dirty || isDirty, owed := x.owed && !isDirty)];
      if x.pins - 1 == 0 {
        assert Abs() == q.(evictable := p.evictable);
        assert |replacer| < |pages|;
        replacer := if f in replacer then replacer else replacer + [f];
        assert Abs() == q;
      } else {
        assert Abs() == q;
      }
    }

    /** The page is written as it is, without flushing the log: the write-ahead rule survives if
      * and only if the log file already covers the page. */
    method FlushPage(id: PageId) returns (ok: bool)
      requires Valid()
      modifies this`pages, this`disk
      ensures Valid() && ok == (id in pageTable) && content == old(content)
      ensures ok ==> id in content && disk == old(disk)[id := content[id]]
      ensures ok ==> pages == old(pages)[pageTable[id] := old(pages)[pageTable[id]].(dirty := false, owed := false)]
      ensures !ok ==> Abs() == old(Abs())
      ensures old(WriteAheadRule()) ==> (WriteAheadRule() <==> !ok || Covered(PageLsn(old(content)[id]), durable))
    {
      if id !in pageTable { return false; }
      var f := pageTable[id];
      FlushedOk(Abs(), f);
      assert FrameOk(pages[f], disk, content);
      var x := pages[f];
      pages := pages[f := x.(dirty := false, owed := false)];
      disk := disk[id := x.data];
      assert disk[id] == old(content)[id];
      return true;
    }

    /** A client gives a pinned page up; it stays cached until it is evicted. */
    method SetIsDeallocated(id: PageId)
      requires Valid() && id in pageTable && pages[pageTable[id]].pins > 0
      modifies this`pages
      ensures Valid() && content == old(content) && (old(WriteAheadRule()) ==> WriteAheadRule())
      ensures pages == old(pages)[pageTable[id] := old(pages)[pageTable[id]].(deallocated := true)]
    {
      var f := pageTable[id];
      GivenUpOk(Abs(), f);
      pages := pages[f := pages[f].(deallocated := true)];
    }

    /** The deallocation is logged, and the log flushed; the id is reused only after eviction. */
    method DeallocatePage(id: PageId)
      requires Valid()
      modifies this`appended, this`durable
      ensures Valid() && durable == appended == old(appended) + 1
      ensures old(WriteAheadRule()) ==> WriteAheadRule()
    {
      AppendLogRecord();
      FlushLog();
    }

    /** A client changes the bytes of a page it has pinned. */
    method WriteBytes(id: PageId, data: Data)
      requires Valid() && id in pageTable && pages[pageTable[id]].pins > 0 && Covered(PageLsn(data), appended)
      modifies this`pages, this`content
      ensures Valid() && content == old(content)[id := data]
      ensures pages == old(pages)[pageTable[id] := old(pages)[pageTable[id]].(data := data, owed := true)]
      ensures old(WriteAheadRule()) ==> WriteAheadRule()
    {
      var f := pageTable[id];
      WrittenOk(Abs(), f, data);
      pages := pages[f := pages[f].(data := data, owed := true)];
      content := content[id := data];
    }
  }

  /** A frame has been made free.  At most one page has left the pool; if it was deallocated, its
    * id is the last of the reusable ones, and otherwise it is still live. */
  ghost predicate Kept(p: Pool, q: Pool) {
    && q.next == p.next && q.table.Keys <= p.table.Keys
    && (forall id :: id in q.content ==> id in p.content && q.content[id] == p.content[id])
    && (forall id :: id in p.content && id !in q.content ==> Deallocated(p, id) && id in q.reusable)
    && (forall id :: id in q.reusable ==> id in p.reusable || (id in p.content && id !in q.content))
    && p.reusable <= q.reusable
  }

  /** Cached, not pinned, and given back by its client. */
  predicate Deallocated(p: Pool, id: PageId) {
    id in p.table && p.table[id] < |p.pages| && p.pages[p.table[id]].Frame? &&
    p.pages[p.table[id]].deallocated && p.pages[p.table[id]].pins == 0
  }

  lemma HitKeeps(p: Pool, f: FrameId, id: PageId)
    requires Ok(p) && id in p.table && p.table[id] == f
    ensures Kept(p, Hit(p, f).(table := p.table - {id})) && p.pages[f].id == id && p.pages[f].data == p.content[id]
  {
    assert FrameOk(p.pages[f], p.disk, p.content);
  }

  /** A live page that is not cached can be read from the disk. */
  lemma LiveIsReadable(p: Pool, q: Pool, id: PageId)
    requires Ok(p) && Ok(q) && Kept(p, q) && id in p.content && id !in p.table
    ensures id in q.content && id !in q.table && id in q.disk && q.disk[id] == p.content[id] == q.content[id]
    ensures id < q.next && id !in q.reusable
  {
  }

  lemma InstallKeeps(p: Pool, q: Pool, r: Pool, id: PageId)
    requires Kept(p, q) && id in q.content && r.content == q.content && r.reusable == q.reusable && r.next == q.next
    requires id !in q.table && r.table.Keys == q.table.Keys + {id}
    ensures Kept(p, r.(table := r.table - {id}))
  {
  }

  /** Every other pinned page stays in its frame, with its bytes, marks and pins. */
  ghost predicate PinnedStay(before: seq<Frame>, now: seq<Frame>, id: PageId) {
    && |now| == |before|
    && forall f :: 0 <= f < |before| && before[f].Frame? && before[f].pins > 0 && before[f].id != id ==> now[f] == before[f]
  }

  /** The frame was free, or its page had no pin. */
  predicate Vacated(before: seq<Frame>, now: seq<Frame>, f: FrameId) {
    f < |before| && now == before[f := NoPage] && (before[f].Frame? ==> before[f].pins == 0)
  }

  /** Every other page keeps its content, unless it was deallocated. */
  ghost predicate OthersKept(p: Pool, content: map<PageId, Data>, id: PageId) {
    && (forall k :: k in content && k != id ==> k in p.content && content[k] == p.content[k])
    && (forall k :: k in p.content && k !in content ==> Deallocated(p, k))
  }

  lemma NewKeeps(p: Pool, q: Pool, content: map<PageId, Data>, id: PageId, data: Data)
    requires Kept(p, q) && id !in q.content && content == q.content[id := data]
    ensures OthersKept(p, content, id) && (id !in p.content || Deallocated(p, id))
  {
  }

  lemma IdTaken(p: Pool, id: PageId)
    requires Ok(p) && p.reusable != [] && p.reusable[0] == id
    ensures Ok(p.(reusable := p.reusable[1..])) && id !in p.reusable[1..] && id !in p.content && id !in p.table && id < p.next
  {
    assert id in p.reusable;
    assert p.reusable == [id] + p.reusable[1..];
    var q := p.(reusable := p.reusable[1..]);
    assert NoDuplicates(q.reusable);
    assert forall k :: k in q.reusable ==> k in p.reusable;
  }

  lemma PinnedIsBusy(p: Pool, f: FrameId)
    requires Ok(p) && f < |p.pages| && p.pages[f].Frame? && p.pages[f].pins > 0
    ensures f !in p.evictable && |p.evictable| < |p.pages|
  {
    QueueIsShort(p, f);
  }

  lemma IdHandedOut(p: Pool)
    requires Ok(p)
    ensures Ok(p.(next := p.next + 1)) && p.next !in p.content && p.next !in p.table && p.next !in p.reusable
  {
  }

  /** The replacer never holds more frames than there are. */
  lemma QueueIsShort(p: Pool, f: nat)
    requires Ok(p) && f < |p.pages| && f !in p.evictable
    ensures |p.evictable| < |p.pages|
  {
    var q := p.evictable + [f];
    assert forall i :: 0 <= i < |p.evictable| ==> p.evictable[i] in p.evictable;
    DistinctBelow(q, |p.pages|);
  }

  /** Distinct numbers below `n` are at most `n`. */
  lemma {:induction false} DistinctBelow(q: seq<nat>, n: nat)
    requires NoDuplicates(q) && forall i :: 0 <= i < |q| ==> q[i] < n
    ensures |q| <= n
    decreases n
  {
    if q != [] {
      assert q[0] < n;
      var t := Without(q, n - 1);
      WithoutKeepsDistinct(q, n - 1);
      if n - 1 in q { WithoutLength(q, n - 1); } else { WithoutAbsent(q, n - 1); }
      forall i | 0 <= i < |t| ensures t[i] < n - 1 { assert t[i] in t; }
      DistinctBelow(t, n - 1);
    }
  }

  lemma {:induction false} WithoutLength(q: seq<nat>, x: nat)
    requires NoDuplicates(q) && x in q
    ensures |Without(q, x)| == |q| - 1
  {
    if q[0] == x {
      WithoutAbsent(q[1..], x);
    } else {
      WithoutLength(q[1..], x);
    }
  }

  lemma EvictedKeeps(p: Pool)
    requires Ok(p) && p.evictable != []
    ensures CanEvict(p) && Kept(p, Evicted(p))
  {
    EvictedOk(p);
    var x := p.pages[p.evictable[0]];
    assert FrameOk(x, p.disk, p.content);
  }

  lemma VictimContent(p: Pool)
    requires Ok(p) && CanEvict(p)
    ensures var x := p.pages[p.evictable[0]]; x.id in p.content && p.content[x.id] == x.data
  {
    assert FrameOk(p.pages[p.evictable[0]], p.disk, p.content);
  }

  lemma NothingCached(p: Pool)
    requires |p.free| == |p.pages| && forall f :: 0 <= f < |p.pages| ==> p.free[f] == f && p.pages[f].NoPage?
    requires p.evictable == [] && p.table == map[] && p.reusable == [] && p.content == map[]
    ensures Ok(p)
  {
    forall f ensures f in p.free <==> 0 <= f < |p.pages| && p.pages[f].NoPage? {
      if 0 <= f < |p.pages| { assert p.free[f] == f; }
    }
    assert forall f :: f !in p.evictable;
  }

  /** The order of the free list does not matter. */
  lemma FreeTaken(p: Pool, q: Pool, f: FrameId)
    requires Ok(p) && p.free != [] && p.free[0] == f && q == p.(free := p.free[1..] + [f])
    ensures Ok(q)
  {
    assert p.free == [f] + p.free[1..];
    assert f in p.free && f !in p.free[1..] && NoDuplicates(q.free);
    forall g ensures g in q.free <==> g in p.free {}
  }
}