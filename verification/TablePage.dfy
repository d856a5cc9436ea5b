/** The table page as the source keeps it: one array of 4096 bytes, changed in place.
  * Every operation is proved to be the corresponding change of the slot sequence. */
module TablePage {
  import opened Bytes
  import opened SlottedPage
  import opened PageLayout
  import opened LockTable
  import LockManager
  import ByteArrays

  datatype InsertResult = Inserted(rid: RID) | NoSpace | LockRefused
  datatype UpdateResult = Answer(outcome: UpdateOutcome) | Refused
  datatype ReadResult = Found(data: seq<byte>) | SelfDeleted | Failed

  class TablePage {
    const pageId: int
    const data: array<byte>

    ghost predicate Valid()
      reads data
    {
      data.Length == PAGE_SIZE && Layout(data[..])
    }

    ghost function Contents(): Page
      reads data
      requires Valid()
    {
      Slots(data[..])
    }

    // ---- raw accessors ----

    method GetU32(o: nat) returns (x: int)
      requires data.Length == PAGE_SIZE && o + 4 <= PAGE_SIZE
      ensures x == U32At(data[..], o)
    {
      x := ByteArrays.GetU32(data, o);
    }

    method Copy(o: nat, bytes: seq<byte>)
      requires data.Length == PAGE_SIZE && o + |bytes| <= PAGE_SIZE
      modifies data
      ensures data[..] == Splice(old(data[..]), o, bytes)
    {
      ByteArrays.CopyInto(data, o, bytes);
    }

    method SetU32(o: nat, x: int)
      requires data.Length == PAGE_SIZE && o + 4 <= PAGE_SIZE && 0 <= x < TWO_TO_THE_32
      modifies data
      ensures data[..] == PutU32(old(data[..]), o, x)
    {
      ByteArrays.SetU32(data, o, x);
    }

    method GetFreeSpacePointer() returns (x: int)
      requires data.Length == PAGE_SIZE
      ensures x == Fsp(data[..])
    {
      x := GetU32(OFFSET_FREE_SPACE);
    }

    method GetTupleCount() returns (x: int)
      requires data.Length == PAGE_SIZE
      ensures x == Count(data[..])
    {
      x := GetU32(OFFSET_TUPLE_COUNT);
    }

    method GetTupleOffsetAtSlot(i: int) returns (x: int)
      requires data.Length == PAGE_SIZE && InDirectory(i)
      ensures x == Off(data[..], i)
    {
      x := GetU32(OFFSET_TUPLE_OFFSET + 8 * i);
    }

    method GetTupleSize(i: int) returns (x: int)
      requires data.Length == PAGE_SIZE && InDirectory(i)
      ensures x == Sz(data[..], i)
    {
      x := GetU32(OFFSET_TUPLE_SIZE + 8 * i);
    }

    /** Unsigned in the source; on a valid page it does not wrap. */
    method GetFreeSpaceRemaining() returns (x: int)
      requires Valid()
      ensures x == FreeSpace(Contents()) && 0 <= x <= PAGE_SIZE
    {
      FreeSpaceDoesNotWrap(data[..]);
      var fsp := GetFreeSpacePointer();
      var count := GetTupleCount();
      x := Wrap32(Wrap32(fsp - HEADER_SIZE) - 8 * count % TWO_TO_THE_32);
    }

    // ---- operations ----

    constructor (pageId: int, prevPageId: int)
      requires IsInt32(pageId) && IsInt32(prevPageId)
      ensures Valid() && fresh(data) && this.pageId == pageId
      ensures Contents() == [] && HasIds(data[..], pageId, prevPageId)
    {
      this.pageId := pageId;
      data := new byte[PAGE_SIZE](_ => 0);
      new;
      Init(pageId, prevPageId, false);
    }

    /** A page without slots and without a successor.  For redo only the ids are written: the slots
      * are those the page had, if it was one. */
    method Init(id: int, prev: int, isForRedo: bool)
      requires data.Length == PAGE_SIZE && IsInt32(id) && IsInt32(prev)
      modifies data
      ensures HasIds(data[..], id, prev)
      ensures !isForRedo ==> Valid() && Contents() == [] && Signed(U32At(data[..], OFFSET_NEXT_PAGE_ID)) == -1
      ensures isForRedo && old(Valid()) ==> Valid() && Contents() == old(Contents())
      ensures isForRedo ==> data[..] == WithIds(old(data[..]), id, prev)
    {
      ghost var s: Image := data[..];
      IdsRead(s, id, prev);
      SetU32(OFFSET_PAGE_ID, Unsigned(id));
      SetU32(OFFSET_PREV_PAGE_ID, Unsigned(prev));
      if !isForRedo {
        EmptyDirectory();
      } else if Layout(s) {
        IdsKeepSlots(s, id, prev);
      }
    }

    method EmptyDirectory()
      requires data.Length == PAGE_SIZE
      modifies data
      ensures Valid() && Contents() == [] && Signed(U32At(data[..], OFFSET_NEXT_PAGE_ID)) == -1
      ensures U32At(data[..], OFFSET_PAGE_ID) == U32At(old(data[..]), OFFSET_PAGE_ID)
      ensures U32At(data[..], OFFSET_PREV_PAGE_ID) == U32At(old(data[..]), OFFSET_PREV_PAGE_ID)
    {
      EmptyDirectoryRead(data[..]);
      EmptyDirectoryKeeps(data[..], OFFSET_PAGE_ID);
      EmptyDirectoryKeeps(data[..], OFFSET_PREV_PAGE_ID);
      SetU32(OFFSET_NEXT_PAGE_ID, Unsigned(-1));
      SetU32(OFFSET_TUPLE_COUNT, 0);
      SetU32(OFFSET_FREE_SPACE, PAGE_SIZE);
    }

    /** The first slot of size zero, or the slot count. */
    method FindFreeSlot() returns (slot: nat)
      requires Valid()
      ensures slot == FirstEmpty(Contents())
    {
      ghost var s: Image := data[..];
      FreeSpaceAgrees(s);
      var count := GetTupleCount();
      slot := 0;
      while slot < count
        invariant 0 <= slot <= count
        invariant forall j :: 0 <= j < slot ==> Sz(s, j) != 0
      {
        var size := GetTupleSize(slot);
        if size == 0 { break; }
        slot := slot + 1;
      }
      FirstFree(s, slot);
    }

    /** The sum of tuple size and directory entry is unsigned; it does not wrap for any tuple that exists. */
    method InsertTuple(tuple: seq<byte>, lm: LockManager.LockManager, txn: LockManager.Transaction)
      returns (r: InsertResult)
      requires Valid() && tuple != [] && |tuple| < TWO_TO_THE_32 - SLOT_SIZE
      modifies data, lm`exclusiveLockTable, txn`exclusiveLockSet
      ensures Valid()
      ensures !WellFormed(old(Contents()) + [Tuple(tuple, false)]) ==>
                r == NoSpace && data[..] == old(data[..]) && lm.State() == old(lm.State()) && txn.Locks() == old(txn.Locks())
      ensures WellFormed(old(Contents()) + [Tuple(tuple, false)]) ==>
                var rid := RID(pageId, FirstEmpty(old(Contents())));
                var g := GrantExclusive(old(lm.State()), old(txn.Locks()), txn.txnId, rid);
                && lm.State() == g.tables && txn.Locks() == g.held
                && (if g.ok then r == Inserted(rid) && Contents() == Put(old(Contents()), rid.slot, Tuple(tuple, false))
                    else r == LockRefused && data[..] == old(data[..]))
    {
      PageIsWellFormed(data[..]);
      RoomIsExact(Contents(), tuple);
      var free := GetFreeSpaceRemaining();
      if free < |tuple| + SLOT_SIZE { return NoSpace; }
      var slot := FindFreeSlot();
      var locked := lm.LockExclusive(txn, RID(pageId, slot));
      if !locked { return LockRefused; }
      SetTuple(slot, tuple);
      r := Inserted(RID(pageId, slot));
    }

    /** Header updates and `setTuple`. */
    method SetTuple(slot: nat, tuple: seq<byte>)
      requires Valid() && tuple != [] && slot == FirstEmpty(Contents()) && HasRoom(Contents(), |tuple|)
      modifies data
      ensures Valid() && Contents() == Put(old(Contents()), slot, Tuple(tuple, false))
    {
      FreeSpaceAgrees(data[..]);
      if slot < Count(data[..]) { assert EntryOk(data[..], slot) && Contents()[slot] == SlotAt(data[..], slot); }
      PlaceImageOk(data[..], slot, tuple);
      WriteTuple(slot, tuple);
    }

    method WriteTuple(slot: nat, tuple: seq<byte>)
      requires data.Length == PAGE_SIZE && CanPlace(data[..], slot, |tuple|)
      modifies data
      ensures data[..] == PlaceImage(old(data[..]), slot, tuple)
    {
      ghost var t := PlaceSteps(data[..], slot, tuple).2;
      var count := GetTupleCount();
      var fsp := GetFreeSpacePointer();
      WriteSlot(slot, fsp - |tuple|, tuple);
      assert data[..] == t;
      if slot == count {
        SetU32(OFFSET_TUPLE_COUNT, count + 1);
      }
    }

    method WriteSlot(slot: nat, fsp: int, tuple: seq<byte>)
      requires data.Length == PAGE_SIZE && CanPlace(data[..], slot, |tuple|) && fsp == Fsp(data[..]) - |tuple|
      modifies data
      ensures data[..] == PlaceSteps(old(data[..]), slot, tuple).2
    {
      SetU32(OFFSET_FREE_SPACE, fsp);
      Copy(fsp, tuple);
      SetU32(OFFSET_TUPLE_OFFSET + 8 * slot, fsp);
      SetU32(OFFSET_TUPLE_SIZE + 8 * slot, |tuple|);
    }

    // ---- updates ----

    /** In-place update of a live tuple: slide, write, re-point. */
    method Resize(slot: nat, tuple: seq<byte>)
      requires Valid() && slot < Count(data[..]) && Sz(data[..], slot) != 0 && tuple != []
      requires CanResize(data[..], slot, |tuple|)
      modifies data
      ensures Valid() && Contents() == Put(old(Contents()), slot, Tuple(tuple, false))
    {
      ghost var s: Image := data[..];
      ResizeStarts(s, slot, tuple);
      var offset := GetTupleOffsetAtSlot(slot);
      var size := GetTupleSize(slot);
      size := UnsetDeletedFlag(size);
      WriteNewTuple(slot, offset, size, tuple);
      RepointAll(offset + size, size - |tuple|);
      ResizeEnds(s, data[..], slot, tuple);
    }

    /** Removal of a tuple: slide, clear the entry, re-point. */
    method Vacate(slot: nat)
      requires Valid() && slot < Count(data[..]) && Sz(data[..], slot) != 0 && CanResize(data[..], slot, 0)
      modifies data
      ensures Valid() && Contents() == Put(old(Contents()), slot, Empty)
    {
      ghost var s: Image := data[..];
      VacateStarts(s, slot);
      var offset := GetTupleOffsetAtSlot(slot);
      var size := GetTupleSize(slot);
      size := UnsetDeletedFlag(size);
      WriteNewTuple(slot, offset, size, []);
      SetU32(OFFSET_TUPLE_OFFSET + 8 * slot, 0);
      RepointAll(offset, size);
      VacateEnds(s, data[..], slot);
    }

    method WriteNewTuple(slot: nat, offset: int, size: int, tuple: seq<byte>)
      requires data.Length == PAGE_SIZE && CanResize(data[..], slot, |tuple|)
      requires offset == Off(data[..], slot) && size == Length(data[..], slot)
      modifies data
      ensures data[..] == NewTupleImage(old(data[..]), slot, tuple)
    {
      ghost var e := NewTupleImage(data[..], slot, tuple);
      NewTupleInSteps(data[..], slot, offset, size, tuple);
      var fsp := GetFreeSpacePointer();
      SlideAndSize(slot, fsp, offset, offset + size, tuple, e);
    }

    method SlideAndSize(slot: nat, fsp: int, cut: int, end: int, tuple: seq<byte>, ghost e: Image)
      requires data.Length == PAGE_SIZE && InDirectory(slot) && |tuple| < TWO_TO_THE_32
      requires 0 <= fsp <= cut <= end <= PAGE_SIZE && 0 <= fsp + (end - cut) - |tuple|
      requires e == PutU32(Slide(data[..], fsp, cut, end, tuple), SizeField(slot), |tuple|)
      modifies data
      ensures data[..] == e
    {
      SlideBytes(fsp, cut, end, tuple);
      SetU32(OFFSET_TUPLE_SIZE + 8 * slot, |tuple|);
    }

    method SlideBytes(fsp: int, cut: int, end: int, tuple: seq<byte>)
      requires data.Length == PAGE_SIZE
      requires 0 <= fsp <= cut <= end <= PAGE_SIZE && 0 <= fsp + (end - cut) - |tuple|
      modifies data
      ensures data[..] == Slide(old(data[..]), fsp, cut, end, tuple)
    {
      var to := fsp + (end - cut) - |tuple|;
      var below := data[fsp..cut];
      assert below == data[..][fsp..cut];
      Copy(to, below);
      SetU32(OFFSET_FREE_SPACE, to);
      Copy(end - |tuple|, tuple);
    }

    /** The loop over the directory after a slide. */
    method RepointAll(bound: int, delta: int)
      requires data.Length == PAGE_SIZE && RepointSafe(data[..], bound, delta)
      modifies data
      ensures Repointed(old(data[..]), data[..], Count(old(data[..])), bound, delta)
    {
      ghost var e: Image := data[..];
      RepointStart(e, bound, delta);
      var count := GetTupleCount();
      for i := 0 to count
        invariant Repointed(e, data[..], i, bound, delta)
      {
        RepointStep(e, data[..], i, bound, delta);
        RepointOne(i, bound, delta);
      }
    }

    method RepointOne(i: nat, bound: int, delta: int)
      requires data.Length == PAGE_SIZE && CanRepoint(data[..], i, bound, delta)
      modifies data
      ensures data[..] == RepointedOnce(old(data[..]), i, bound, delta)
    {
      var offset := GetTupleOffsetAtSlot(i);
      var size := GetTupleSize(i);
      if size != 0 && offset < bound {
        SetU32(OFFSET_TUPLE_OFFSET + 8 * i, offset + delta);
      }
    }

    // ---- the remaining operations ----

    /** Rewrite of a size field that keeps the length and sets or clears the deleted flag. */
    method Reflag(slot: nat, size: int)
      requires Valid() && slot < Count(data[..]) && Sz(data[..], slot) != 0
      requires 0 < size < TWO_TO_THE_32 && UnsetDeletedFlag(size) == Length(data[..], slot)
      modifies data
      ensures Valid() && old(Contents())[slot].Tuple?
      ensures Contents() == Put(old(Contents()), slot, Tuple(old(Contents())[slot].data, IsFlagged(size)))
    {
      ReflagImageOk(data[..], slot, size);
      SetU32(OFFSET_TUPLE_SIZE + 8 * slot, size);
    }

    /** Copy of the bytes a live entry points to. */
    method ReadTuple(slot: nat) returns (tuple: seq<byte>)
      requires Valid() && slot < Count(data[..]) && Sz(data[..], slot) != 0
      ensures Contents()[slot].Tuple? && tuple == Contents()[slot].data
    {
      ghost var s: Image := data[..];
      assert EntryOk(s, slot);
      assert Contents()[slot] == SlotAt(s, slot);
      var offset := GetTupleOffsetAtSlot(slot);
      var size := GetTupleSize(slot);
      tuple := data[offset..offset + UnsetDeletedFlag(size)];
    }

    /** `old_` is what the source copies out before it changes the page. */
    method UpdateTuple(tuple: seq<byte>, rid: RID, lm: LockManager.LockManager, txn: LockManager.Transaction, rollback: bool)
      returns (r: UpdateResult, old_: seq<byte>)
      requires Valid() && rid.page == pageId && tuple != [] && |tuple| < TWO_TO_THE_31
      modifies data, lm`exclusiveLockTable, txn`exclusiveLockSet, txn`aborted
      ensures Valid()
      ensures var g := GrantWrite(old(lm.State()), old(txn.Locks()), txn.txnId, rid);
              var outcome := UpdateOutcomeOf(old(Contents()), rid.slot, |tuple|, rollback);
              && lm.State() == g.tables && txn.Locks() == g.held
              && (if !g.ok then r == Refused else r == Answer(outcome))
              && txn.aborted == (old(txn.aborted) || !g.ok || outcome.InvalidSlot? || outcome.Deleted?)
              && (if g.ok && outcome.Updated? then Contents() == Put(old(Contents()), rid.slot, Tuple(tuple, false))
                  else data[..] == old(data[..]))
              && (g.ok && !outcome.InvalidSlot? && !outcome.Deleted? ==> old_ == old(Contents())[rid.slot].data)
    {
      old_ := [];
      var locked := lm.LockForWrite(txn, rid);
      if !locked { txn.aborted := true; return Refused, old_; }
      var slot := rid.slot;
      var count := GetTupleCount();
      if slot >= count { txn.aborted := true; return Answer(InvalidSlot), old_; }
      var size := GetTupleSize(slot);
      EntryMeaning(data[..], slot);
      if size == 0 || IsFlagged(size) { txn.aborted := true; return Answer(Deleted), old_; }
      old_ := ReadTuple(slot);
      var free := GetFreeSpaceRemaining();
      if free + size < |tuple| { return Answer(NotEnoughSpace), old_; }
      if size > |tuple| && !rollback { return Answer(RollbackDifficult), old_; }
      CanResizeLive(data[..], slot, |tuple|);
      Resize(slot, tuple);
      r := Answer(Updated);
    }

    method MarkDelete(rid: RID, lm: LockManager.LockManager, txn: LockManager.Transaction)
      returns (marked: bool, tuple: seq<byte>)
      requires Valid() && rid.page == pageId
      modifies data, lm`exclusiveLockTable, txn`exclusiveLockSet, txn`aborted
      ensures Valid()
      ensures var g := GrantWrite(old(lm.State()), old(txn.Locks()), txn.txnId, rid);
              var slot := At(old(Contents()), rid.slot);
              && lm.State() == g.tables && txn.Locks() == g.held
              && marked == (g.ok && slot.Tuple? && !slot.deleted)
              && txn.aborted == (old(txn.aborted) || !marked)
              && (if marked then tuple == slot.data && Contents() == Put(old(Contents()), rid.slot, Tuple(slot.data, true))
                  else data[..] == old(data[..]))
    {
      marked, tuple := false, [];
      var locked := lm.LockForWrite(txn, rid);
      if !locked { txn.aborted := true; return; }
      var slot := rid.slot;
      var count := GetTupleCount();
      if slot >= count { txn.aborted := true; return; }
      var size := GetTupleSize(slot);
      EntryMeaning(data[..], slot);
      if size == 0 || IsFlagged(size) { txn.aborted := true; return; }
      tuple := ReadTuple(slot);
      Reflag(slot, SetDeletedFlag(size));
      marked := true;
    }

    /** Asserts of the source: the slot exists, it is not empty, and the caller holds it exclusively. */
    method ApplyDelete(rid: RID, txn: LockManager.Transaction)
      requires Valid() && At(Contents(), rid.slot).Tuple? && rid in txn.Locks().exclusive
      modifies data
      ensures Valid() && Contents() == Put(old(Contents()), rid.slot, Empty)
    {
      EntryMeaning(data[..], rid.slot);
      CanResizeLive(data[..], rid.slot, 0);
      Vacate(rid.slot);
    }

    method RollbackDelete(rid: RID, txn: LockManager.Transaction)
      requires Valid() && At(Contents(), rid.slot).Tuple? && rid in txn.Locks().exclusive
      modifies data
      ensures Valid() && Contents() == Put(old(Contents()), rid.slot, Tuple(old(Contents())[rid.slot].data, false))
    {
      var size := GetTupleSize(rid.slot);
      EntryMeaning(data[..], rid.slot);
      if IsFlagged(size) {
        Reflag(rid.slot, UnsetDeletedFlag(size));
      } else {
        assert Contents() == Put(Contents(), rid.slot, Tuple(Contents()[rid.slot].data, false));
      }
    }

    method GetTuple(rid: RID, lm: LockManager.LockManager, txn: LockManager.Transaction) returns (r: ReadResult)
      requires Valid() && rid.page == pageId
      modifies lm`sharedLockTable, txn`sharedLockSet, txn`aborted
      ensures var g := GrantRead(old(lm.State()), old(txn.Locks()), txn.txnId, rid);
              && lm.State() == g.tables && txn.Locks() == g.held
              && r == (if !g.ok || rid.slot >= |Contents()| then Failed
                       else if Contents()[rid.slot].Tuple? && !Contents()[rid.slot].deleted then Found(Contents()[rid.slot].data)
                       else if rid in g.held.exclusive then SelfDeleted else Failed)
              && txn.aborted == (old(txn.aborted) || r == Failed)
    {
      var locked := lm.LockForRead(txn, rid);
      if !locked { txn.aborted := true; return Failed; }
      var slot := rid.slot;
      var count := GetTupleCount();
      if slot >= count { txn.aborted := true; return Failed; }
      var size := GetTupleSize(slot);
      EntryMeaning(data[..], slot);
      if size == 0 || IsFlagged(size) {
        var own := txn.IsExclusiveLocked(rid);
        if own { return SelfDeleted; }
        txn.aborted := true;
        return Failed;
      }
      var tuple := ReadTuple(slot);
      r := Found(tuple);
    }
  }
}
