/** The table page as its clients see it: a sequence of slots, each empty or
  * holding a tuple that may be marked deleted.  Everything the byte layout lets
  * a caller observe, including the free space, is a function of that sequence. */
module SlottedPage {
  import opened Bytes

  const PAGE_SIZE := 4096
  const HEADER_SIZE := 24
  const SLOT_SIZE := 8

  datatype Slot = Empty | Tuple(data: seq<byte>, deleted: bool)
  type Page = seq<Slot>

  function Size(s: Slot): nat {
    match s
    case Empty => 0
    case Tuple(data, _) => |data|
  }

  /** Bytes taken by tuples, marked ones included. */
  function Used(p: Page): nat {
    if p == [] then 0 else Used(p[..|p| - 1]) + Size(p[|p| - 1])
  }

  function FreeSpace(p: Page): int {
    PAGE_SIZE - HEADER_SIZE - 8 * |p| - Used(p)
  }

  predicate WellFormed(p: Page) {
    && FreeSpace(p) >= 0
    && forall i :: 0 <= i < |p| && p[i].Tuple? ==> p[i].data != []
  }

  /** Index of the first empty slot, or the slot count when there is none. */
  function FirstEmpty(p: Page): (k: nat)
    ensures k <= |p|
    ensures k < |p| ==> p[k].Empty?
    ensures forall i :: 0 <= i < k ==> p[i].Tuple?
  {
    FirstEmptyFrom(p, 0)
  }

  function FirstEmptyFrom(p: Page, from: nat): (k: nat)
    requires from <= |p|
    ensures from <= k <= |p|
    ensures k < |p| ==> p[k].Empty?
    ensures forall i :: from <= i < k ==> p[i].Tuple?
    decreases |p| - from
  {
    if from == |p| || p[from].Empty? then from else FirstEmptyFrom(p, from + 1)
  }

  /** The slot at index `i`; slots beyond the directory count as empty. */
  function At(p: Page, i: nat): Slot {
    if i < |p| then p[i] else Empty
  }

  /** The page with slot `i` replaced; `i` may extend the directory by one. */
  function Put(p: Page, i: nat, s: Slot): (q: Page)
    requires i <= |p|
    ensures |q| == if i == |p| then |p| + 1 else |p|
    ensures forall j: nat :: At(q, j) == if j == i then s else At(p, j)
  {
    if i == |p| then p + [s] else p[i := s]
  }

  /** Room check of an insert: tuple plus one directory entry. */
  predicate HasRoom(p: Page, size: nat) {
    FreeSpace(p) >= size + SLOT_SIZE
  }

  datatype UpdateOutcome = InvalidSlot | Deleted | NotEnoughSpace | RollbackDifficult | Updated

  function UpdateOutcomeOf(p: Page, i: nat, size: nat, rollback: bool): UpdateOutcome {
    if i >= |p| then InvalidSlot
    else if p[i].Empty? || p[i].deleted then Deleted
    else if FreeSpace(p) + Size(p[i]) < size then NotEnoughSpace
    else if Size(p[i]) > size && !rollback then RollbackDifficult
    else Updated
  }

  // ---- how the page operations move the space account ----

  lemma {:induction false} UsedUpdate(p: Page, i: nat, s: Slot)
    requires i < |p|
    ensures Used(p[i := s]) == Used(p) - Size(p[i]) + Size(s)
  {
    var n := |p| - 1;
    if i == n {
      assert p[i := s][..n] == p[..n];
    } else {
      UsedUpdate(p[..n], i, s);
      assert p[i := s][..n] == p[..n][i := s];
    }
  }

  lemma {:induction false} UsedPut(p: Page, i: nat, s: Slot)
    requires i <= |p|
    ensures Used(Put(p, i, s)) == Used(p) - Size(At(p, i)) + Size(s)
  {
    if i < |p| {
      UsedUpdate(p, i, s);
    } else {
      assert (p + [s])[..|p|] == p;
    }
  }

  /** A slot write keeps the page within its bytes when the write fits. */
  lemma {:induction false} PutWellFormed(p: Page, i: nat, s: Slot)
    requires WellFormed(p) && i <= |p|
    requires s.Tuple? ==> s.data != []
    requires Size(s) + (if i == |p| then SLOT_SIZE else 0) <= FreeSpace(p) + Size(At(p, i))
    ensures WellFormed(Put(p, i, s))
    ensures FreeSpace(Put(p, i, s)) ==
            FreeSpace(p) + Size(At(p, i)) - Size(s) - (if i == |p| then SLOT_SIZE else 0)
  {
    UsedPut(p, i, s);
    var q := Put(p, i, s);
    forall j | 0 <= j < |q| && q[j].Tuple? ensures q[j].data != [] {
      assert q[j] == At(q, j);
      if j != i { assert q[j] == At(p, j); }
    }
  }

  /** The room check asks for exactly what one tuple more takes. */
  lemma {:induction false} RoomIsExact(p: Page, data: seq<byte>)
    requires WellFormed(p) && data != []
    ensures HasRoom(p, |data|) <==> WellFormed(p + [Tuple(data, false)])
  {
    UsedPut(p, |p|, Tuple(data, false));
  }

  /** There is a live tuple in the slot. */
  predicate IsLive(p: Page, i: nat) {
    At(p, i).Tuple? && !At(p, i).deleted
  }

  /** The page with the tuple of slot `i` replaced is again a page of 4096 bytes. */
  predicate Fits(p: Page, i: nat, data: seq<byte>)
    requires i <= |p|
  {
    WellFormed(Put(p, i, Tuple(data, false)))
  }

  /** What each outcome of an update says about the page. */
  lemma {:induction false} OutcomesAreExact(p: Page, i: nat, data: seq<byte>, rollback: bool)
    requires WellFormed(p) && data != []
    ensures var r := UpdateOutcomeOf(p, i, |data|, rollback);
            && (r.InvalidSlot? <==> i >= |p|)
            && (r.Deleted? <==> i < |p| && !IsLive(p, i))
            && (r.NotEnoughSpace? <==> IsLive(p, i) && !Fits(p, i, data))
            && (r.RollbackDifficult? <==> IsLive(p, i) && Fits(p, i, data) && !rollback && |data| < |p[i].data|)
            && (r.Updated? <==> IsLive(p, i) && Fits(p, i, data) && (rollback || |p[i].data| <= |data|))
  {
    if IsLive(p, i) {
      UsedPut(p, i, Tuple(data, false));
      if FreeSpace(p) + Size(p[i]) >= |data| { PutWellFormed(p, i, Tuple(data, false)); }
    }
  }

  /** An insert that passes the room check leaves a well-formed page. */
  lemma {:induction false} InsertWellFormed(p: Page, data: seq<byte>)
    requires WellFormed(p) && data != [] && HasRoom(p, |data|)
    ensures WellFormed(Put(p, FirstEmpty(p), Tuple(data, false)))
  {
    PutWellFormed(p, FirstEmpty(p), Tuple(data, false));
  }
}
