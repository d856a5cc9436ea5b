/** A block of the hash table: two bitmaps and an array of pairs. */
module HashBlockPage {
  import opened HashCells

  const BITMAP_SIZE := 32  // (252 - 1) / 8 + 1

  /** `1 << k`. */
  function Mask(k: nat): bv8
    requires k < 8
  {
    if k == 0 then 1 else if k == 1 then 2 else if k == 2 then 4 else if k == 3 then 8
    else if k == 4 then 16 else if k == 5 then 32 else if k == 6 then 64 else 128
  }

  predicate Bit(b: bv8, k: nat)
    requires k < 8
  {
    b & Mask(k) != 0
  }

  lemma SetBit(b: bv8, k: nat, j: nat)
    requires k < 8 && j < 8
    ensures Bit(b | Mask(k), j) <==> j == k || Bit(b, j)
  {
  }

  lemma ClearBit(b: bv8, k: nat, j: nat)
    requires k < 8 && j < 8
    ensures Bit(b & !Mask(k), j) <==> j != k && Bit(b, j)
  {
  }

  predicate BitAt(bits: seq<bv8>, i: nat)
    requires |bits| == BITMAP_SIZE && i < BLOCK_ARRAY_SIZE
  {
    Bit(bits[i / 8], i % 8)
  }

  function Raised(bits: seq<bv8>, i: nat): (r: seq<bv8>)
    requires |bits| == BITMAP_SIZE && i < BLOCK_ARRAY_SIZE
    ensures |r| == BITMAP_SIZE
  {
    bits[i / 8 := bits[i / 8] | Mask(i % 8)]
  }

  function Lowered(bits: seq<bv8>, i: nat): (r: seq<bv8>)
    requires |bits| == BITMAP_SIZE && i < BLOCK_ARRAY_SIZE
    ensures |r| == BITMAP_SIZE
  {
    bits[i / 8 := bits[i / 8] & !Mask(i % 8)]
  }

  lemma SetBitAt(bits: seq<bv8>, i: nat, j: nat)
    requires |bits| == BITMAP_SIZE && i < BLOCK_ARRAY_SIZE && j < BLOCK_ARRAY_SIZE
    ensures BitAt(Raised(bits, i), j) <==> j == i || BitAt(bits, j)
  {
    SetBit(bits[i / 8], i % 8, j % 8);
  }

  lemma ClearBitAt(bits: seq<bv8>, i: nat, j: nat)
    requires |bits| == BITMAP_SIZE && i < BLOCK_ARRAY_SIZE && j < BLOCK_ARRAY_SIZE
    ensures BitAt(Lowered(bits, i), j) <==> j != i && BitAt(bits, j)
  {
    ClearBit(bits[i / 8], i % 8, j % 8);
  }

  datatype KeyValue = KeyValue(key: nat, value: nat)

  /** The bytes of a block page: two bitmaps and the pairs. */
  datatype Image = Image(occupied: seq<bv8>, readable: seq<bv8>, pairs: seq<KeyValue>)

  predicate IsImage(m: Image) {
    |m.occupied| == |m.readable| == BITMAP_SIZE && |m.pairs| == BLOCK_ARRAY_SIZE
  }

  function CellIn(m: Image, i: nat): Cell
    requires IsImage(m) && i < BLOCK_ARRAY_SIZE
  {
    Cell(BitAt(m.occupied, i), BitAt(m.readable, i), m.pairs[i].key, m.pairs[i].value)
  }

  function CellsOf(m: Image): (cs: seq<Cell>)
    requires IsImage(m)
    ensures |cs| == BLOCK_ARRAY_SIZE
  {
    seq(BLOCK_ARRAY_SIZE, i requires 0 <= i < BLOCK_ARRAY_SIZE => CellIn(m, i))
  }

  function WithEntry(m: Image, i: nat, key: nat, value: nat): (r: Image)
    requires IsImage(m) && i < BLOCK_ARRAY_SIZE
    ensures IsImage(r)
  {
    Image(Raised(m.occupied, i), Raised(m.readable, i), m.pairs[i := KeyValue(key, value)])
  }

  function WithTombstone(m: Image, i: nat): (r: Image)
    requires IsImage(m) && i < BLOCK_ARRAY_SIZE
    ensures IsImage(r)
  {
    m.(readable := Lowered(m.readable, i))
  }

  lemma CellWritten(m: Image, i: nat, key: nat, value: nat)
    requires IsImage(m) && i < BLOCK_ARRAY_SIZE
    ensures CellsOf(WithEntry(m, i, key, value)) == CellsOf(m)[i := Cell(true, true, key, value)]
  {
    forall j | 0 <= j < BLOCK_ARRAY_SIZE
      ensures CellIn(WithEntry(m, i, key, value), j) == if j == i then Cell(true, true, key, value) else CellIn(m, j)
    {
      CellAfterEntry(m, i, key, value, j);
    }
  }

  lemma CellAfterEntry(m: Image, i: nat, key: nat, value: nat, j: nat)
    requires IsImage(m) && i < BLOCK_ARRAY_SIZE && j < BLOCK_ARRAY_SIZE
    ensures CellIn(WithEntry(m, i, key, value), j) == if j == i then Cell(true, true, key, value) else CellIn(m, j)
  {
    var o, r := Raised(m.occupied, i), Raised(m.readable, i);
    SetBitAt(m.occupied, i, j);
    SetBitAt(m.readable, i, j);
    assert WithEntry(m, i, key, value) == Image(o, r, m.pairs[i := KeyValue(key, value)]);
  }

  lemma CellCleared(m: Image, i: nat)
    requires IsImage(m) && i < BLOCK_ARRAY_SIZE
    ensures CellsOf(WithTombstone(m, i)) == CellsOf(m)[i := CellIn(m, i).(readable := false)]
  {
    forall j | 0 <= j < BLOCK_ARRAY_SIZE
      ensures CellIn(WithTombstone(m, i), j) == if j == i then CellIn(m, i).(readable := false) else CellIn(m, j)
    {
      ClearBitAt(m.readable, i, j);
    }
  }

  const EMPTY_IMAGE := Image(seq(BITMAP_SIZE, _ => 0), seq(BITMAP_SIZE, _ => 0), seq(BLOCK_ARRAY_SIZE, _ => KeyValue(0, 0)))

  lemma EmptyCells()
    ensures IsImage(EMPTY_IMAGE) && CellsOf(EMPTY_IMAGE) == seq(BLOCK_ARRAY_SIZE, _ => Cell(false, false, 0, 0))
  {
    forall i | 0 <= i < BLOCK_ARRAY_SIZE ensures CellIn(EMPTY_IMAGE, i) == Cell(false, false, 0, 0) {
      assert EMPTY_IMAGE.occupied[i / 8] == 0 && EMPTY_IMAGE.readable[i / 8] == 0;
    }
  }

  /** The page in memory; its methods change the arrays in place. */
  class HashTableBlockPage {
    const occupied: array<bv8>
    const readable: array<bv8>
    const pairs: array<KeyValue>

    ghost predicate Valid() {
      && occupied.Length == readable.Length == BITMAP_SIZE && pairs.Length == BLOCK_ARRAY_SIZE
      && occupied != readable
    }

    ghost function Contents(): (m: Image)
      requires Valid()
      reads occupied, readable, pairs
      ensures IsImage(m)
    {
      Image(occupied[..], readable[..], pairs[..])
    }

    constructor ()
      ensures Valid() && fresh(occupied) && fresh(readable) && fresh(pairs)
      ensures Contents() == EMPTY_IMAGE
    {
      occupied := new bv8[BITMAP_SIZE](_ => 0);
      readable := new bv8[BITMAP_SIZE](_ => 0);
      pairs := new KeyValue[BLOCK_ARRAY_SIZE](_ => KeyValue(0, 0));
    }

    method IsOccupied(index: nat) returns (b: bool)
      requires Valid() && index < BLOCK_ARRAY_SIZE
      ensures b == CellIn(Contents(), index).occupied
    {
      b := occupied[index / 8] & Mask(index % 8) != 0;
    }

    method IsReadable(index: nat) returns (b: bool)
      requires Valid() && index < BLOCK_ARRAY_SIZE
      ensures b == CellIn(Contents(), index).readable
    {
      b := readable[index / 8] & Mask(index % 8) != 0;
    }

    /** A cell that is not live takes the entry; the others keep theirs. */
    method Insert(index: nat, key: nat, value: nat) returns (ok: bool)
      requires Valid() && index < BLOCK_ARRAY_SIZE
      modifies occupied, readable, pairs
      ensures Valid() && ok == !Live(CellIn(old(Contents()), index))
      ensures Contents() == if ok then WithEntry(old(Contents()), index, key, value) else old(Contents())
      ensures CellsOf(Contents()) ==
              if ok then CellsOf(old(Contents()))[index := Cell(true, true, key, value)] else CellsOf(old(Contents()))
    {
      var isOccupied := IsOccupied(index);
      var isReadable := IsReadable(index);
      if isOccupied && isReadable { return false; }
      CellWritten(Contents(), index, key, value);
      SetPair(index, key, value);
      RaiseBit(occupied, index);
      RaiseBit(readable, index);
      return true;
    }

    method SetPair(index: nat, key: nat, value: nat)
      requires index < pairs.Length
      modifies pairs
      ensures pairs[..] == old(pairs[..])[index := KeyValue(key, value)]
    {
      pairs[index] := KeyValue(key, value);
    }

    static method RaiseBit(bits: array<bv8>, index: nat)
      requires bits.Length == BITMAP_SIZE && index < BLOCK_ARRAY_SIZE
      modifies bits
      ensures bits[..] == Raised(old(bits[..]), index)
    {
      ghost var b, k := bits[..], index / 8;
      bits[index / 8] := bits[index / 8] | Mask(index % 8);
      assert bits[..] == b[k := b[k] | Mask(index % 8)];
    }

    static method LowerBit(bits: array<bv8>, index: nat)
      requires bits.Length == BITMAP_SIZE && index < BLOCK_ARRAY_SIZE
      modifies bits
      ensures bits[..] == Lowered(old(bits[..]), index)
    {
      ghost var b, k := bits[..], index / 8;
      bits[index / 8] := bits[index / 8] & !Mask(index % 8);
      assert bits[..] == b[k := b[k] & !Mask(index % 8)];
    }

    /** A readable cell becomes a tombstone. */
    method Remove(index: nat)
      requires Valid() && index < BLOCK_ARRAY_SIZE
      modifies readable
      ensures Valid()
      ensures Contents() == if CellIn(old(Contents()), index).readable then WithTombstone(old(Contents()), index) else old(Contents())
      ensures CellsOf(Contents()) == CellsOf(old(Contents()))[index := CellIn(old(Contents()), index).(readable := false)]
    {
      var isReadable := IsReadable(index);
      if !isReadable { return; }
      CellCleared(Contents(), index);
      LowerBit(readable, index);
    }
  }
}
