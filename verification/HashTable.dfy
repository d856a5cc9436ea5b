/** The linear-probe hash table: cyclic probing over all block pages, with tombstones. */
module HashTable {
  import opened HashCells
  import opened HashBlockPage

  class HashTableIterator {
    const numBlocks: nat
    var bucket: nat
    var offset: nat

    ghost predicate Valid()
      reads this
    {
      bucket < numBlocks && offset < BLOCK_ARRAY_SIZE
    }

    function Index(): nat
      reads this
    {
      bucket * BLOCK_ARRAY_SIZE + offset
    }

    constructor (numBlocks: nat, bucket: nat, offset: nat)
      requires bucket < numBlocks && offset < BLOCK_ARRAY_SIZE
      ensures Valid() && this.numBlocks == numBlocks && this.bucket == bucket && this.offset == offset
    {
      this.numBlocks, this.bucket, this.offset := numBlocks, bucket, offset;
    }

    /** One cell on, from the last cell of the last block back to the first. */
    method Next()
      requires Valid()
      modifies this
      ensures Valid()
      ensures Index() == if old(Index()) + 1 < numBlocks * BLOCK_ARRAY_SIZE then old(Index()) + 1 else 0
    {
      offset := offset + 1;
      if offset >= BLOCK_ARRAY_SIZE {
        bucket, offset := bucket + 1, 0;
        if bucket >= numBlocks {
          bucket := 0;
        }
      }
      IndexIsBelow(old(bucket), old(offset), numBlocks);
    }
  }

  lemma {:induction false} IndexIsBelow(bucket: nat, offset: nat, blocks: nat)
    requires bucket < blocks && offset < BLOCK_ARRAY_SIZE
    ensures bucket * BLOCK_ARRAY_SIZE + offset + 1 < blocks * BLOCK_ARRAY_SIZE <==>
            bucket + 1 < blocks || offset + 1 < BLOCK_ARRAY_SIZE
  {
  }

  // ---- the block pages as one row of cells ----

  function Block(cells: seq<Cell>, b: nat): seq<Cell>
    requires (b + 1) * BLOCK_ARRAY_SIZE <= |cells|
  {
    cells[b * BLOCK_ARRAY_SIZE..(b + 1) * BLOCK_ARRAY_SIZE]
  }

  lemma BlockOfUpdate(cells: seq<Cell>, n: nat, b: nat, o: nat, c: Cell, k: nat)
    requires |cells| == n * BLOCK_ARRAY_SIZE && b < n && k < n && o < BLOCK_ARRAY_SIZE
    ensures b * BLOCK_ARRAY_SIZE + o < |cells| && (k + 1) * BLOCK_ARRAY_SIZE <= |cells|
    ensures Block(cells[b * BLOCK_ARRAY_SIZE + o := c], k) == if k == b then Block(cells, k)[o := c] else Block(cells, k)
  {
  }

  /** All block pages, and the row of cells their bitmaps and pairs amount to. */
  class BlockPages {
    var blocks: seq<Image>

    ghost var cells: seq<Cell>

    ghost predicate Valid()
      reads this
    {
      RowOk(blocks, cells)
    }

    constructor (n: nat)
      ensures Valid() && |blocks| == n && cells == seq(n * BLOCK_ARRAY_SIZE, _ => Cell(false, false, 0, 0))
    {
      blocks := seq(n, _ => EMPTY_IMAGE);
      cells := seq(n * BLOCK_ARRAY_SIZE, _ => Cell(false, false, 0, 0));
      new;
      EmptyCells();
    }

    /** The cell at a place of a block, read through the page's bitmaps and pairs. */
    method ReadCell(bucket: nat, offset: nat) returns (c: Cell)
      requires Valid() && bucket < |blocks| && offset < BLOCK_ARRAY_SIZE
      ensures bucket * BLOCK_ARRAY_SIZE + offset < |cells| && c == cells[bucket * BLOCK_ARRAY_SIZE + offset]
    {
      assert BlockOk(blocks[bucket], cells, bucket);
      c := CellIn(blocks[bucket], offset);
      assert CellsOf(blocks[bucket])[offset] == Block(cells, bucket)[offset];
    }

    method Insert(bucket: nat, offset: nat, key: nat, value: nat)
      requires Valid() && bucket < |blocks| && offset < BLOCK_ARRAY_SIZE
      modifies this
      ensures Valid() && |blocks| == |old(blocks)| && bucket * BLOCK_ARRAY_SIZE + offset < |cells|
      ensures cells == old(cells)[bucket * BLOCK_ARRAY_SIZE + offset := Cell(true, true, key, value)]
    {
      CellWritten(blocks[bucket], offset, key, value);
      Follows(blocks, cells, bucket, offset, WithEntry(blocks[bucket], offset, key, value), Cell(true, true, key, value));
      blocks := blocks[bucket := WithEntry(blocks[bucket], offset, key, value)];
      cells := cells[bucket * BLOCK_ARRAY_SIZE + offset := Cell(true, true, key, value)];
    }

    method Remove(bucket: nat, offset: nat)
      requires Valid() && bucket < |blocks| && offset < BLOCK_ARRAY_SIZE
      modifies this
      ensures Valid() && |blocks| == |old(blocks)| && bucket * BLOCK_ARRAY_SIZE + offset < |cells|
      ensures cells == old(cells)[bucket * BLOCK_ARRAY_SIZE + offset := old(cells)[bucket * BLOCK_ARRAY_SIZE + offset].(readable := false)]
    {
      assert BlockOk(blocks[bucket], cells, bucket);
      ghost var c := CellIn(blocks[bucket], offset).(readable := false);
      assert CellsOf(blocks[bucket])[offset] == Block(cells, bucket)[offset];
      CellCleared(blocks[bucket], offset);
      Follows(blocks, cells, bucket, offset, WithTombstone(blocks[bucket], offset), c);
      blocks := blocks[bucket := WithTombstone(blocks[bucket], offset)];
      cells := cells[bucket * BLOCK_ARRAY_SIZE + offset := c];
    }
  }

  ghost predicate BlockOk(m: Image, cells: seq<Cell>, k: nat) {
    IsImage(m) && (k + 1) * BLOCK_ARRAY_SIZE <= |cells| && CellsOf(m) == Block(cells, k)
  }

  ghost predicate RowOk(blocks: seq<Image>, cells: seq<Cell>) {
    && |cells| == |blocks| * BLOCK_ARRAY_SIZE
    && forall k :: 0 <= k < |blocks| ==> BlockOk(blocks[k], cells, k)
  }

  /** One page has changed one cell: the row of cells follows by that cell. */
  lemma Follows(blocks: seq<Image>, cells: seq<Cell>, bucket: nat, offset: nat, m: Image, c: Cell)
    requires RowOk(blocks, cells) && bucket < |blocks| && offset < BLOCK_ARRAY_SIZE
    requires IsImage(m) && IsImage(blocks[bucket]) && CellsOf(m) == CellsOf(blocks[bucket])[offset := c]
    ensures bucket * BLOCK_ARRAY_SIZE + offset < |cells|
    ensures RowOk(blocks[bucket := m], cells[bucket * BLOCK_ARRAY_SIZE + offset := c])
  {
    BlockOfUpdate(cells, |blocks|, bucket, offset, c, bucket);
    var blocks', cells' := blocks[bucket := m], cells[bucket * BLOCK_ARRAY_SIZE + offset := c];
    forall k | 0 <= k < |blocks| ensures BlockOk(blocks'[k], cells', k) {
      assert BlockOk(blocks[k], cells, k);
      BlockOfUpdate(cells, |blocks|, bucket, offset, c, k);
    }
  }

  lemma AtNext(home: nat, d: nat, n: nat)
    requires home < n && d < n
    ensures (if At(home, d, n) + 1 < n then At(home, d, n) + 1 else 0) == if d + 1 < n then At(home, d + 1, n) else home
    ensures d + 1 < n ==> At(home, d + 1, n) != home
  {
  }

  lemma SamePlace(b: nat, o: nat, b': nat, o': nat)
    requires o < BLOCK_ARRAY_SIZE && o' < BLOCK_ARRAY_SIZE
    ensures b * BLOCK_ARRAY_SIZE + o == b' * BLOCK_ARRAY_SIZE + o' <==> b == b' && o == o'
  {
  }

  datatype InsertError = Nil | Duplicate

  /** A live equal value stands before the first cell behind `home` that is not live. */
  ghost predicate MeetsValue(cells: seq<Cell>, home: nat, value: nat) {
    exists d :: 0 <= d < |cells| && LiveUpTo(cells, home, d) && Holds(cells, home, d, value)
  }

  ghost predicate LiveUpTo(cells: seq<Cell>, home: nat, d: nat)
    requires d <= |cells|
  {
    home < |cells| && forall e :: 0 <= e < d ==> Live(cells[At(home, e, |cells|)])
  }

  ghost predicate Holds(cells: seq<Cell>, home: nat, d: nat, value: nat)
    requires d < |cells|
  {
    home < |cells| && Live(cells[At(home, d, |cells|)]) && cells[At(home, d, |cells|)].value == value
  }

  /** Probing has met live cells with other values, and stops here. */
  lemma NothingMet(cells: seq<Cell>, home: nat, d: nat, value: nat)
    requires home < |cells| && d <= |cells|
    requires forall e :: 0 <= e < d ==> Live(cells[At(home, e, |cells|)]) && cells[At(home, e, |cells|)].value != value
    requires d < |cells| ==> !Live(cells[At(home, d, |cells|)])
    ensures !MeetsValue(cells, home, value)
  {
    forall k | 0 <= k < |cells| && LiveUpTo(cells, home, k) ensures !Holds(cells, home, k, value) {
    }
  }

  class LinearProbeHashTable {
    const numBlocks: nat
    const pages: BlockPages

    ghost predicate Valid()
      reads pages
    {
      Sized() && Reachable(pages.cells, numBlocks)
    }

    ghost predicate Sized()
      reads pages
    {
      pages.Valid() && numBlocks == |pages.blocks| > 0 && |pages.cells| == numBlocks * BLOCK_ARRAY_SIZE
    }

    constructor (numBuckets: nat)
      requires 0 < numBuckets <= 1020
      ensures Valid() && numBlocks == numBuckets && forall k :: Values(pages.cells, k) == multiset{}
    {
      numBlocks := numBuckets;
      pages := new BlockPages(numBuckets);
      new;
      forall k ensures Values(pages.cells, k) == multiset{} { NoLiveValues(pages.cells, k, 0, |pages.cells|); }
    }

    method NewIterator(hash: nat) returns (itr: HashTableIterator)
      requires Sized()
      ensures fresh(itr) && itr.Valid() && itr.numBlocks == numBlocks && itr.Index() == Home(hash, numBlocks) < |pages.cells|
    {
      itr := new HashTableIterator(numBlocks, hash % numBlocks, hash % BLOCK_ARRAY_SIZE);
    }

    /** The next cell in cyclic order, which is the first one again after a full round. */
    method Advance(itr: HashTableIterator, bucket: nat, offset: nat, ghost home: nat, ghost d: nat) returns (cell: Cell)
      requires pages.Valid() && itr.Valid() && itr.numBlocks == |pages.blocks|
      requires d < |pages.cells| && home == bucket * BLOCK_ARRAY_SIZE + offset < |pages.cells| && offset < BLOCK_ARRAY_SIZE
      requires itr.Index() == At(home, d, |pages.cells|)
      modifies itr
      ensures itr.Valid() && itr.Index() < |pages.cells| && cell == pages.cells[itr.Index()]
      ensures itr.bucket == bucket && itr.offset == offset <==> d + 1 == |pages.cells|
      ensures d + 1 < |pages.cells| ==> itr.Index() == At(home, d + 1, |pages.cells|)
    {
      itr.Next();
      cell := pages.ReadCell(itr.bucket, itr.offset);
      AtNext(home, d, |pages.cells|);
      SamePlace(itr.bucket, itr.offset, bucket, offset);
    }

    /** Exactly the live values stored under the hash, in the order met from its own cell to the first
      * cell never used. */
    method GetValue(hash: nat) returns (result: seq<nat>, ghost start: nat, ghost d: nat)
      requires Valid()
      ensures multiset(result) == Values(pages.cells, hash)
      ensures start == hash % numBlocks * BLOCK_ARRAY_SIZE + hash % BLOCK_ARRAY_SIZE
      ensures StopsAfter(pages.cells, start, d) && result == Met(pages.cells, hash, start, d)
    {
      result, start, d := Probe(hash);
      ProbedAll(pages.cells, numBlocks, hash, d);
      HomeOf(hash, numBlocks);
    }

    /** The probing loop: up to a cell never used, or once round. */
    method Probe(hash: nat) returns (result: seq<nat>, ghost home: nat, ghost d: nat)
      requires Sized()
      ensures home == Home(hash, numBlocks)
      ensures StopsAfter(pages.cells, home, d) && result == Met(pages.cells, hash, home, d)
      ensures multiset(result) == Probed(pages.cells, hash, home, d)
    {
      var itr := NewIterator(hash);
      ghost var cells := pages.cells;
      home := Home(hash, numBlocks);
      result, d := [], 0;
      var bucket, offset := itr.bucket, itr.offset;
      var cell := pages.ReadCell(bucket, offset);
      while cell.occupied
        invariant pages.cells == cells
        invariant d < |cells| && cell == cells[At(home, d, |cells|)]
        invariant itr.Valid() && itr.numBlocks == numBlocks && fresh(itr) && itr.Index() == At(home, d, |cells|)
        invariant OccupiedUpTo(cells, home, d) && result == Met(cells, hash, home, d)
        invariant multiset(result) == Probed(cells, hash, home, d)
        decreases |cells| - d
      {
        PassesOne(cells, hash, home, d);
        MetNext(cells, hash, home, d, result);
        result := result + FoundIn(cell, hash);
        assert result == Met(cells, hash, home, d + 1);
        cell := Advance(itr, bucket, offset, home, d);
        d := d + 1;
        if itr.bucket == bucket && itr.offset == offset {
          break;
        }
      }
    }

    /** An entry for a value that is not live goes into the first cell behind its home that is
      * not live, if the table has one.  A live equal value met before such a cell, under whatever
      * key, is reported as a duplicate.  Without such a cell and without a duplicate nothing
      * happens and no error is reported. */
    method Insert(hash: nat, value: nat) returns (err: InsertError)
      requires Valid()
      modifies pages
      ensures Valid()
      ensures err.Duplicate? <==>
                MeetsValue(old(pages.cells), hash % numBlocks * BLOCK_ARRAY_SIZE + hash % BLOCK_ARRAY_SIZE, value)
      ensures err.Duplicate? ==> pages.cells == old(pages.cells) && HasLive(old(pages.cells), value)
      ensures err.Nil? && AllLive(old(pages.cells)) ==> pages.cells == old(pages.cells)
      ensures err.Nil? && !AllLive(old(pages.cells)) ==>
                var start, n := hash % numBlocks * BLOCK_ARRAY_SIZE + hash % BLOCK_ARRAY_SIZE, |old(pages.cells)|;
                start < n && exists d :: 0 <= d < n && LiveUpTo(old(pages.cells), start, d)
                                         && !Live(old(pages.cells)[At(start, d, n)])
                                         && pages.cells == old(pages.cells)[At(start, d, n) := Cell(true, true, hash, value)]
      ensures err.Nil? && !AllLive(old(pages.cells)) ==>
                forall k :: Values(pages.cells, k) == Values(old(pages.cells), k) + (if k == hash then multiset{value} else multiset{})
    {
      var itr := NewIterator(hash);
      ghost var home, n, d := Home(hash, numBlocks), |pages.cells|, 0;
      ghost var index := itr.Index();
      var bucket, offset := itr.bucket, itr.offset;
      var cell := pages.ReadCell(bucket, offset);
      while true
        invariant Valid() && pages.blocks == old(pages.blocks)
        invariant d < n && index == At(home, d, n) && pages.cells == old(pages.cells)
        invariant itr.Valid() && itr.numBlocks == numBlocks && fresh(itr) && itr.Index() == index && cell == pages.cells[index]
        invariant forall e :: 0 <= e < d ==> Live(pages.cells[At(home, e, n)]) && pages.cells[At(home, e, n)].value != value
        decreases n - d
      {
        if cell.occupied && cell.readable && cell.value == value {
          assert LiveUpTo(pages.cells, home, d) && Holds(pages.cells, home, d, value);
          return Duplicate;
        }
        if !cell.occupied || !cell.readable {
          NothingMet(pages.cells, home, d, value);
          assert LiveUpTo(pages.cells, home, d);
          Put(itr.bucket, itr.offset, hash, value, d);
          return Nil;
        }
        cell := Advance(itr, bucket, offset, home, d);
        d := d + 1;
        index := itr.Index();
        if itr.bucket == bucket && itr.offset == offset {
          NothingMet(pages.cells, home, d, value);
          RoundIsAll(pages.cells, home, d);
          return Nil;
        }
      }
    }

    method Put(bucket: nat, offset: nat, hash: nat, value: nat, ghost d: nat)
      requires Valid() && d < |pages.cells| && bucket < numBlocks && offset < BLOCK_ARRAY_SIZE
      requires bucket * BLOCK_ARRAY_SIZE + offset == At(Home(hash, numBlocks), d, |pages.cells|)
      requires !Live(pages.cells[bucket * BLOCK_ARRAY_SIZE + offset])
      requires forall e :: 0 <= e < d ==> pages.cells[At(Home(hash, numBlocks), e, |pages.cells|)].occupied
      modifies pages
      ensures Valid() && !AllLive(old(pages.cells))
      ensures pages.cells == old(pages.cells)[bucket * BLOCK_ARRAY_SIZE + offset := Cell(true, true, hash, value)]
      ensures forall k :: Values(pages.cells, k) == Values(old(pages.cells), k) + (if k == hash then multiset{value} else multiset{})
    {
      PutKeepsReachable(pages.cells, numBlocks, hash, value, d);
      ghost var index := bucket * BLOCK_ARRAY_SIZE + offset;
      forall k { PutAddsValue(pages.cells, index, hash, value, k); }
      pages.Insert(bucket, offset, hash, value);
    }

    /** Every live copy of the pair is gone, and nothing else. */
    method Remove(hash: nat, value: nat)
      requires Valid()
      modifies pages
      ensures Valid()
      ensures forall k :: Values(pages.cells, k) == if k == hash then Values(old(pages.cells), k)[value := 0] else Values(old(pages.cells), k)
      ensures |pages.cells| == |old(pages.cells)|
      ensures forall p :: 0 <= p < |pages.cells| ==>
                var c := old(pages.cells)[p];
                pages.cells[p] == if Live(c) && c.key == hash && c.value == value then c.(readable := false) else c
    {
      ghost var d := ClearMatches(hash, value);
      ClearedAll(old(pages.cells), pages.cells, numBlocks, hash, value, d);
      ClearedKeepsReachable(old(pages.cells), pages.cells, numBlocks, hash, value);
      forall k
        ensures Values(pages.cells, k) == if k == hash then Values(old(pages.cells), k)[value := 0] else Values(old(pages.cells), k)
      {
        ClearedValues(old(pages.cells), pages.cells, hash, value, k, |pages.cells|);
      }
    }

    method ClearIfMatch(bucket: nat, offset: nat, cell: Cell, hash: nat, value: nat)
      requires pages.Valid() && bucket < |pages.blocks| && offset < BLOCK_ARRAY_SIZE
      requires var i := bucket * BLOCK_ARRAY_SIZE + offset; i < |pages.cells| && cell == pages.cells[i]
      modifies pages
      ensures pages.Valid() && |pages.blocks| == |old(pages.blocks)|
      ensures pages.cells ==
              if Live(cell) && Matches(cell, hash, value)
              then old(pages.cells)[bucket * BLOCK_ARRAY_SIZE + offset := cell.(readable := false)] else old(pages.cells)
    {
      if cell.occupied && cell.key == hash && cell.value == value {
        if cell.readable {
          pages.Remove(bucket, offset);
        }
      }
    }

    /** The probing loop of `Remove`. */
    method ClearMatches(hash: nat, value: nat) returns (ghost d: nat)
      requires Sized()
      modifies pages
      ensures pages.Valid() && |pages.blocks| == numBlocks
      ensures ClearedBelow(old(pages.cells), pages.cells, hash, value, Home(hash, numBlocks), d)
      ensures d <= |pages.cells| && (d == |pages.cells| || !pages.cells[At(Home(hash, numBlocks), d, |pages.cells|)].occupied)
    {
      var itr := NewIterator(hash);
      d := 0;
      ghost var home, n := Home(hash, numBlocks), |pages.cells|;
      ghost var index := itr.Index();
      var bucket, offset := itr.bucket, itr.offset;
      var cell := pages.ReadCell(bucket, offset);
      while cell.occupied
        invariant pages.Valid() && |pages.blocks| == numBlocks
        invariant d < n && index == At(home, d, n) && |pages.cells| == n
        invariant itr.Valid() && itr.numBlocks == numBlocks && fresh(itr) && itr.Index() == index && cell == pages.cells[index]
        invariant ClearedBelow(old(pages.cells), pages.cells, hash, value, home, d)
        decreases n - d
      {
        ClearedNext(old(pages.cells), pages.cells, hash, value, home, d);
        assert cell == old(pages.cells)[index] && index == itr.bucket * BLOCK_ARRAY_SIZE + itr.offset;
        ClearIfMatch(itr.bucket, itr.offset, cell, hash, value);
        assert ClearedBelow(old(pages.cells), pages.cells, hash, value, home, d + 1);
        cell := Advance(itr, bucket, offset, home, d);
        d := d + 1;
        index := itr.Index();
        if itr.bucket == bucket && itr.offset == offset {
          break;
        }
      }
    }
  }
}
