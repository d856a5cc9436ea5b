/** An index entry as bytes: the key as a serialized string value, then the value. */
module EntryBytes {
  import opened Bytes
  import KeyOrder
  import SkipListNode

  const TWO_TO_THE_64 := TWO_TO_THE_32 * TWO_TO_THE_32

  /** Two bytes, least significant first. */
  function SerializeLength(n: int): (b: seq<byte>)
    requires 0 <= n < TWO_TO_THE_16
    ensures |b| == 2 && LittleEndian(b) == n
  {
    var b := [(n % 256) as byte, (n / 256) as byte];
    assert b[1..] == [b[1]] && b[1..][1..] == [];
    assert LittleEndian(b[1..]) == b[1] as int;
    b
  }

  /** `Value.Serialize` of a string: not null, its length, its bytes. */
  function SerializeKey(key: seq<byte>): (b: seq<byte>)
    requires |key| < TWO_TO_THE_16
    ensures |b| == |key| + 3
  {
    [0] + SerializeLength(|key|) + key
  }

  /** `IndexEntry.Serialize`: the serialized key, then the value in eight bytes, least significant first. */
  function SerializeEntry(key: seq<byte>, value: int): (b: seq<byte>)
    requires |key| < TWO_TO_THE_16 && 0 <= value < TWO_TO_THE_64
    ensures |b| == |key| + 11
  {
    SerializeKey(key) + SerializeU32(value % TWO_TO_THE_32) + SerializeU32(value / TWO_TO_THE_32)
  }

  /** The bytes of some entry whose key is not null. */
  predicate IsEntry(b: seq<byte>) {
    |b| >= 11 && b[0] == 0 && |b| == 11 + LittleEndian(b[1..3])
  }

  /** `NewIndexEntryFromBytes`: the last eight bytes are the value, the key says how long it is. */
  function KeyString(b: seq<byte>): seq<byte>
    requires IsEntry(b)
  {
    b[3..3 + LittleEndian(b[1..3])]
  }

  function ValuePart(b: seq<byte>): int
    requires 8 <= |b|
  {
    U32At(b, |b| - 8) + TWO_TO_THE_32 * U32At(b, |b| - 4)
  }

  lemma EntryRoundTrip(key: seq<byte>, value: int)
    requires |key| < TWO_TO_THE_16 && 0 <= value < TWO_TO_THE_64
    ensures var b := SerializeEntry(key, value);
            IsEntry(b) && KeyString(b) == key && ValuePart(b) == value
  {
    var lo, hi := SerializeU32(value % TWO_TO_THE_32), SerializeU32(value / TWO_TO_THE_32);
    var b, n := SerializeEntry(key, value), |key| + 3;
    assert b[1..3] == SerializeLength(|key|);
    assert b[n..n + 4] == lo && b[n + 4..n + 8] == hi;
    assert b[3..n] == key;
  }

  // ---- the node the bytes stand for ----

  /** The entry as the node sees it: the rank of its key, its length, its value. */
  ghost function EntryOf(b: seq<byte>): SkipListNode.Entry
    requires IsEntry(b)
  {
    SkipListNode.Entry(KeyOrder.Rank(KeyString(b)), |b|, ValuePart(b))
  }

  lemma EntryOfSerialized(key: seq<byte>, value: int)
    requires |key| < TWO_TO_THE_16 && 0 <= value < TWO_TO_THE_64
    ensures var b := SerializeEntry(key, value);
            IsEntry(b) && EntryOf(b) == SkipListNode.Entry(KeyOrder.Rank(key), |key| + 11, value)
  {
    EntryRoundTrip(key, value);
  }

  ghost predicate AllEntries(bs: seq<seq<byte>>) {
    forall i :: 0 <= i < |bs| ==> IsEntry(bs[i])
  }

  ghost function NodeOf(bs: seq<seq<byte>>): (es: seq<SkipListNode.Entry>)
    requires AllEntries(bs)
    ensures |es| == |bs| && forall i :: 0 <= i < |bs| ==> es[i] == EntryOf(bs[i])
  {
    seq(|bs|, i requires 0 <= i < |bs| => EntryOf(bs[i]))
  }
}
