/** The order of skip list keys.  Keys are byte strings compared lexicographically, with two
  * marker strings standing for minus and plus infinity.  `Rank` embeds that order into the
  * reals, so that everything above can reason with `<`. */
module KeyOrder {
  import opened Bytes

  /** "SamehadaDBInfMaxValue" and "SamehadaDBInfMinValue". */
  const INF_MAX: seq<byte> :=
    [83, 97, 109, 101, 104, 97, 100, 97, 68, 66, 73, 110, 102, 77, 97, 120, 86, 97, 108, 117, 101]
  const INF_MIN: seq<byte> :=
    [83, 97, 109, 101, 104, 97, 100, 97, 68, 66, 73, 110, 102, 77, 105, 110, 86, 97, 108, 117, 101]

  /** Dictionary order of byte strings. */
  predicate Less(a: seq<byte>, b: seq<byte>) {
    b != [] && (a == [] || a[0] < b[0] || (a[0] == b[0] && Less(a[1..], b[1..])))
  }

  // ---- the comparisons of column values, as the branches read ----

  predicate LessThan(a: seq<byte>, b: seq<byte>) {
    if a == INF_MAX && b == INF_MAX then false
    else if a == INF_MAX then false
    else if b == INF_MAX then true
    else if a == INF_MIN && b == INF_MIN then false
    else if a == INF_MIN then true
    else if b == INF_MIN then false
    else Less(a, b)
  }

  predicate LessThanOrEqual(a: seq<byte>, b: seq<byte>) {
    if a == INF_MAX && b == INF_MAX then true
    else if a == INF_MAX then false
    else if b == INF_MAX then true
    else if a == INF_MIN && b == INF_MIN then true
    else if a == INF_MIN then true
    else if b == INF_MIN then false
    else Less(a, b) || a == b
  }

  predicate Equals(a: seq<byte>, b: seq<byte>) {
    if a == INF_MAX && b == INF_MAX then true else a == b
  }

  // ---- the embedding ----

  /** Digits to base 257, a string's end counting as the digit zero. */
  function Fraction(s: seq<byte>): (x: real)
    ensures 0.0 <= x < 1.0
  {
    if s == [] then 0.0 else (s[0] as int as real + 1.0 + Fraction(s[1..])) / 257.0
  }

  lemma {:induction false} FractionOrder(a: seq<byte>, b: seq<byte>)
    ensures Fraction(a) < Fraction(b) <==> Less(a, b)
    ensures Fraction(a) == Fraction(b) <==> a == b
  {
    if a != [] && b != [] {
      FractionOrder(a[1..], b[1..]);
      if a[0] == b[0] { assert a == [a[0]] + a[1..] && b == [b[0]] + b[1..]; }
    }
  }

  function Rank(s: seq<byte>): real {
    if s == INF_MAX then 2.0 else if s == INF_MIN then -1.0 else Fraction(s)
  }

  lemma {:induction false} RankBounds(s: seq<byte>)
    ensures -1.0 <= Rank(s) <= 2.0
    ensures Rank(s) == 2.0 <==> s == INF_MAX
    ensures Rank(s) == -1.0 <==> s == INF_MIN
  {
  }

  /** The three comparisons of the source are the comparisons of ranks. */
  lemma {:induction false} RankOrder(a: seq<byte>, b: seq<byte>)
    ensures LessThan(a, b) <==> Rank(a) < Rank(b)
    ensures LessThanOrEqual(a, b) <==> Rank(a) <= Rank(b)
    ensures Equals(a, b) <==> Rank(a) == Rank(b)
    ensures Equals(a, b) <==> a == b
  {
    FractionOrder(a, b);
    assert INF_MAX[14] != INF_MIN[14];
  }
}
