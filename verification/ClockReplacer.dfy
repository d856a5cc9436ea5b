/** The replacer: a doubly linked ring of frames with a clock hand.  The hand is a pointer to a
  * pointer, either to the ring's head or to the `next` field of a node that has left the ring. */
module ClockReplacer {

  type FrameId = nat

  function Without(q: seq<FrameId>, id: FrameId): (r: seq<FrameId>)
    ensures forall x :: x in r <==> x in q && x != id
  {
    if q == [] then []
    else if q[0] == id then Without(q[1..], id)
    else [q[0]] + Without(q[1..], id)
  }

  class Node {
    const key: FrameId
    var value: bool
    var next: Node?
    var prev: Node?

    constructor (key: FrameId, value: bool)
      ensures this.key == key && this.value == value && next == null && prev == null
    {
      this.key, this.value := key, value;
      next, prev := null, null;
    }
  }

  function Succ(n: nat, i: nat): nat { if i + 1 < n then i + 1 else 0 }

  function Keys(ring: seq<Node>): (q: seq<FrameId>)
    ensures |q| == |ring| && forall i :: 0 <= i < |ring| ==> q[i] == ring[i].key
  {
    seq(|ring|, i requires 0 <= i < |ring| => ring[i].key)
  }

  ghost predicate DistinctKeys(ring: seq<Node>) {
    forall i, j :: 0 <= i < j < |ring| ==> ring[i].key != ring[j].key
  }

  /** Each node leads to the one behind it, and the last to the first. */
  ghost predicate Linked(ring: seq<Node>)
    reads ring
  {
    forall i :: 0 <= i < |ring| ==> ring[i].next == ring[Succ(|ring|, i)] && ring[Succ(|ring|, i)].prev == ring[i]
  }

  ghost predicate Maps(m: map<FrameId, Node>, ring: seq<Node>) {
    && (forall k :: k in m ==> m[k] in ring && m[k].key == k)
    && (forall n :: n in ring ==> n.key in m && m[n.key] == n)
  }

  lemma AppendedRing(ring: seq<Node>, m: map<FrameId, Node>, n: Node)
    requires DistinctKeys(ring) && Maps(m, ring) && n.key !in m
    ensures DistinctKeys(ring + [n]) && Maps(m[n.key := n], ring + [n])
    ensures Keys(ring + [n]) == Keys(ring) + [n.key]
    ensures n !in ring && forall i, j :: 0 <= i < j < |ring| ==> ring[i] != ring[j]
  {
  }

  function RemoveAt(ring: seq<Node>, i: nat): (r: seq<Node>)
    requires i < |ring|
    ensures |r| == |ring| - 1
    ensures forall j :: 0 <= j < |r| ==> r[j] == if j < i then ring[j] else ring[j + 1]
  {
    ring[..i] + ring[i + 1..]
  }

  lemma {:induction false} WithoutAt(q: seq<FrameId>, i: nat)
    requires i < |q| && forall j, k :: 0 <= j < k < |q| ==> q[j] != q[k]
    ensures Without(q, q[i]) == q[..i] + q[i + 1..]
  {
    if i == 0 {
      WithoutAbsent(q[1..], q[0]);
    } else {
      WithoutAt(q[1..], i - 1);
      assert q[1..][..i - 1] == q[1..i] && q[1..][i..] == q[i + 1..];
      assert q[..i] == [q[0]] + q[1..i];
    }
  }

  lemma {:induction false} WithoutAbsent(q: seq<FrameId>, id: FrameId)
    requires id !in q
    ensures Without(q, id) == q
  {
    if q != [] { WithoutAbsent(q[1..], id); }
  }

  lemma RemovedRing(ring: seq<Node>, m: map<FrameId, Node>, i: nat)
    requires DistinctKeys(ring) && Maps(m, ring) && i < |ring|
    ensures DistinctKeys(RemoveAt(ring, i)) && Maps(m - {ring[i].key}, RemoveAt(ring, i))
    ensures Keys(RemoveAt(ring, i)) == Without(Keys(ring), ring[i].key)
    ensures ring[i] !in RemoveAt(ring, i) && forall n :: n in RemoveAt(ring, i) ==> n in ring
    ensures forall j, k :: 0 <= j < k < |ring| ==> ring[j] != ring[k]
  {
    var r := RemoveAt(ring, i);
    WithoutAt(Keys(ring), i);
    assert Keys(r) == Keys(ring)[..i] + Keys(ring)[i + 1..];
    RemovedMembers(ring, i);
  }

  lemma RemovedMembers(ring: seq<Node>, i: nat)
    requires i < |ring|
    ensures forall n :: n in ring && n != ring[i] ==> n in RemoveAt(ring, i)
  {
    assert ring == ring[..i] + [ring[i]] + ring[i + 1..];
  }

  class CircularList {
    var head: Node?
    var tail: Node?
    var size: nat
    const capacity: nat
    var supportMap: map<FrameId, Node>

    ghost var ring: seq<Node>

    ghost predicate Ends(ring: seq<Node>)
      reads this
    {
      if ring == [] then head == null && tail == null else head == ring[0] && tail == ring[|ring| - 1]
    }

    ghost predicate Valid()
      reads this, ring
    {
      size == |ring| <= capacity && DistinctKeys(ring) && Linked(ring) && Ends(ring) && Maps(supportMap, ring)
    }

    ghost function Queue(): seq<FrameId>
      reads this
    {
      Keys(ring)
    }

    constructor (capacity: nat)
      ensures Valid() && ring == [] && this.capacity == capacity
    {
      head, tail, size, this.capacity := null, null, 0, capacity;
      supportMap := map[];
      ring := [];
    }

    method Insert(key: FrameId, value: bool)
      requires Valid() && size < capacity && key !in supportMap
      modifies this, ring
      ensures Valid() && |ring| == |old(ring)| + 1 && ring[..|old(ring)|] == old(ring)
      ensures fresh(ring[|old(ring)|]) && ring[|old(ring)|].key == key
      ensures Queue() == old(Queue()) + [key]
    {
      var newNode := new Node(key, value);
      AppendedRing(ring, supportMap, newNode);
      Attach(newNode);
    }

    method Attach(newNode: Node)
      requires Valid() && size < capacity && newNode !in ring
      requires DistinctKeys(ring + [newNode]) && Maps(supportMap[newNode.key := newNode], ring + [newNode])
      requires forall i, j :: 0 <= i < j < |ring| ==> ring[i] != ring[j]
      modifies this, ring, newNode
      ensures Valid() && ring == old(ring) + [newNode]
    {
      LinkLast(newNode);
      size := size + 1;
      supportMap := supportMap[newNode.key := newNode];
      ring := ring + [newNode];
    }

    method LinkLast(newNode: Node)
      requires Linked(ring) && Ends(ring) && size == |ring| && newNode !in ring
      requires forall i, j :: 0 <= i < j < |ring| ==> ring[i] != ring[j]
      modifies this`head, this`tail, ring, newNode
      ensures Linked(ring + [newNode]) && Ends(ring + [newNode])
    {
      if size == 0 {
        newNode.next, newNode.prev := newNode, newNode;
        head, tail := newNode, newNode;
      } else {
        newNode.next, newNode.prev := head, tail;
        tail.next := newNode;
        if head == tail {
          head.next := newNode;
        }
        tail := newNode;
        head.prev := tail;
      }
    }

    method Remove(key: FrameId)
      requires Valid()
      modifies this, ring
      ensures Valid() && Queue() == Without(old(Queue()), key)
      ensures key !in old(supportMap) ==> ring == old(ring) && unchanged(ring) && unchanged(this)
      ensures key in old(supportMap) ==> old(supportMap)[key] !in ring && old(supportMap)[key].next == old(supportMap[key].next)
      ensures forall n :: n in ring ==> n in old(ring)
    {
      if key !in supportMap {
        AbsentKey(ring, supportMap, key);
        return;
      }
      var node := supportMap[key];
      ghost var i :| 0 <= i < |ring| && ring[i] == node;
      RemovedRing(ring, supportMap, i);
      Detach(node, i);
    }

    method Detach(node: Node, ghost i: nat)
      requires Valid() && i < |ring| && ring[i] == node
      requires forall j, k :: 0 <= j < k < |ring| ==> ring[j] != ring[k]
      requires DistinctKeys(RemoveAt(ring, i)) && Maps(supportMap - {node.key}, RemoveAt(ring, i))
      modifies this, ring
      ensures Valid() && ring == RemoveAt(old(ring), i) && node.next == old(node.next)
    {
      LinkOut(node, i);
      size := size - 1;
      supportMap := supportMap - {node.key};
      ring := RemoveAt(ring, i);
    }

    method LinkOut(node: Node, ghost i: nat)
      requires Linked(ring) && Ends(ring) && size == |ring| && i < |ring| && ring[i] == node
      requires forall j, k :: 0 <= j < k < |ring| ==> ring[j] != ring[k]
      modifies this`head, this`tail, ring
      ensures Linked(RemoveAt(ring, i)) && Ends(RemoveAt(ring, i))
      ensures node.next == old(node.next)
    {
      if size == 1 {
        head, tail := null, null;
      } else {
        if node == head {
          head := head.next;
        }
        NeighboursOf(ring, i);
        if node == tail {
          tail := tail.prev;
        }
        Bypass(node, i);
        BypassedRing(ring, i);
      }
    }

    /** The neighbours of a node now lead to each other. */
    method Bypass(node: Node, ghost i: nat)
      requires Linked(ring) && |ring| >= 2 && i < |ring| && ring[i] == node
      requires forall j, k :: 0 <= j < k < |ring| ==> ring[j] != ring[k]
      modifies ring
      ensures Bypassed(ring, i) && node.next == old(node.next)
    {
      NeighboursOf(ring, i);
      node.next.prev := node.prev;
      node.prev.next := node.next;
    }
  }

  lemma NeighboursOf(ring: seq<Node>, i: nat)
    requires Linked(ring) && |ring| >= 2 && i < |ring|
    ensures ring[i].next == ring[Succ(|ring|, i)] && ring[i].prev == ring[Pred(|ring|, i)]
    ensures Succ(|ring|, i) != i && Pred(|ring|, i) != i
  {
    assert Succ(|ring|, Pred(|ring|, i)) == i;
  }

  ghost predicate Bypassed(ring: seq<Node>, i: nat)
    reads ring
    requires |ring| >= 2 && i < |ring|
  {
    forall j :: 0 <= j < |ring| && j != i ==>
      && ring[j].next == ring[if j == Pred(|ring|, i) then Succ(|ring|, i) else Succ(|ring|, j)]
      && ring[j].prev == ring[if j == Succ(|ring|, i) then Pred(|ring|, i) else Pred(|ring|, j)]
  }

  lemma BypassedRing(ring: seq<Node>, i: nat)
    requires |ring| >= 2 && i < |ring| && Bypassed(ring, i)
    ensures Linked(RemoveAt(ring, i))
  {
    var r := RemoveAt(ring, i);
    forall j | 0 <= j < |r| ensures r[j].next == r[Succ(|r|, j)] && r[Succ(|r|, j)].prev == r[j] {
      SuccWithout(|ring|, i, j);
      assert r[j] == ring[Back(i, j)] && r[Succ(|r|, j)] == ring[Back(i, Succ(|r|, j))];
    }
  }

  /** Where a ring position moves to when position `i` is taken out, seen backwards. */
  function Back(i: nat, j: nat): nat { if j < i then j else j + 1 }

  function Pred(n: nat, i: nat): nat
    requires n > 0
  {
    if i == 0 then n - 1 else i - 1
  }

  lemma SuccWithout(n: nat, i: nat, j: nat)
    requires n >= 2 && i < n && j < n - 1
    ensures Back(i, Succ(n - 1, j)) == if Back(i, j) == Pred(n, i) then Succ(n, i) else Succ(n, Back(i, j))
    ensures Back(i, j) != i && Back(i, j) < n && Back(i, Succ(n - 1, j)) < n && Back(i, Succ(n - 1, j)) != i
    ensures Back(i, j) == if Back(i, Succ(n - 1, j)) == Succ(n, i) then Pred(n, i) else Pred(n, Back(i, Succ(n - 1, j)))
  {
  }

  lemma AbsentKey(ring: seq<Node>, m: map<FrameId, Node>, key: FrameId)
    requires Maps(m, ring) && key !in m
    ensures Without(Keys(ring), key) == Keys(ring)
  {
    WithoutAbsent(Keys(ring), key);
  }

  /** `&cList.head`, or `&n.next` for a node `n` that has been taken out. */
  datatype Hand = AtHead | NextOf(node: Node)

  class ClockReplacer {
    const cList: CircularList
    var clockHand: Hand

    /** The hand is read only while the ring is not empty; it then leads to the ring's head. */
    ghost predicate Valid()
      reads this, cList, cList.ring, if clockHand.NextOf? then {clockHand.node} else {}
    {
      && cList.Valid()
      && (clockHand.NextOf? ==> clockHand.node !in cList.ring)
      && (cList.ring != [] ==> (if clockHand.AtHead? then cList.head else clockHand.node.next) == cList.ring[0])
    }

    /** The frames that may be evicted, the next victim first. */
    ghost function Queue(): seq<FrameId>
      reads this, cList
    {
      cList.Queue()
    }

    constructor (poolSize: nat)
      ensures Valid() && Queue() == [] && cList.capacity == poolSize
      ensures fresh(cList)
    {
      cList := new CircularList(poolSize);
      clockHand := AtHead;
    }

    method CurrentNode() returns (n: Node?)
      requires Valid()
      ensures cList.ring != [] ==> n == cList.ring[0]
    {
      n := match clockHand { case AtHead => cList.head case NextOf(m) => m.next };
    }

    /** The frame that has been evictable longest, which is the head of the ring: a set reference
      * bit is cleared, but the hand's node is then looked at once more and taken. */
    method Victim() returns (id: FrameId)
      requires Valid() && Queue() != []
      modifies this, cList, cList.ring
      ensures Valid() && old(Queue()) == [id] + Queue()
      ensures forall n :: n in cList.ring ==> n in old(cList.ring)
    {
      var currentNode := CurrentNode();
      id := currentNode.key;
      Sweep(currentNode);
      RemoveFirst(currentNode);
    }

    /** The loop of `Victim` up to the node it takes: the node it started with. */
    method Sweep(currentNode: Node)
      requires cList.Valid() && cList.ring != [] && currentNode == cList.ring[0]
      modifies this`clockHand, currentNode`value
      ensures cList.Valid() && clockHand == NextOf(currentNode)
    {
      while true
        invariant cList.Valid()
        decreases currentNode.value
      {
        if currentNode.value {
          currentNode.value := false;
          clockHand := NextOf(currentNode);
        } else {
          clockHand := NextOf(currentNode);
          return;
        }
      }
    }

    method RemoveFirst(node: Node)
      requires cList.Valid() && cList.ring != [] && node == cList.ring[0] && clockHand == NextOf(node)
      modifies cList, cList.ring
      ensures Valid() && old(Queue()) == [node.key] + Queue()
      ensures forall n :: n in cList.ring ==> n in old(cList.ring)
    {
      FirstGone(cList.ring);
      FirstNode(cList.ring, cList.supportMap, node.key);
      cList.Remove(node.key);
    }

    method Unpin(id: FrameId)
      requires Valid() && (id in Queue() || |Queue()| < cList.capacity)
      modifies this, cList, cList.ring
      ensures Valid() && Queue() == if id in old(Queue()) then old(Queue()) else old(Queue()) + [id]
      ensures forall n :: n in cList.ring ==> n in old(cList.ring) || fresh(n)
    {
      InMap(cList.ring, cList.supportMap, id);
      if id !in cList.supportMap {
        cList.Insert(id, true);
        if cList.size == 1 {
          clockHand := AtHead;
        }
      }
    }

    method Pin(id: FrameId)
      requires Valid()
      modifies this, cList, cList.ring
      ensures Valid() && Queue() == Without(old(Queue()), id)
      ensures forall n :: n in cList.ring ==> n in old(cList.ring)
    {
      InMap(cList.ring, cList.supportMap, id);
      if id !in cList.supportMap {
        WithoutAbsent(Queue(), id);
        return;
      }
      var node := cList.supportMap[id];
      var current := CurrentNode();
      if current == node {
        clockHand := NextOf(node);
      }
      cList.Remove(id);
    }
  }

  lemma FirstGone(ring: seq<Node>)
    requires ring != [] && DistinctKeys(ring)
    ensures Keys(ring) == [ring[0].key] + Without(Keys(ring), ring[0].key)
  {
    WithoutAt(Keys(ring), 0);
  }

  lemma FirstNode(ring: seq<Node>, m: map<FrameId, Node>, key: FrameId)
    requires Maps(m, ring) && ring != [] && ring[0].key == key
    ensures key in m && m[key] == ring[0]
  {
  }

  lemma InMap(ring: seq<Node>, m: map<FrameId, Node>, id: FrameId)
    requires Maps(m, ring)
    ensures id in m <==> id in Keys(ring)
  {
    if id in m { var i :| 0 <= i < |ring| && ring[i] == m[id]; assert Keys(ring)[i] == id; }
    if id in Keys(ring) { var i :| 0 <= i < |ring| && Keys(ring)[i] == id; assert ring[i] in ring; }
  }
}
