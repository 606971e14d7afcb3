/** Duplicate-free sequences, and lists threaded through an array of nodes.

    Several managers keep their queues as `next` links between the elements of one node
    array, without a tail pointer. A node pointer is an index into that array and -1 is the
    null pointer. */
module Queues {

  ghost predicate NoDup<T>(q: seq<T>) {
    forall i, j :: 0 <= i < j < |q| ==> q[i] != q[j]
  }

  lemma PopHead<T>(q: seq<T>)
    requires q != [] && NoDup(q)
    ensures NoDup(q[1..]) && q[0] in q && q[0] !in q[1..]
    ensures forall x :: x in q <==> x == q[0] || x in q[1..]
  {
    assert q == [q[0]] + q[1..];
  }

  lemma PushTail<T>(q: seq<T>, p: T)
    requires p !in q && NoDup(q)
    ensures NoDup(q + [p])
    ensures forall x :: x in q + [p] <==> x in q || x == p
  {
  }

  lemma CardinalWithout<T>(s: set<T>, x: T)
    ensures |s| == |s - {x}| + if x in s then 1 else 0
  {
    if x !in s { assert s - {x} == s; }
  }

  ghost function Elements(q: seq<nat>): (r: set<nat>)
    requires NoDup(q)
    ensures forall x :: x in r <==> x in q
    ensures |r| == |q|
  {
    if q == [] then {} else (PopHead(q); Elements(q[1..]) + {q[0]})
  }

  ghost function Upto(n: nat): (r: set<nat>)
    ensures forall i :: i in r <==> 0 <= i < n
    ensures |r| == n
  {
    if n == 0 then {} else Upto(n - 1) + {n - 1}
  }

  /** Pigeonhole: fewer than n distinct slots cannot cover all n. */
  lemma FreeSlotExists(q: seq<nat>, n: nat)
    requires NoDup(q) && |q| < n
    ensures exists i :: 0 <= i < n && i !in q
  {
    if forall i :: 0 <= i < n ==> i in q {
      SubsetCardinality(Upto(n), Elements(q));
      assert false;
    }
  }

  lemma {:induction false} SubsetCardinality<T>(a: set<T>, b: set<T>)
    requires a <= b
    ensures |a| <= |b|
    decreases a
  {
    if a != {} {
      var x :| x in a;
      SubsetCardinality(a - {x}, b - {x});
      CardinalWithout(a, x);
      CardinalWithout(b, x);
    }
  }

  // ---------------------------------------------------------------- threaded lists

  const NIL := -1

  datatype Node<T> = Node(item: T, next: int)

  /** Following `next` from `head` visits exactly `q` and ends in the null pointer. */
  ghost predicate Chain<T>(nodes: seq<Node<T>>, head: int, q: seq<nat>)
    decreases |q|
  {
    if q == [] then head == NIL
    else head == q[0] < |nodes| && Chain(nodes, nodes[head].next, q[1..])
  }

  ghost function Items<T>(nodes: seq<Node<T>>): (r: seq<T>)
    ensures |r| == |nodes|
  {
    seq(|nodes|, i requires 0 <= i < |nodes| => nodes[i].item)
  }

  lemma {:induction false} ChainUnchanged<T>(before: seq<Node<T>>, after: seq<Node<T>>, head: int, q: seq<nat>)
    requires |before| == |after| && Chain(before, head, q)
    requires forall i :: 0 <= i < |before| && i in q ==> before[i].next == after[i].next
    ensures Chain(after, head, q)
    decreases |q|
  {
    if q != [] { ChainUnchanged(before, after, before[head].next, q[1..]); }
  }

  /** Hanging `p` behind the last node of a chain. */
  lemma {:induction false} ChainAppended<T>(before: seq<Node<T>>, after: seq<Node<T>>, head: int, q: seq<nat>, p: nat)
    requires |before| == |after| && Chain(before, head, q) && NoDup(q)
    requires p < |before| && p !in q && after[p].next == NIL
    requires q != [] && q[|q| - 1] < |after| && after[q[|q| - 1]].next == p
    requires forall i :: 0 <= i < |before| && i in q && i != q[|q| - 1] ==> before[i].next == after[i].next
    ensures Chain(after, head, q + [p])
    decreases |q|
  {
    assert (q + [p])[1..] == q[1..] + [p];
    if |q| == 1 {
      assert Chain(after, p, [p]);
    } else {
      PopHead(q);
      assert q[|q| - 1] == q[1..][|q| - 2];
      ChainAppended(before, after, before[head].next, q[1..], p);
    }
  }

  /** Ending the chain at its `k`-th node drops the nodes behind it. */
  lemma {:induction false} ChainCut<T>(before: seq<Node<T>>, after: seq<Node<T>>, head: int, q: seq<nat>, k: nat)
    requires |before| == |after| && Chain(before, head, q) && NoDup(q) && k < |q|
    requires q[k] < |after| && after[q[k]].next == NIL
    requires forall i :: 0 <= i < |before| && i in q[..k] ==> before[i].next == after[i].next
    ensures Chain(after, head, q[..k + 1])
    decreases |q|
  {
    assert q[..k + 1][1..] == q[1..][..k];
    if k > 0 {
      PopHead(q);
      assert q[..k][0] == q[0] && q[..k][1..] == q[1..][..k - 1];
      ChainCut(before, after, before[head].next, q[1..], k - 1);
    }
  }

  /** What a list looks like after its tail was linked to `p` and `p` was made the end: `p` is
      appended, or, if it was already there, everything behind it is gone. */
  function Relinked(q: seq<nat>, p: nat): (r: seq<nat>)
    ensures p !in q ==> r == q + [p]
    ensures p in q ==> r <= q && r != [] && r[|r| - 1] == p
  {
    if q == [] then [p] else if q[0] == p then [p] else [q[0]] + Relinked(q[1..], p)
  }

  /** Walks to the last node. */
  method FindTail<T>(nodes: array<Node<T>>, head: nat, ghost q: seq<nat>) returns (tail: nat)
    requires Chain(nodes[..], head, q)
    ensures q != [] && tail == q[|q| - 1] < nodes.Length
  {
    tail := head;
    ghost var k := 0;
    while nodes[tail].next != NIL
      invariant 0 <= k < |q| && tail == q[k]
      invariant Chain(nodes[..], tail, q[k..])
      decreases |q| - k
    {
      assert q[k..][1..] == q[k + 1..];
      tail := nodes[tail].next;
      k := k + 1;
    }
    assert q[k..][1..] == [];
  }

  /** What the two writes behind the walk do to the list. */
  lemma ChainRelinked<T>(before: seq<Node<T>>, after: seq<Node<T>>, head: int, q: seq<nat>, p: nat, tail: nat)
    requires |before| == |after| && Chain(before, head, q) && NoDup(q) && q != [] && tail == q[|q| - 1]
    requires p < |after| && tail < |after| && after[p].next == NIL && (tail != p ==> after[tail].next == p)
    requires forall i :: 0 <= i < |before| && i != p && i != tail ==> before[i].next == after[i].next
    ensures Chain(after, head, Relinked(q, p))
  {
    if p in q {
      var r := Relinked(q, p);
      assert q[..|r|] == r && q[|r| - 1] == p;
      forall i | 0 <= i < |before| && i in q[..|r| - 1] ensures before[i].next == after[i].next {
        var k :| 0 <= k < |r| - 1 && q[k] == i;
      }
      ChainCut(before, after, head, q, |r| - 1);
    } else {
      ChainAppended(before, after, head, q, p);
    }
  }

  /** Links a node behind the tail, which it finds by walking the list. The walk does not
      look at the node, so a node that is already in the list cuts it short. */
  method Enqueue<T>(nodes: array<Node<T>>, head: int, p: nat, ghost q: seq<nat>) returns (newHead: int)
    requires Chain(nodes[..], head, q) && NoDup(q) && p < nodes.Length
    modifies nodes
    ensures Chain(nodes[..], newHead, Relinked(q, p))
    ensures Items(nodes[..]) == old(Items(nodes[..]))
    ensures forall i :: 0 <= i < nodes.Length && i != p && i !in q ==> nodes[i] == old(nodes[i])
  {
    if head == NIL {
      newHead := p;
      nodes[p] := nodes[p].(next := NIL);
    } else {
      newHead := head;
      var tail := FindTail(nodes, head, q);
      nodes[tail] := nodes[tail].(next := p);
      nodes[p] := nodes[p].(next := NIL);
      ChainRelinked(old(nodes[..]), nodes[..], head, q, p, tail);
    }
  }
}
