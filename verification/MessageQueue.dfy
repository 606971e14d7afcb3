/** The message queue under its mutex: a table of slots, a list of the occupied ones in
    post order, and a count. Each method is one critical section. */
module MessageQueue {
  import opened Queues

  datatype Message = Message(messageId: int, params: seq<int>)

  datatype Slot = Slot(msg: Message, valid: bool)

  /** The messages in the slots a list visits, in list order. */
  ghost function Queued(slots: seq<Node<Slot>>, order: seq<nat>): (r: seq<Message>)
    requires forall i :: i in order ==> i < |slots|
    ensures |r| == |order|
  {
    seq(|order|, k requires 0 <= k < |order| => assert order[k] in order; slots[order[k]].item.msg)
  }

  /** A message in one more slot, behind the others. */
  lemma QueuedWith(before: seq<Node<Slot>>, after: seq<Node<Slot>>, order: seq<nat>, node: nat, m: Message)
    requires |before| == |after| && node < |after| && node !in order && after[node].item.msg == m
    requires (forall i :: i in order ==> i < |before|) && (forall i :: i in order + [node] ==> i < |after|)
    requires forall i :: 0 <= i < |before| && i != node ==> after[i].item == before[i].item
    ensures Queued(after, order + [node]) == Queued(before, order) + [m]
  {
    forall k | 0 <= k < |order| ensures Queued(after, order + [node])[k] == Queued(before, order)[k] {
      assert order[k] in order && (order + [node])[k] == order[k];
    }
  }

  class MessageQueueContext {
    const slots: array<Node<Slot>>
    var head: int
    var nCount: int

    ghost var order: seq<nat>

    /** The list from `head` visits exactly the valid slots, once each. */
    ghost predicate Valid()
      reads this, slots
    {
      && NoDup(order)
      && Chain(slots[..], head, order)
      && (forall i :: 0 <= i < slots.Length ==> (slots[i].item.valid <==> i in order))
      && (forall i :: i in order ==> i < slots.Length)
      && nCount == |order|
    }

    ghost function Contents(): (r: seq<Message>)
      requires Valid()
      reads this, slots
      ensures |r| == nCount
    {
      Queued(slots[..], order)
    }

    constructor (nMaxMessageNum: nat)
      ensures Valid() && fresh(slots) && slots.Length == nMaxMessageNum
      ensures Contents() == []
    {
      slots := new Node<Slot>[nMaxMessageNum](_ => Node(Slot(Message(0, []), false), NIL));
      head, nCount, order := NIL, 0, [];
    }

    /** The free-slot search. By counting, it cannot fail while the queue is not full. */
    method FindFreeSlot() returns (node: int)
      requires Valid() && nCount < slots.Length
      ensures 0 <= node < slots.Length && node !in order
      ensures forall j :: 0 <= j < node ==> j in order
    {
      node := NIL;
      var i := 0;
      while i < slots.Length
        invariant 0 <= i <= slots.Length
        invariant forall j :: 0 <= j < i ==> j in order
        invariant node == NIL
      {
        if !slots[i].item.valid {
          node := i;
          break;
        }
        i := i + 1;
      }
      if node == NIL { FreeSlotExists(order, slots.Length); }
    }

    /** The critical section of a post: appends the message unless the queue is full. */
    method Insert(m: Message) returns (ok: bool)
      requires Valid()
      modifies this, slots
      ensures Valid()
      ensures ok == (old(nCount) < slots.Length)
      ensures Contents() == if ok then old(Contents()) + [m] else old(Contents())
    {
      if nCount >= slots.Length { return false; }
      var node := FindFreeSlot();
      ghost var before := slots[..];
      slots[node] := Node(Slot(m, true), NIL);
      ChainUnchanged(before, slots[..], head, order);
      ghost var mid := slots[..];
      head := Enqueue(slots, head, node, order);
      PushTail(order, node);
      order := order + [node];
      nCount := nCount + 1;
      assert forall i :: 0 <= i < slots.Length ==> Items(slots[..])[i] == slots[i].item && Items(mid)[i] == mid[i].item;
      QueuedWith(before, slots[..], old(order), node, m);
      return true;
    }

    /** The critical section of a get, entered after the semaphore was taken: removes the
        oldest message, or fails when there is none. */
    method RemoveHead() returns (ok: bool, m: Message)
      requires Valid()
      modifies this, slots
      ensures Valid()
      ensures ok == (old(Contents()) != [])
      ensures ok ==> [m] + Contents() == old(Contents())
      ensures !ok ==> Contents() == []
    {
      if nCount <= 0 { return false, Message(0, []); }
      PopHead(order);
      ghost var before := slots[..];
      var node := head;
      head := slots[node].next;
      m := slots[node].item.msg;
      slots[node] := slots[node].(item := slots[node].item.(valid := false));
      order := order[1..];
      ChainUnchanged(before, slots[..], head, order);
      nCount := nCount - 1;
      forall k | 0 <= k < |order| ensures Contents()[k] == old(Contents())[k + 1] {
        assert order[k] in order && order[k] == old(order)[k + 1];
      }
      return true, m;
    }

    /** The part of a flush that empties the list. */
    method Clear()
      requires Valid()
      modifies this, slots
      ensures Valid() && Contents() == []
    {
      head := NIL;
      nCount := 0;
      order := [];
      var i := 0;
      while i < slots.Length
        invariant 0 <= i <= slots.Length
        invariant forall j :: 0 <= j < i ==> !slots[j].item.valid
        invariant head == NIL && nCount == 0 && order == []
      {
        slots[i] := slots[i].(item := slots[i].item.(valid := false));
        i := i + 1;
      }
    }
  }
}
