/** The frame buffer manager itself: an array of frame nodes whose single `next` link
    threads the empty-buffer queue and the valid-picture queue. Node pointers are indices
    into the frame table and -1 is the null pointer.

    Every method is proved to change the manager exactly as `FbmProtocol` says. */
module FrameBufferManager {
  import opened FbmProtocol
  import opened Queues

  type FrameNode = Node<Frame>

  /** Removes the head node, if there is one. */
  method Dequeue(frames: array<FrameNode>, head: int, ghost q: seq<nat>) returns (newHead: int, node: int)
    requires Chain(frames[..], head, q) && NoDup(q)
    modifies frames
    ensures q == [] ==> node == NIL && newHead == NIL
    ensures q != [] ==> node == q[0] && Chain(frames[..], newHead, q[1..])
    ensures Items(frames[..]) == old(Items(frames[..]))
    ensures forall i :: 0 <= i < frames.Length && i !in q ==> frames[i] == old(frames[i])
  {
    if head == NIL {
      newHead, node := NIL, NIL;
    } else {
      PopHead(q);
      newHead, node := frames[head].next, head;
      frames[head] := frames[head].(next := NIL);
      ChainUnchanged(old(frames[..]), frames[..], newHead, q[1..]);
    }
  }

  class Fbm {
    const frames: array<FrameNode>
    var emptyHead: int
    var validHead: int
    var nEmpty: int
    var nValid: int
    var nWaitForDisp: int
    var nDecoderHolding: int
    var nRenderHolding: int

    ghost var empty: seq<nat>
    ghost var valid: seq<nat>

    ghost function View(): State
      reads this, frames
    {
      State(Items(frames[..]), empty, valid, nEmpty, nValid, nWaitForDisp, nDecoderHolding, nRenderHolding)
    }

    /** The links spell out two queues that no operation can tangle. The "invalid frame
        status" branches below are still possible here; that no run reaches them is
        `FbmProtocol.OwnershipInEveryRun`. */
    ghost predicate Valid()
      reads this, frames
    {
      Threaded() && Linked(View())
    }

    ghost predicate Threaded()
      reads this, frames
    {
      Chain(frames[..], emptyHead, empty) && Chain(frames[..], validHead, valid)
    }

    /** Allocates the nodes and puts them all on the empty queue. */
    constructor (nFrameNum: nat)
      ensures Valid() && fresh(frames)
      ensures View() == Init(nFrameNum)
    {
      frames := new FrameNode[nFrameNum](_ => Node(FREE, NIL));
      emptyHead, validHead := NIL, NIL;
      nEmpty, nValid, nWaitForDisp, nDecoderHolding, nRenderHolding := 0, 0, 0, 0, 0;
      empty, valid := [], [];
      new;
      assert Items(frames[..]) == seq(nFrameNum, _ => FREE);
      LinkAll();
      nEmpty := nFrameNum;
      assert View() == Init(nFrameNum);
    }

    method LinkAll()
      requires emptyHead == NIL && empty == []
      modifies this`emptyHead, this`empty, frames
      ensures empty == seq(frames.Length, k => k) && Chain(frames[..], emptyHead, empty)
      ensures Items(frames[..]) == old(Items(frames[..]))
    {
      for i := 0 to frames.Length
        invariant empty == seq(i, k => k)
        invariant Chain(frames[..], emptyHead, empty)
        invariant Items(frames[..]) == old(Items(frames[..]))
      {
        emptyHead := Enqueue(frames, emptyHead, i, empty);
        empty := empty + [i];
      }
    }

    /** The index check and the address check of the entry points that take a picture. */
    method Find(picture: Picture) returns (index: int)
      ensures index == Resolve(View(), picture)
    {
      match picture
      case Null => index := NIL;
      case Foreign(_) => index := NIL;
      case Own(i) => index := if i < frames.Length then i else NIL;
    }

    method SetFlag(p: nat, f: Frame)
      requires Threaded()
      requires p < frames.Length
      modifies frames
      ensures Threaded()
      ensures Items(frames[..]) == old(Items(frames[..]))[p := f]
    {
      frames[p] := frames[p].(item := f);
      ChainUnchanged(old(frames[..]), frames[..], emptyHead, empty);
      ChainUnchanged(old(frames[..]), frames[..], validHead, valid);
    }

    method PushEmpty(p: nat)
      requires Threaded() && NoDup(empty)
      requires p < frames.Length && p !in valid
      requires forall x :: x in empty ==> x !in valid
      modifies this`emptyHead, this`empty, this`nEmpty, frames
      ensures Threaded()
      ensures empty == Relinked(old(empty), p) && nEmpty == old(nEmpty) + 1
      ensures Items(frames[..]) == old(Items(frames[..]))
    {
      emptyHead := Enqueue(frames, emptyHead, p, empty);
      ChainUnchanged(old(frames[..]), frames[..], validHead, valid);
      empty := Relinked(empty, p);
      nEmpty := nEmpty + 1;
    }

    method PushValid(p: nat)
      requires Threaded() && NoDup(valid)
      requires p < frames.Length && p !in empty && p !in valid
      requires forall x :: x in empty ==> x !in valid
      modifies this`validHead, this`valid, this`nValid, this`nWaitForDisp, frames
      ensures Threaded()
      ensures valid == old(valid) + [p] && nValid == old(nValid) + 1 && nWaitForDisp == old(nWaitForDisp) + 1
      ensures Items(frames[..]) == old(Items(frames[..]))
    {
      validHead := Enqueue(frames, validHead, p, valid);
      ChainUnchanged(old(frames[..]), frames[..], emptyHead, empty);
      valid := valid + [p];
      nValid := nValid + 1;
      nWaitForDisp := nWaitForDisp + 1;
    }

    method PopEmpty() returns (node: int)
      requires Valid()
      modifies this`emptyHead, this`empty, frames
      ensures Threaded()
      ensures Items(frames[..]) == old(Items(frames[..]))
      ensures old(empty) == [] ==> node == NIL && empty == []
      ensures old(empty) != [] ==> node == old(empty)[0] && empty == old(empty)[1..]
    {
      emptyHead, node := Dequeue(frames, emptyHead, empty);
      ChainUnchanged(old(frames[..]), frames[..], validHead, valid);
      if empty != [] { empty := empty[1..]; }
    }

    method PopValid() returns (node: int)
      requires Valid()
      modifies this`validHead, this`valid, frames
      ensures Threaded()
      ensures Items(frames[..]) == old(Items(frames[..]))
      ensures old(valid) == [] ==> node == NIL && valid == []
      ensures old(valid) != [] ==> node == old(valid)[0] && valid == old(valid)[1..]
    {
      validHead, node := Dequeue(frames, validHead, valid);
      ChainUnchanged(old(frames[..]), frames[..], emptyHead, empty);
      if valid != [] { valid := valid[1..]; }
    }

    method RequestBuffer() returns (reply: Reply)
      requires Valid()
      modifies this, frames
      ensures Valid() && (View(), reply) == Step(old(View()), Op.RequestBuffer)
    {
      ghost var s := View();
      TakeBufferKeepsQueuesLinked(s);
      var p := PopEmpty();
      if p == NIL { return NoFrame; }
      assert p in s.empty;
      assert s.frames[p] == Items(frames[..])[p] == frames[p].item;
      var f := frames[p].item;
      if f.usedByDecoder || f.inValidQueue || f.usedByRender || f.alreadyDisplayed {
        return InvalidStatus;
      }
      nEmpty := nEmpty - 1;
      nDecoderHolding := nDecoderHolding + 1;
      SetFlag(p, f.(usedByDecoder := true));
      assert View() == TakeBuffer(s).0;
      return Handed(p);
    }

    method Requeue(p: nat, f: Frame, validPicture: bool)
      requires Threaded()
      requires NoDup(empty) && NoDup(valid) && forall x :: x in empty ==> x !in valid
      requires p < frames.Length && p !in empty && p !in valid
      requires Items(frames[..])[p] == f
      modifies this`emptyHead, this`empty, this`nEmpty, this`validHead, this`valid, this`nValid, this`nWaitForDisp,
               frames
      ensures Threaded()
      ensures View() == Requeued(old(View()), p, f, validPicture)
    {
      if f.alreadyDisplayed {
        SetFlag(p, f.(alreadyDisplayed := false));
        PushEmpty(p);
      } else if validPicture {
        PushValid(p);
        SetFlag(p, f.(inValidQueue := true));
      } else {
        PushEmpty(p);
      }
    }

    method ReturnBuffer(picture: Picture, validPicture: bool) returns (reply: Reply)
      requires Valid()
      modifies this, frames
      ensures Valid() && (View(), reply) == Step(old(View()), Op.ReturnBuffer(picture, validPicture))
    {
      ghost var s := View();
      GiveBackBufferKeepsQueuesLinked(s, picture, validPicture);
      var p := Find(picture);
      if p == NIL { return Rejected; }
      assert s.frames[p] == frames[p].item;
      if !frames[p].item.usedByDecoder { return Rejected; }
      var f := frames[p].item.(usedByDecoder := false);
      SetFlag(p, f);
      ghost var s1 := View();
      if f.inValidQueue {
        if f.usedByRender || f.alreadyDisplayed { return InvalidStatus; }
      } else if !f.usedByRender {
        assert p !in s.empty && p !in s.valid;
        Requeue(p, f, validPicture);
      }
      assert View() == if f.inValidQueue || f.usedByRender then s1 else Requeued(s1, p, f, validPicture);
      nDecoderHolding := nDecoderHolding - 1;
      assert View() == GiveBackBuffer(s, picture, validPicture).0;
      return Done;
    }

    method ShareBuffer(picture: Picture) returns (reply: Reply)
      requires Valid()
      modifies this, frames
      ensures Valid() && (View(), reply) == Step(old(View()), Op.ShareBuffer(picture))
    {
      ghost var s := View();
      ShareKeepsQueuesLinked(s, picture);
      var p := Find(picture);
      if p == NIL { return Rejected; }
      assert s.frames[p] == frames[p].item;
      var f := frames[p].item;
      if !f.usedByDecoder || f.inValidQueue || f.alreadyDisplayed { return Rejected; }
      SetFlag(p, f.(inValidQueue := true));
      PushValid(p);
      assert View() == Share(s, picture).0;
      return Done;
    }

    method RequestPicture() returns (reply: Reply)
      requires Valid()
      modifies this, frames
      ensures Valid() && (View(), reply) == Step(old(View()), Op.RequestPicture)
    {
      ghost var s := View();
      TakePictureKeepsQueuesLinked(s);
      var p := PopValid();
      if p == NIL { return NoFrame; }
      assert p in s.valid;
      assert s.frames[p] == Items(frames[..])[p] == frames[p].item;
      var f := frames[p].item;
      if !f.inValidQueue || f.usedByRender || f.alreadyDisplayed { return InvalidStatus; }
      nValid := nValid - 1;
      nWaitForDisp := nWaitForDisp - 1;
      nRenderHolding := nRenderHolding + 1;
      SetFlag(p, f.(inValidQueue := false, usedByRender := true));
      assert View() == TakePicture(s).0;
      return Handed(p);
    }

    /** The branch for a tagged id, which names frame `p`. */
    method ReturnTagged(p: nat) returns (reply: Reply)
      requires Valid() && p < frames.Length
      modifies this`emptyHead, this`empty, this`nEmpty, frames
      ensures Threaded()
      ensures (View(), reply) == GiveBackTagged(old(View()), p)
    {
      ghost var s := View();
      assert s.frames[p] == frames[p].item;
      var f := frames[p].item;
      if f.usedByRender || f.inValidQueue || f.alreadyDisplayed { return Rejected; }
      PushEmpty(p);
      assert View() == GiveBackTagged(s, p).0;
      return Done;
    }

    /** The branch for an id inside the table; `p` is -1 if the address does not fit. */
    method ReturnOwn(p: int) returns (reply: Reply)
      requires Valid() && -1 <= p < frames.Length
      modifies this`nRenderHolding, this`emptyHead, this`empty, this`nEmpty, frames
      ensures Threaded()
      ensures (View(), reply) == GiveBackOwn(old(View()), p)
    {
      ghost var s := View();
      if p == NIL { return Rejected; }
      assert s.frames[p] == frames[p].item;
      var f := frames[p].item;
      if !f.usedByRender || f.inValidQueue || f.alreadyDisplayed { return Rejected; }
      nRenderHolding := nRenderHolding - 1;
      if f.usedByDecoder {
        SetFlag(p, f.(usedByRender := false, alreadyDisplayed := true));
      } else {
        SetFlag(p, f.(usedByRender := false));
        PushEmpty(p);
      }
      assert View() == GiveBackOwn(s, p).0;
      return Done;
    }

    method ReturnPicture(picture: Picture) returns (reply: Reply)
      requires Valid() && Defined(View(), Op.ReturnPicture(picture))
      modifies this, frames
      ensures (View(), reply) == Step(old(View()), Op.ReturnPicture(picture))
      ensures Threaded()
      ensures Linked(View()) <==> QueueRule(old(View()), Op.ReturnPicture(picture))
    {
      ghost var s := View();
      var id := PictureId(picture);
      if id >= frames.Length && id >= FORBID_USE_TAG {
        reply := ReturnTagged(id - FORBID_USE_TAG);
      } else {
        var p := Find(picture);
        reply := ReturnOwn(p);
      }
      assert (View(), reply) == GiveBackPicture(s, picture);
      GiveBackPictureKeepsQueuesLinked(s, picture);
    }

    /** Takes one picture off the valid queue; false when the queue was empty. */
    method FlushHead() returns (more: bool, reply: Reply)
      requires Valid()
      modifies this, frames
      ensures Valid() && more == (old(valid) != [])
      ensures if more then (View(), reply) == FlushOne(old(View())) else View() == old(View()) && reply == Done
    {
      ghost var s := View();
      var p := PopValid();
      if p == NIL { return false, Done; }
      FlushOneLinked(s);
      PopHead(s.valid);
      assert s.frames[p] == Items(frames[..])[p] == frames[p].item;
      nValid := nValid - 1;
      var f := frames[p].item;
      if f.usedByRender || f.alreadyDisplayed {
        assert View() == FlushOne(s).0;
        return true, InvalidStatus;
      }
      Discard(p, f.(inValidQueue := false));
      assert View() == FlushOne(s).0;
      return true, Done;
    }

    /** A discarded picture is free again, unless the decoder still holds it. */
    method Discard(p: nat, f: Frame)
      requires Threaded() && NoDup(empty)
      requires p < frames.Length && p !in empty && p !in valid && forall x :: x in empty ==> x !in valid
      modifies this`emptyHead, this`empty, this`nEmpty, frames
      ensures Threaded()
      ensures empty == if f.usedByDecoder then old(empty) else old(empty) + [p]
      ensures nEmpty == if f.usedByDecoder then old(nEmpty) else old(nEmpty) + 1
      ensures Items(frames[..]) ==
              old(Items(frames[..]))[p := if f.usedByDecoder then f.(alreadyDisplayed := true) else f]
    {
      if !f.usedByDecoder {
        SetFlag(p, f);
        PushEmpty(p);
      } else {
        SetFlag(p, f.(alreadyDisplayed := true));
      }
    }

    /** Discards the queued pictures one by one. */
    method Flush() returns (reply: Reply)
      requires Valid()
      modifies this, frames
      ensures Valid() && (View(), reply) == Step(old(View()), Op.Flush)
    {
      var more := true;
      reply := Done;
      while more
        invariant Valid()
        invariant FlushQueue(View()) == FlushQueue(old(View()))
        invariant !more ==> valid == [] && reply == Done
        decreases more, |valid|
      {
        more, reply := FlushHead();
        if reply == InvalidStatus { return; }
      }
    }
  }
}
