/** The stream cache between the parser and the player: a singly linked list with head and
    tail pointers, a frame count and a byte count. Each method is one critical section. */
module StreamCache {

  datatype CacheFrame = CacheFrame(
    data: seq<int>, nLength: nat, nPts: int, nPcr: int, bIsFirstPart: bool, bIsLastPart: bool,
    eMediaType: int, nStreamIndex: int, nFlags: int)

  function TotalLength(frames: seq<CacheFrame>): nat {
    if frames == [] then 0 else TotalLength(frames[..|frames| - 1]) + frames[|frames| - 1].nLength
  }

  lemma {:induction false} TotalLengthConcat(a: seq<CacheFrame>, b: seq<CacheFrame>)
    ensures TotalLength(a + b) == TotalLength(a) + TotalLength(b)
  {
    if b == [] {
      assert a + b == a;
    } else {
      TotalLengthConcat(a, b[..|b| - 1]);
      assert (a + b)[..|a + b| - 1] == a + b[..|b| - 1];
    }
  }

  lemma LengthWith(frames: seq<CacheFrame>, frame: CacheFrame)
    ensures TotalLength(frames + [frame]) == TotalLength(frames) + frame.nLength
  {
    assert (frames + [frame])[..|frames|] == frames;
  }

  lemma LengthOfRest(frames: seq<CacheFrame>)
    requires frames != []
    ensures TotalLength(frames) == frames[0].nLength + TotalLength(frames[1..])
  {
    LengthWith([], frames[0]);
    assert [] + [frames[0]] == [frames[0]];
    TotalLengthConcat([frames[0]], frames[1..]);
    assert frames == [frames[0]] + frames[1..];
  }

  class CacheNode {
    const frame: CacheFrame
    var next: CacheNode?

    constructor (frame: CacheFrame)
      ensures this.frame == frame && next == null
    {
      this.frame := frame;
      next := null;
    }
  }

  class Cache {
    var nMaxBufferSize: int
    var nStartPlaySize: int
    var nTotalDataSize: int
    var nFrameNum: int
    var head: CacheNode?
    var tail: CacheNode?

    ghost var nodes: seq<CacheNode>

    /** `head`, the `next` links and `tail` spell out `nodes`. */
    ghost predicate Linked()
      reads this, nodes
    {
      && (forall i, j :: 0 <= i < j < |nodes| ==> nodes[i] != nodes[j])
      && (if nodes == [] then head == null && tail == null else head == nodes[0] && tail == nodes[|nodes| - 1])
      && (forall i :: 0 <= i < |nodes| ==> nodes[i].next == After(nodes, i))
    }

    /** The list is linked and the counters are exact. */
    ghost predicate Valid()
      reads this, nodes
    {
      && Linked()
      && nFrameNum == |nodes|
      && nTotalDataSize == TotalLength(Contents())
    }

    static ghost function After(nodes: seq<CacheNode>, i: nat): CacheNode?
      requires i < |nodes|
    {
      if i == |nodes| - 1 then null else nodes[i + 1]
    }

    ghost function Contents(): (r: seq<CacheFrame>)
      reads this
      ensures |r| == |nodes|
    {
      Frames(nodes)
    }

    static ghost function Frames(nodes: seq<CacheNode>): (r: seq<CacheFrame>)
      ensures |r| == |nodes|
    {
      seq(|nodes|, i requires 0 <= i < |nodes| => nodes[i].frame)
    }

    constructor ()
      ensures Valid() && Contents() == []
    {
      nMaxBufferSize, nStartPlaySize, nTotalDataSize, nFrameNum := 0, 0, 0, 0;
      head, tail, nodes := null, null, [];
    }

    method SetSize(startPlaySize: int, maxBufferSize: int)
      requires Valid()
      modifies this`nStartPlaySize, this`nMaxBufferSize
      ensures Valid() && nStartPlaySize == startPlaySize && nMaxBufferSize == maxBufferSize
    {
      nMaxBufferSize := maxBufferSize;
      nStartPlaySize := startPlaySize;
    }

    method Underflow() returns (r: bool)
      requires Valid()
      ensures r <==> Contents() == []
    {
      r := !(nFrameNum > 0);
    }

    method Overflow() returns (r: bool)
      requires Valid()
      ensures r <==> TotalLength(Contents()) >= nMaxBufferSize
    {
      r := nTotalDataSize >= nMaxBufferSize;
    }

    method DataEnough() returns (r: bool)
      requires Valid()
      ensures r <==> TotalLength(Contents()) >= nStartPlaySize
    {
      r := nTotalDataSize >= nStartPlaySize;
    }

    method NextFrame() returns (node: CacheNode?)
      requires Valid()
      ensures node == null <==> Contents() == []
      ensures node != null ==> node.frame == Contents()[0]
    {
      node := head;
    }

    /** The frames after the first node are the rest of the frames, and the counters can
        follow. */
    static lemma FramesOfRest(nodes: seq<CacheNode>)
      requires nodes != []
      ensures Frames(nodes[1..]) == Frames(nodes)[1..] && Frames(nodes)[0] == nodes[0].frame
      ensures TotalLength(Frames(nodes)) == nodes[0].frame.nLength + TotalLength(Frames(nodes[1..]))
    {
      LengthOfRest(Frames(nodes));
    }

    static lemma FramesWith(nodes: seq<CacheNode>, node: CacheNode)
      ensures Frames(nodes + [node]) == Frames(nodes) + [node.frame]
      ensures TotalLength(Frames(nodes + [node])) == TotalLength(Frames(nodes)) + node.frame.nLength
    {
      assert Frames(nodes + [node]) == Frames(nodes) + [node.frame];
      LengthWith(Frames(nodes), node.frame);
    }

    method UnlinkHead(node: CacheNode)
      requires Linked() && head == node
      modifies this`head, this`tail, this`nodes
      ensures Linked() && old(nodes) != [] && nodes == old(nodes)[1..]
    {
      head := node.next;
      if head == null {
        tail := null;
      }
      nodes := nodes[1..];
    }

    /** Drops the oldest frame; on an empty cache it does nothing. */
    method FlushOneFrame()
      requires Valid()
      modifies this
      ensures Valid()
      ensures Contents() == if old(Contents()) == [] then [] else old(Contents())[1..]
      ensures nMaxBufferSize == old(nMaxBufferSize) && nStartPlaySize == old(nStartPlaySize)
    {
      var node := head;
      if node != null {
        FramesOfRest(nodes);
        UnlinkHead(node);
        nFrameNum := nFrameNum - 1;
        nTotalDataSize := nTotalDataSize - node.frame.nLength;
      }
    }

    method LinkTail(newNode: CacheNode)
      requires Linked() && newNode !in nodes && newNode.next == null
      modifies this`head, this`tail, this`nodes, nodes
      ensures Linked() && nodes == old(nodes) + [newNode]
    {
      if tail != null {
        tail.next := newNode;
        tail := tail.next;
      } else {
        tail := newNode;
        head := newNode;
      }
      nodes := nodes + [newNode];
    }

    /** Appends a copy of a frame behind the tail, unless there is no memory. */
    method AddOneFrame(frame: CacheFrame, hasMemory: bool) returns (ok: bool)
      requires Valid()
      modifies this, nodes
      ensures Valid() && ok == hasMemory
      ensures Contents() == if ok then old(Contents()) + [frame] else old(Contents())
      ensures nMaxBufferSize == old(nMaxBufferSize) && nStartPlaySize == old(nStartPlaySize)
    {
      if !hasMemory { return false; }
      var newNode := new CacheNode(frame);
      AddNode(newNode);
      return true;
    }

    method AddNode(node: CacheNode)
      requires Valid() && node !in nodes && node.next == null
      modifies this`head, this`tail, this`nodes, this`nTotalDataSize, this`nFrameNum, nodes
      ensures Valid() && Contents() == old(Contents()) + [node.frame]
    {
      FramesWith(nodes, node);
      LinkTail(node);
      nTotalDataSize := nTotalDataSize + node.frame.nLength;
      nFrameNum := nFrameNum + 1;
    }

    /** Walks the list to drop everything. */
    method FlushAll()
      requires Valid()
      modifies this
      ensures Valid() && Contents() == []
      ensures nMaxBufferSize == old(nMaxBufferSize) && nStartPlaySize == old(nStartPlaySize)
    {
      var node := head;
      ghost var k := 0;
      while node != null
        invariant 0 <= k <= |nodes| && nodes == old(nodes)
        invariant node == head == (if k == |nodes| then null else nodes[k])
        invariant forall i :: 0 <= i < |nodes| ==> nodes[i].next == After(nodes, i)
        invariant nMaxBufferSize == old(nMaxBufferSize) && nStartPlaySize == old(nStartPlaySize)
        decreases |nodes| - k
      {
        head := node.next;
        node := head;
        k := k + 1;
      }
      tail := null;
      nTotalDataSize := 0;
      nFrameNum := 0;
      nodes := [];
    }
  }
}
