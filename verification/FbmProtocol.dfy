/** The frame-buffer ownership protocol of the video decoder, as a function on values.

    A frame is passed between the decoder and the renderer through four flags and two
    queues. `Step` is one mutex-protected entry point; the lemmas speak about every run. */
module FbmProtocol {
  import opened Queues

  datatype Frame = Frame(usedByDecoder: bool, inValidQueue: bool, usedByRender: bool, alreadyDisplayed: bool)

  const FREE := Frame(false, false, false, false)

  /** Picture ids from here on name a frame without its picture. */
  const FORBID_USE_TAG := 0xff

  /** A `VideoPicture*` as a caller can pass it: null, the picture embedded in frame
      `index` with that id, or any picture whose id does not lead to its own address. */
  datatype Picture = Null | Own(index: nat) | Foreign(nID: int)

  datatype State = State(
    frames: seq<Frame>,
    empty: seq<nat>,
    valid: seq<nat>,
    nEmpty: int,
    nValid: int,
    nWaitForDisp: int,
    nDecoderHolding: int,
    nRenderHolding: int)

  /** `InvalidStatus` is the reply of the "invalid frame status" branches that follow a
      dequeue or a queue-membership flag; `Rejected` is the reply to a misdirected call. */
  datatype Reply = Handed(index: nat) | NoFrame | Done | Rejected | InvalidStatus

  datatype Op =
    | RequestBuffer
    | ReturnBuffer(picture: Picture, validPicture: bool)
    | ShareBuffer(picture: Picture)
    | RequestPicture
    | ReturnPicture(picture: Picture)
    | Flush

  /** The two queues are duplicate-free, disjoint and inside the frame table. */
  ghost predicate Separate(s: State) {
    && NoDup(s.empty) && NoDup(s.valid)
    && (forall p :: p in s.empty ==> p < |s.frames| && p !in s.valid)
    && (forall p :: p in s.valid ==> p < |s.frames|)
  }

  /** They also agree with the flags just enough that no operation can link a node twice: no
      frame on the empty queue is in anybody's hands, and those on the valid queue say so. */
  ghost predicate Linked(s: State) {
    && Separate(s)
    && (forall p :: p in s.empty ==> !s.frames[p].usedByDecoder && !s.frames[p].usedByRender)
    && (forall p :: p in s.valid ==> s.frames[p].inValidQueue)
  }

  function Init(n: nat): (s: State)
    ensures Linked(s)
  {
    State(seq(n, _ => FREE), seq(n, i => i), [], n, 0, 0, 0, 0)
  }

  // ---------------------------------------------------------------- operations

  /** The frame a call is about: the id must be in range and the address must match. */
  function Resolve(s: State, picture: Picture): (index: int)
    ensures -1 <= index < |s.frames|
  {
    if picture.Own? && picture.index < |s.frames| then picture.index else -1
  }

  function TakeBuffer(s: State): (State, Reply)
    requires Linked(s)
  {
    if s.empty == [] then (s, NoFrame)
    else
      var p := s.empty[0];
      assert p in s.empty;
      var s1 := s.(empty := s.empty[1..]);
      if s.frames[p] != FREE then (s1, InvalidStatus)
      else
        (s1.(frames := s.frames[p := FREE.(usedByDecoder := true)],
             nEmpty := s.nEmpty - 1,
             nDecoderHolding := s.nDecoderHolding + 1), Handed(p))
  }

  function GiveBackBuffer(s: State, picture: Picture, validPicture: bool): (State, Reply) {
    var p := Resolve(s, picture);
    if p == -1 || !s.frames[p].usedByDecoder then (s, Rejected)
    else
      var f := s.frames[p].(usedByDecoder := false);
      var s1 := s.(frames := s.frames[p := f]);
      if f.inValidQueue && (f.usedByRender || f.alreadyDisplayed) then (s1, InvalidStatus)
      else
        var s2 := if f.inValidQueue || f.usedByRender then s1 else Requeued(s1, p, f, validPicture);
        (s2.(nDecoderHolding := s.nDecoderHolding - 1), Done)
  }

  /** Where a returned frame goes when it is neither waiting for display nor on display:
      an already displayed one and a rejected one back to the empty queue, a valid one to
      the display queue. */
  function Requeued(s: State, p: nat, f: Frame, validPicture: bool): State
    requires p < |s.frames|
  {
    if f.alreadyDisplayed then
      s.(frames := s.frames[p := f.(alreadyDisplayed := false)], empty := s.empty + [p], nEmpty := s.nEmpty + 1)
    else if validPicture then
      s.(frames := s.frames[p := f.(inValidQueue := true)], valid := s.valid + [p],
         nValid := s.nValid + 1, nWaitForDisp := s.nWaitForDisp + 1)
    else
      s.(empty := s.empty + [p], nEmpty := s.nEmpty + 1)
  }

  function Share(s: State, picture: Picture): (State, Reply)
    requires Linked(s)
  {
    var p := Resolve(s, picture);
    if p == -1 || !s.frames[p].usedByDecoder || s.frames[p].inValidQueue || s.frames[p].alreadyDisplayed then
      (s, Rejected)
    else
      (s.(frames := s.frames[p := s.frames[p].(inValidQueue := true)], valid := s.valid + [p],
          nValid := s.nValid + 1, nWaitForDisp := s.nWaitForDisp + 1), Done)
  }

  function TakePicture(s: State): (State, Reply)
    requires Linked(s)
  {
    if s.valid == [] then (s, NoFrame)
    else
      var p := s.valid[0];
      assert p in s.valid;
      var s1 := s.(valid := s.valid[1..]);
      if !s.frames[p].inValidQueue || s.frames[p].usedByRender || s.frames[p].alreadyDisplayed then (s1, InvalidStatus)
      else
        (s1.(frames := s.frames[p := s.frames[p].(inValidQueue := false, usedByRender := true)],
             nValid := s.nValid - 1, nWaitForDisp := s.nWaitForDisp - 1,
             nRenderHolding := s.nRenderHolding + 1), Handed(p))
  }

  function PictureId(picture: Picture): int {
    match picture
    case Null => -1
    case Own(index) => index
    case Foreign(nID) => nID
  }

  /** The frame that the id of a returned picture names by the tag, or -1. The code takes
      such an id whenever it lies outside the frame table, without looking at the address. */
  function Tagged(s: State, picture: Picture): (index: int)
    ensures index >= -1
  {
    var id := PictureId(picture);
    if id >= |s.frames| && id >= FORBID_USE_TAG then id - FORBID_USE_TAG else -1
  }

  predicate Idle(f: Frame) {
    !f.usedByRender && !f.inValidQueue && !f.alreadyDisplayed
  }

  function GiveBackTagged(s: State, p: nat): (State, Reply)
    requires p < |s.frames|
  {
    if !Idle(s.frames[p]) then (s, Rejected)
    else (s.(empty := Relinked(s.empty, p), nEmpty := s.nEmpty + 1), Done)
  }

  function GiveBackOwn(s: State, p: int): (State, Reply)
    requires -1 <= p < |s.frames|
  {
    if p == -1 || !s.frames[p].usedByRender || s.frames[p].inValidQueue || s.frames[p].alreadyDisplayed then
      (s, Rejected)
    else
      var f := s.frames[p].(usedByRender := false);
      var s1 := s.(nRenderHolding := s.nRenderHolding - 1);
      if f.usedByDecoder then
        (s1.(frames := s.frames[p := f.(alreadyDisplayed := true)]), Done)
      else
        (s1.(frames := s.frames[p := f], empty := s.empty + [p], nEmpty := s.nEmpty + 1), Done)
  }

  function GiveBackPicture(s: State, picture: Picture): (State, Reply)
    requires Tagged(s, picture) < |s.frames|
  {
    if Tagged(s, picture) != -1 then GiveBackTagged(s, Tagged(s, picture)) else GiveBackOwn(s, Resolve(s, picture))
  }

  /** One pass of the flush loop on a non-empty valid queue. */
  function FlushOne(s: State): (State, Reply)
    requires Linked(s) && s.valid != []
  {
    var p := s.valid[0];
    assert p in s.valid;
    var s1 := s.(valid := s.valid[1..], nValid := s.nValid - 1);
    var f := s.frames[p].(inValidQueue := false);
    if f.usedByRender || f.alreadyDisplayed then (s1, InvalidStatus)
    else if !f.usedByDecoder then
      (s1.(frames := s.frames[p := f], empty := s.empty + [p], nEmpty := s.nEmpty + 1), Done)
    else
      (s1.(frames := s.frames[p := f.(alreadyDisplayed := true)]), Done)
  }

  function FlushQueue(s: State): (State, Reply)
    requires Linked(s)
    decreases |s.valid|
  {
    if s.valid == [] then (s, Done)
    else
      var (s1, reply) := FlushOne(s);
      FlushOneLinked(s);
      if reply == InvalidStatus then (s1, reply) else FlushQueue(s1)
  }

  /** The call stays inside the frame table; what the code does otherwise is undefined. */
  predicate Defined(s: State, op: Op) {
    op.ReturnPicture? ==> Tagged(s, op.picture) < |s.frames|
  }

  function Step(s: State, op: Op): (State, Reply)
    requires Linked(s) && Defined(s, op)
  {
    match op
    case RequestBuffer => TakeBuffer(s)
    case ReturnBuffer(picture, validPicture) => GiveBackBuffer(s, picture, validPicture)
    case ShareBuffer(picture) => Share(s, picture)
    case RequestPicture => TakePicture(s)
    case ReturnPicture(picture) => GiveBackPicture(s, picture)
    case Flush => FlushQueue(s)
  }

  // ---------------------------------------------------------------- queue structure

  lemma FlushOneLinked(s: State)
    requires Linked(s) && s.valid != []
    ensures Linked(FlushOne(s).0)
  {
    PopHead(s.valid);
    PushTail(s.empty, s.valid[0]);
  }

  lemma {:induction false} FlushQueueLinked(s: State)
    requires Linked(s)
    ensures Linked(FlushQueue(s).0) && |FlushQueue(s).0.frames| == |s.frames|
    decreases |s.valid|
  {
    if s.valid != [] {
      FlushOneLinked(s);
      if FlushOne(s).1 != InvalidStatus { FlushQueueLinked(FlushOne(s).0); }
    }
  }

  lemma TakeBufferKeepsQueuesLinked(s: State)
    requires Linked(s)
    ensures Linked(TakeBuffer(s).0) && |TakeBuffer(s).0.frames| == |s.frames|
  {
    if s.empty != [] { PopHead(s.empty); }
  }

  lemma TakePictureKeepsQueuesLinked(s: State)
    requires Linked(s)
    ensures Linked(TakePicture(s).0) && |TakePicture(s).0.frames| == |s.frames|
  {
    if s.valid != [] { PopHead(s.valid); }
  }

  lemma GiveBackBufferKeepsQueuesLinked(s: State, picture: Picture, validPicture: bool)
    requires Linked(s)
    ensures Linked(GiveBackBuffer(s, picture, validPicture).0)
  {
    var p := Resolve(s, picture);
    if p != -1 && s.frames[p].usedByDecoder && !s.frames[p].inValidQueue {
      PushTail(s.empty, p);
      PushTail(s.valid, p);
    }
  }

  lemma ShareKeepsQueuesLinked(s: State, picture: Picture)
    requires Linked(s)
    ensures Linked(Share(s, picture).0)
  {
    var p := Resolve(s, picture);
    if p != -1 && !s.frames[p].inValidQueue { PushTail(s.valid, p); }
  }

  /** A tagged return puts a frame on the empty queue that may be there already, or in the
      decoder's hands. */
  ghost predicate QueueRule(s: State, op: Op)
    requires Defined(s, op)
  {
    op.ReturnPicture? && Tagged(s, op.picture) != -1 ==>
      var f := s.frames[Tagged(s, op.picture)];
      !(Idle(f) && f.usedByDecoder)
  }

  lemma {:induction false} RelinkedNoDup(q: seq<nat>, p: nat)
    requires NoDup(q)
    ensures NoDup(Relinked(q, p)) && p in Relinked(q, p)
    ensures forall x :: x in Relinked(q, p) ==> x in q || x == p
  {
    var r := Relinked(q, p);
    assert r[|r| - 1] == p;
    if p !in q { PushTail(q, p); }
  }

  lemma GiveBackPictureKeepsQueuesLinked(s: State, picture: Picture)
    requires Linked(s) && Tagged(s, picture) < |s.frames|
    ensures Linked(GiveBackPicture(s, picture).0) <==> QueueRule(s, ReturnPicture(picture))
  {
    var p, t := Resolve(s, picture), Tagged(s, picture);
    if t != -1 {
      RelinkedNoDup(s.empty, t);
    } else if p != -1 && s.frames[p].usedByRender {
      PushTail(s.empty, p);
    }
  }

  lemma GiveBackPictureKeepsQueuesSeparate(s: State, picture: Picture)
    requires Linked(s) && Tagged(s, picture) < |s.frames|
    ensures Separate(GiveBackPicture(s, picture).0)
  {
    var t := Tagged(s, picture);
    if t != -1 {
      RelinkedNoDup(s.empty, t);
    } else {
      GiveBackPictureKeepsQueuesLinked(s, picture);
    }
  }

  /** From a linked state the queues stay duplicate-free, disjoint and inside the table
      whatever the next call is. */
  lemma StepKeepsQueuesSeparate(s: State, op: Op)
    requires Linked(s) && Defined(s, op)
    ensures Separate(Step(s, op).0) && |Step(s, op).0.frames| == |s.frames|
  {
    StepKeepsQueuesLinked(s, op);
    if op.ReturnPicture? { GiveBackPictureKeepsQueuesSeparate(s, op.picture); }
  }

  /** The next call leaves no frame on the empty queue that is in the decoder's hands, and so
      the one after it cannot link a node twice either, if and only if it is not a tagged
      return of a frame in the decoder's hands. */
  lemma StepKeepsQueuesLinked(s: State, op: Op)
    requires Linked(s) && Defined(s, op)
    ensures Linked(Step(s, op).0) <==> QueueRule(s, op)
    ensures |Step(s, op).0.frames| == |s.frames|
  {
    match op
    case RequestBuffer => TakeBufferKeepsQueuesLinked(s);
    case RequestPicture => TakePictureKeepsQueuesLinked(s);
    case Flush => FlushQueueLinked(s);
    case ReturnBuffer(picture, validPicture) => GiveBackBufferKeepsQueuesLinked(s, picture, validPicture);
    case ShareBuffer(picture) => ShareKeepsQueuesLinked(s, picture);
    case ReturnPicture(picture) => GiveBackPictureKeepsQueuesLinked(s, picture);
  }

  // ---------------------------------------------------------------- the ownership invariant

  /** The seven flag combinations a frame can be in. */
  ghost predicate Legal(f: Frame) {
    || f == FREE
    || f == Frame(true, false, false, false)   // being decoded
    || f == Frame(true, true, false, false)    // shared early, waiting for display
    || f == Frame(true, false, true, false)    // shared early, on display
    || f == Frame(true, false, false, true)    // shared early, display finished or discarded
    || f == Frame(false, true, false, false)   // decoded, waiting for display
    || f == Frame(false, false, true, false)   // decoded, on display
  }

  ghost function DecoderHeld(frames: seq<Frame>): set<nat> {
    set i: nat | i < |frames| && frames[i].usedByDecoder
  }

  ghost function RenderHeld(frames: seq<Frame>): set<nat> {
    set i: nat | i < |frames| && frames[i].usedByRender
  }

  ghost predicate Counted(s: State) {
    && s.nEmpty == |s.empty|
    && s.nValid == |s.valid|
    && s.nDecoderHolding == |DecoderHeld(s.frames)|
    && s.nRenderHolding == |RenderHeld(s.frames)|
  }

  ghost predicate Inv(s: State) {
    && Linked(s)
    && (forall i :: 0 <= i < |s.frames| ==> Legal(s.frames[i]))
    && (forall i :: 0 <= i < |s.frames| ==> (i in s.empty <==> s.frames[i] == FREE))
    && (forall i :: 0 <= i < |s.frames| ==> (i in s.valid <==> s.frames[i].inValidQueue))
    && Counted(s)
  }

  lemma InitInv(n: nat)
    ensures Inv(Init(n))
  {
    assert DecoderHeld(Init(n).frames) == {} && RenderHeld(Init(n).frames) == {};
    forall i | 0 <= i < n ensures i in Init(n).empty { assert Init(n).empty[i] == i; }
  }

  /** Writing one frame moves the two cardinalities by that frame's own flags. */
  lemma HeldAfterUpdate(frames: seq<Frame>, p: nat, f: Frame)
    requires p < |frames|
    ensures |DecoderHeld(frames[p := f])| ==
            |DecoderHeld(frames)| - (if frames[p].usedByDecoder then 1 else 0) + (if f.usedByDecoder then 1 else 0)
    ensures |RenderHeld(frames[p := f])| ==
            |RenderHeld(frames)| - (if frames[p].usedByRender then 1 else 0) + (if f.usedByRender then 1 else 0)
  {
    var d, d' := DecoderHeld(frames), DecoderHeld(frames[p := f]);
    assert d - {p} == d' - {p};
    CardinalWithout(d, p);
    CardinalWithout(d', p);
    var r, r' := RenderHeld(frames), RenderHeld(frames[p := f]);
    assert r - {p} == r' - {p};
    CardinalWithout(r, p);
    CardinalWithout(r', p);
  }

  /** The callers' side of the contract, which the code does not test: the decoder shares a
      held frame at most once, so never one that the renderer already has, and no picture is
      returned whose id names, by the tag, a frame outside the table or one with none of the
      three display flags. */
  ghost predicate CallerRule(s: State, op: Op) {
    && (op.ShareBuffer? && Resolve(s, op.picture) != -1 ==>
          var f := s.frames[Resolve(s, op.picture)];
          !(f.usedByDecoder && f.usedByRender))
    && (op.ReturnPicture? && Tagged(s, op.picture) != -1 ==>
          Tagged(s, op.picture) < |s.frames| && !Idle(s.frames[Tagged(s, op.picture)]))
  }

  function One(b: bool): int {
    if b then 1 else 0
  }

  /** Frame `p` gets new flags and the queues that they name; nothing else moves. */
  ghost predicate Moves(s: State, s': State, p: nat) {
    && p < |s.frames| == |s'.frames| && s'.frames == s.frames[p := s'.frames[p]]
    && NoDup(s'.empty) && NoDup(s'.valid)
    && (forall x :: x != p ==> (x in s'.empty <==> x in s.empty))
    && (forall x :: x != p ==> (x in s'.valid <==> x in s.valid))
    && (p in s'.empty <==> s'.frames[p] == FREE)
    && (p in s'.valid <==> s'.frames[p].inValidQueue)
  }

  ghost predicate CountsFollow(s: State, s': State, p: nat)
    requires p < |s.frames| == |s'.frames|
  {
    && s'.nEmpty == |s'.empty| && s'.nValid == |s'.valid|
    && s'.nDecoderHolding == s.nDecoderHolding - One(s.frames[p].usedByDecoder) + One(s'.frames[p].usedByDecoder)
    && s'.nRenderHolding == s.nRenderHolding - One(s.frames[p].usedByRender) + One(s'.frames[p].usedByRender)
  }

  lemma MoveKeepsInv(s: State, s': State, p: nat)
    requires Inv(s) && Moves(s, s', p) && Legal(s'.frames[p]) && CountsFollow(s, s', p)
    ensures Inv(s')
  {
    HeldAfterUpdate(s.frames, p, s'.frames[p]);
  }

  lemma FlushOneInv(s: State)
    requires Inv(s) && s.valid != []
    ensures FlushOne(s).1 == Done && Inv(FlushOne(s).0)
    ensures FlushOne(s).0.nWaitForDisp == s.nWaitForDisp
  {
    var p := s.valid[0];
    PopHead(s.valid);
    PushTail(s.empty, p);
    MoveKeepsInv(s, FlushOne(s).0, p);
  }

  lemma {:induction false} FlushQueueInv(s: State)
    requires Inv(s)
    ensures Inv(FlushQueue(s).0) && FlushQueue(s).1 == Done && FlushQueue(s).0.valid == []
    ensures FlushQueue(s).0.nWaitForDisp == s.nWaitForDisp
    decreases |s.valid|
  {
    if s.valid != [] {
      FlushOneInv(s);
      FlushQueueInv(FlushOne(s).0);
    }
  }

  lemma TakeBufferInv(s: State)
    requires Inv(s)
    ensures Inv(TakeBuffer(s).0) && TakeBuffer(s).1 != InvalidStatus
    ensures TakeBuffer(s).1.Handed? ==> s.frames[TakeBuffer(s).1.index] == FREE
  {
    if s.empty != [] {
      PopHead(s.empty);
      MoveKeepsInv(s, TakeBuffer(s).0, s.empty[0]);
    }
  }

  lemma TakePictureInv(s: State)
    requires Inv(s)
    ensures Inv(TakePicture(s).0) && TakePicture(s).1 != InvalidStatus
  {
    if s.valid != [] {
      PopHead(s.valid);
      MoveKeepsInv(s, TakePicture(s).0, s.valid[0]);
    }
  }

  lemma GiveBackBufferInv(s: State, picture: Picture, validPicture: bool)
    requires Inv(s)
    ensures Inv(GiveBackBuffer(s, picture, validPicture).0)
    ensures GiveBackBuffer(s, picture, validPicture).1 != InvalidStatus
  {
    var p := Resolve(s, picture);
    if p != -1 && s.frames[p].usedByDecoder {
      PushTail(s.empty, p);
      if !s.frames[p].inValidQueue { PushTail(s.valid, p); }
      MoveKeepsInv(s, GiveBackBuffer(s, picture, validPicture).0, p);
    }
  }

  /** A returned picture keeps the invariant exactly when its id is not a tagged one of a
      frame without display flags: such a frame would be queued twice, or while it is being
      decoded. */
  lemma GiveBackPictureInv(s: State, picture: Picture)
    requires Inv(s) && Tagged(s, picture) < |s.frames|
    ensures Inv(GiveBackPicture(s, picture).0) <==> CallerRule(s, ReturnPicture(picture))
    ensures GiveBackPicture(s, picture).1 != InvalidStatus
  {
    var p, t := Resolve(s, picture), Tagged(s, picture);
    if t != -1 {
      if Idle(s.frames[t]) { TaggedReturnBreaksInv(s, t); }
    } else {
      GiveBackOwnInv(s, p);
    }
  }

  lemma GiveBackOwnInv(s: State, p: int)
    requires Inv(s) && -1 <= p < |s.frames|
    ensures Inv(GiveBackOwn(s, p).0) && GiveBackOwn(s, p).1 != InvalidStatus
  {
    if p != -1 && s.frames[p].usedByRender {
      PushTail(s.empty, p);
      MoveKeepsInv(s, GiveBackOwn(s, p).0, p);
    }
  }

  lemma TaggedReturnBreaksInv(s: State, t: nat)
    requires Inv(s) && t < |s.frames| && Idle(s.frames[t])
    ensures !Inv(GiveBackTagged(s, t).0)
  {
    RelinkedNoDup(s.empty, t);
    assert s.frames[t].usedByDecoder || t in s.empty;
  }

  /** Sharing keeps the invariant exactly when the renderer does not hold the frame. */
  lemma ShareInv(s: State, picture: Picture)
    requires Inv(s)
    ensures Inv(Share(s, picture).0) <==> CallerRule(s, ShareBuffer(picture))
    ensures Share(s, picture).1 != InvalidStatus
  {
    var p := Resolve(s, picture);
    if p != -1 && s.frames[p].usedByDecoder && !s.frames[p].inValidQueue && !s.frames[p].alreadyDisplayed {
      var s' := Share(s, picture).0;
      PushTail(s.valid, p);
      if s.frames[p].usedByRender {
        assert !Legal(s'.frames[p]);
      } else {
        MoveKeepsInv(s, s', p);
      }
    }
  }

  /** Every entry point keeps the ownership invariant if and only if the caller respects the
      rule, and none of them ever meets an invalid frame status. */
  lemma StepKeepsInv(s: State, op: Op)
    requires Inv(s) && Defined(s, op)
    ensures Inv(Step(s, op).0) <==> CallerRule(s, op)
    ensures Step(s, op).1 != InvalidStatus
  {
    match op
    case RequestBuffer => TakeBufferInv(s);
    case ReturnBuffer(picture, validPicture) => GiveBackBufferInv(s, picture, validPicture);
    case ShareBuffer(picture) => ShareInv(s, picture);
    case RequestPicture => TakePictureInv(s);
    case ReturnPicture(picture) => GiveBackPictureInv(s, picture);
    case Flush => FlushQueueInv(s);
  }

  // ---------------------------------------------------------------- runs and their history

  /** How a picture left the valid queue: handed to the renderer or discarded by a flush. */
  datatype Exit = Exit(hold: int, delivered: bool)

  /** Each successful buffer request opens a new hold. `holdOf` is the latest hold of a
      frame, `entered` the holds in the order they entered the valid queue, `left` the
      holds in the order they left it. */
  datatype History = History(holdOf: seq<int>, holds: nat, entered: seq<int>, left: seq<Exit>)

  function NoHistory(n: nat): History {
    History(seq(n, _ => -1), 0, [], [])
  }

  /** The holds of the queued frames. */
  function HoldsOf(holdOf: seq<int>, queue: seq<nat>): (r: seq<int>)
    requires forall p :: p in queue ==> p < |holdOf|
    ensures |r| == |queue|
  {
    seq(|queue|, i requires 0 <= i < |queue| => assert queue[i] in queue; holdOf[queue[i]])
  }

  function Exits(holds: seq<int>, delivered: bool): (r: seq<Exit>) {
    seq(|holds|, i requires 0 <= i < |holds| => Exit(holds[i], delivered))
  }

  function ExitHolds(left: seq<Exit>): (r: seq<int>)
    ensures |r| == |left|
  {
    seq(|left|, i requires 0 <= i < |left| => left[i].hold)
  }

  function Discarded(left: seq<Exit>): nat {
    if left == [] then 0 else Discarded(left[..|left| - 1]) + if left[|left| - 1].delivered then 0 else 1
  }

  function Record(s: State, h: History, op: Op): (h': History)
    requires Linked(s) && Defined(s, op) && |h.holdOf| == |s.frames|
  {
    var (s', reply) := Step(s, op);
    match op
    case RequestBuffer =>
      if reply.Handed? && reply.index < |s.frames|
      then h.(holdOf := h.holdOf[reply.index := h.holds], holds := h.holds + 1)
      else h
    case ReturnBuffer(picture, _) =>
      if |s'.valid| > |s.valid| && Resolve(s, picture) != -1
      then h.(entered := h.entered + [h.holdOf[Resolve(s, picture)]])
      else h
    case ShareBuffer(picture) =>
      if |s'.valid| > |s.valid| && Resolve(s, picture) != -1
      then h.(entered := h.entered + [h.holdOf[Resolve(s, picture)]])
      else h
    case RequestPicture =>
      if reply.Handed? && reply.index < |s.frames| then h.(left := h.left + [Exit(h.holdOf[reply.index], true)]) else h
    case ReturnPicture(_) => h
    case Flush => h.(left := h.left + Exits(HoldsOf(h.holdOf, s.valid), false))
  }

  /** The record fits the state: entered holds are the holds that left, then the queued ones;
      none entered twice; a frame under decoding has a hold of its own that has not entered. */
  ghost predicate Recorded(s: State, h: History) {
    && |h.holdOf| == |s.frames|
    && (forall p :: p in s.valid ==> p < |h.holdOf|)
    && h.entered == ExitHolds(h.left) + HoldsOf(h.holdOf, s.valid)
    && NoDup(h.entered)
    && (forall e :: e in h.entered ==> e < h.holds)
    && (forall i :: 0 <= i < |h.holdOf| ==> h.holdOf[i] < h.holds)
    && (forall i, j :: 0 <= i < j < |s.frames| && s.frames[i].usedByDecoder && s.frames[j].usedByDecoder ==>
          h.holdOf[i] != h.holdOf[j])
    && (forall i :: 0 <= i < |s.frames| && s.frames[i] == Frame(true, false, false, false) ==>
          h.holdOf[i] !in h.entered)
    && s.nWaitForDisp == s.nValid + Discarded(h.left)
  }

  ghost predicate HistoryInv(s: State, h: History) {
    Inv(s) && Recorded(s, h)
  }

  lemma InitHistoryInv(n: nat)
    ensures HistoryInv(Init(n), NoHistory(n))
  {
    InitInv(n);
  }

  lemma {:induction false} DiscardedAppend(left: seq<Exit>, more: seq<Exit>, delivered: bool)
    requires forall i :: 0 <= i < |more| ==> more[i].delivered == delivered
    ensures Discarded(left + more) == Discarded(left) + if delivered then 0 else |more|
  {
    if more == [] {
      assert left + more == left;
    } else {
      var init := more[..|more| - 1];
      DiscardedAppend(left, init, delivered);
      assert (left + more)[..|left + more| - 1] == left + init;
    }
  }

  /** A frame under decoding enters the valid queue. */
  lemma EnterKeepsRecord(s: State, h: History, s': State, p: nat)
    requires Recorded(s, h) && p < |s.frames| && s.frames[p] == Frame(true, false, false, false)
    requires |s'.frames| == |s.frames| && s'.frames == s.frames[p := s'.frames[p]] && s'.frames[p].inValidQueue
    requires s'.valid == s.valid + [p] && s'.nValid - s.nValid == s'.nWaitForDisp - s.nWaitForDisp
    ensures Recorded(s', h.(entered := h.entered + [h.holdOf[p]]))
  {
    assert HoldsOf(h.holdOf, s.valid + [p]) == HoldsOf(h.holdOf, s.valid) + [h.holdOf[p]];
    forall i | 0 <= i < |s'.frames| && s'.frames[i] == Frame(true, false, false, false)
      ensures h.holdOf[i] !in h.entered + [h.holdOf[p]]
    {
      assert i != p && s'.frames[i] == s.frames[i];
      assert h.holdOf[i] != h.holdOf[p];
    }
  }

  lemma EnterKeepsHistory(s: State, h: History, op: Op, p: nat)
    requires HistoryInv(s, h) && CallerRule(s, op)
    requires op.ReturnBuffer? || op.ShareBuffer?
    requires p == Resolve(s, op.picture)
    requires Step(s, op).0.valid == s.valid + [p]
    ensures HistoryInv(Step(s, op).0, Record(s, h, op))
  {
    StepKeepsInv(s, op);
    EnterKeepsRecord(s, h, Step(s, op).0, p);
  }

  lemma TakeBufferKeepsHistory(s: State, h: History)
    requires HistoryInv(s, h)
    ensures HistoryInv(Step(s, RequestBuffer).0, Record(s, h, RequestBuffer))
  {
    TakeBufferInv(s);
    var s', h' := Step(s, RequestBuffer).0, Record(s, h, RequestBuffer);
    if s.empty != [] {
      var p := s.empty[0];
      assert p in s.empty;
      assert forall k :: 0 <= k < |s.valid| ==> s.valid[k] in s.valid && s.valid[k] != p;
      assert HoldsOf(h'.holdOf, s'.valid) == HoldsOf(h.holdOf, s.valid);
    }
  }

  /** Pictures leave the front of the valid queue: the rest of the history is as it was. */
  lemma LeaveKeepsHistory(s: State, h: History, s': State, exits: seq<Exit>)
    requires Recorded(s, h) && |s'.frames| == |s.frames| && forall p :: p in s'.valid ==> p < |h.holdOf|
    requires HoldsOf(h.holdOf, s.valid) == ExitHolds(exits) + HoldsOf(h.holdOf, s'.valid)
    requires forall i :: 0 <= i < |s.frames| && s'.frames[i].usedByDecoder ==> s.frames[i].usedByDecoder
    requires forall i :: 0 <= i < |s.frames| && s'.frames[i] == Frame(true, false, false, false) ==>
               s.frames[i] == s'.frames[i]
    requires s'.nWaitForDisp == s'.nValid + Discarded(h.left + exits)
    ensures Recorded(s', h.(left := h.left + exits))
  {
    assert ExitHolds(h.left + exits) == ExitHolds(h.left) + ExitHolds(exits);
  }

  lemma HoldsOfRest(holdOf: seq<int>, queue: seq<nat>, rest: seq<nat>, e: Exit)
    requires queue != [] && rest == queue[1..] && (forall p :: p in queue ==> p < |holdOf|)
    requires (forall p :: p in rest ==> p < |holdOf|) && queue[0] in queue && e.hold == holdOf[queue[0]]
    ensures HoldsOf(holdOf, queue) == ExitHolds([e]) + HoldsOf(holdOf, rest)
  {
  }

  lemma TakePictureKeepsHistory(s: State, h: History)
    requires HistoryInv(s, h)
    ensures HistoryInv(Step(s, RequestPicture).0, Record(s, h, RequestPicture))
  {
    TakePictureInv(s);
    if s.valid != [] {
      assert s.valid[0] in s.valid;
      var e := Exit(h.holdOf[s.valid[0]], true);
      DiscardedAppend(h.left, [e], true);
      HoldsOfRest(h.holdOf, s.valid, TakePicture(s).0.valid, e);
      LeaveKeepsHistory(s, h, TakePicture(s).0, [e]);
    }
  }

  lemma FlushOneFrames(s: State, p: nat)
    requires Inv(s) && s.valid != [] && p == s.valid[0]
    ensures p < |s.frames| && s.frames[p].inValidQueue
    ensures FlushOne(s).0.frames ==
            s.frames[p := if s.frames[p].usedByDecoder then Frame(true, false, false, true) else FREE]
  {
    assert p in s.valid;
  }

  lemma {:induction false} FlushFrames(s: State)
    requires Inv(s)
    ensures |FlushQueue(s).0.frames| == |s.frames|
    ensures forall i :: 0 <= i < |s.frames| ==>
              FlushQueue(s).0.frames[i] ==
              if !s.frames[i].inValidQueue then s.frames[i]
              else if s.frames[i].usedByDecoder then Frame(true, false, false, true)
              else FREE
    ensures FlushQueue(s).0.nValid == 0
    decreases |s.valid|
  {
    if s.valid != [] {
      FlushOneInv(s);
      FlushOneFrames(s, s.valid[0]);
      FlushFrames(FlushOne(s).0);
    }
  }

  /** A flush takes no frame from the decoder and leaves a frame under decoding alone. */
  lemma FlushLeavesDecoding(s: State, s': State)
    requires Inv(s) && s' == FlushQueue(s).0
    ensures Inv(s') && |s'.frames| == |s.frames| && s'.valid == [] && s'.nWaitForDisp == s.nWaitForDisp
    ensures forall i :: 0 <= i < |s.frames| && s'.frames[i].usedByDecoder ==> s.frames[i].usedByDecoder
    ensures forall i :: 0 <= i < |s.frames| && s'.frames[i] == Frame(true, false, false, false) ==>
              s.frames[i] == s'.frames[i]
  {
    FlushQueueInv(s);
    FlushFrames(s);
  }

  lemma ExitsOfHolds(holds: seq<int>, none: seq<int>, exits: seq<Exit>)
    requires exits == Exits(holds, false) && none == []
    ensures holds == ExitHolds(exits) + none
  {
  }

  lemma FlushKeepsHistory(s: State, h: History, s': State, exits: seq<Exit>)
    requires HistoryInv(s, h) && s' == FlushQueue(s).0 && exits == Exits(HoldsOf(h.holdOf, s.valid), false)
    ensures HistoryInv(s', h.(left := h.left + exits))
  {
    FlushLeavesDecoding(s, s');
    DiscardedAppend(h.left, exits, false);
    ExitsOfHolds(HoldsOf(h.holdOf, s.valid), HoldsOf(h.holdOf, s'.valid), exits);
    LeaveKeepsHistory(s, h, s', exits);
  }

  /** A step that leaves the valid queue alone and starts no decoding. */
  ghost predicate LeavesRecord(s: State, s': State) {
    && |s'.frames| == |s.frames| && s'.valid == s.valid && s'.nValid == s.nValid && s'.nWaitForDisp == s.nWaitForDisp
    && (forall i :: 0 <= i < |s.frames| && s'.frames[i].usedByDecoder ==> s.frames[i].usedByDecoder)
    && (forall i :: 0 <= i < |s.frames| && s'.frames[i] == Frame(true, false, false, false) ==>
          s.frames[i] == s'.frames[i])
  }

  lemma QuietKeepsRecord(s: State, h: History, s': State)
    requires Recorded(s, h) && LeavesRecord(s, s')
    ensures Recorded(s', h)
  {
  }

  lemma GiveBackPictureKeepsHistory(s: State, h: History, picture: Picture)
    requires HistoryInv(s, h) && CallerRule(s, ReturnPicture(picture))
    ensures HistoryInv(GiveBackPicture(s, picture).0, h)
  {
    GiveBackPictureInv(s, picture);
    QuietKeepsRecord(s, h, GiveBackPicture(s, picture).0);
  }

  /** A return that does not queue the frame: it only ends the hold. */
  lemma GiveBackBufferKeepsHistory(s: State, h: History, picture: Picture, validPicture: bool)
    requires HistoryInv(s, h)
    requires GiveBackBuffer(s, picture, validPicture).0.valid == s.valid
    ensures HistoryInv(GiveBackBuffer(s, picture, validPicture).0, h)
  {
    GiveBackBufferInv(s, picture, validPicture);
    GiveBackBufferLeavesRecord(s, picture, validPicture);
    QuietKeepsRecord(s, h, GiveBackBuffer(s, picture, validPicture).0);
  }

  lemma GiveBackBufferLeavesRecord(s: State, picture: Picture, validPicture: bool)
    requires GiveBackBuffer(s, picture, validPicture).0.valid == s.valid
    ensures LeavesRecord(s, GiveBackBuffer(s, picture, validPicture).0)
  {
    var p := Resolve(s, picture);
    if p != -1 { assert s.valid + [p] != s.valid; }
  }

  lemma StepKeepsHistory(s: State, h: History, op: Op)
    requires HistoryInv(s, h) && CallerRule(s, op)
    ensures HistoryInv(Step(s, op).0, Record(s, h, op))
  {
    match op
    case RequestBuffer => TakeBufferKeepsHistory(s, h);
    case RequestPicture => TakePictureKeepsHistory(s, h);
    case Flush => FlushKeepsHistory(s, h, FlushQueue(s).0, Exits(HoldsOf(h.holdOf, s.valid), false));
    case ReturnPicture(picture) => GiveBackPictureKeepsHistory(s, h, picture);
    case ReturnBuffer(picture, validPicture) =>
      if |Step(s, op).0.valid| > |s.valid| { EnterKeepsHistory(s, h, op, Resolve(s, picture)); }
      else { GiveBackBufferKeepsHistory(s, h, picture, validPicture); }
    case ShareBuffer(picture) =>
      if |Step(s, op).0.valid| > |s.valid| { EnterKeepsHistory(s, h, op, Resolve(s, picture)); }
  }

  /** The callers keep the rule throughout. */
  ghost predicate Disciplined(s: State, ops: seq<Op>)
    requires Linked(s)
    decreases |ops|
  {
    ops != [] ==>
      CallerRule(s, ops[0]) && (StepKeepsQueuesLinked(s, ops[0]); Disciplined(Step(s, ops[0]).0, ops[1..]))
  }

  /** The state and history after a run. */
  ghost function Run(s: State, h: History, ops: seq<Op>): (r: (State, History))
    requires Linked(s) && |h.holdOf| == |s.frames| && Disciplined(s, ops)
    ensures Linked(r.0) && |r.1.holdOf| == |r.0.frames| == |s.frames|
    decreases |ops|
  {
    if ops == [] then (s, h)
    else
      StepKeepsQueuesLinked(s, ops[0]);
      Run(Step(s, ops[0]).0, Record(s, h, ops[0]), ops[1..])
  }

  lemma {:induction false} RunKeepsHistory(s: State, h: History, ops: seq<Op>)
    requires HistoryInv(s, h) && Disciplined(s, ops)
    ensures HistoryInv(Run(s, h, ops).0, Run(s, h, ops).1)
    decreases |ops|
  {
    if ops != [] {
      StepKeepsHistory(s, h, ops[0]);
      RunKeepsHistory(Step(s, ops[0]).0, Record(s, h, ops[0]), ops[1..]);
    }
  }

  /** Main result on ownership: after every disciplined run, each frame is in one of the
      seven legal states, lies in the queue its flags name and in no other, the counters
      are the true cardinalities, and the next call meets no invalid status. */
  lemma OwnershipInEveryRun(n: nat, ops: seq<Op>, next: Op)
    requires Disciplined(Init(n), ops)
    ensures Inv(Run(Init(n), NoHistory(n), ops).0)
    ensures Defined(Run(Init(n), NoHistory(n), ops).0, next) ==>
              Step(Run(Init(n), NoHistory(n), ops).0, next).1 != InvalidStatus
  {
    InitHistoryInv(n);
    RunKeepsHistory(Init(n), NoHistory(n), ops);
    var s := Run(Init(n), NoHistory(n), ops).0;
    if Defined(s, next) { StepKeepsInv(s, next); }
  }

  /** Main result on delivery: holds leave the valid queue in the order they entered it,
      what has not left is exactly what is queued, no hold enters or leaves twice (so none
      is delivered twice), and the wait-for-display counter exceeds the number of queued
      pictures by exactly the number of pictures that flushes discarded. */
  lemma DeliveryInEveryRun(n: nat, ops: seq<Op>, s: State, h: History)
    requires Disciplined(Init(n), ops) && (s, h) == Run(Init(n), NoHistory(n), ops)
    ensures forall p :: p in s.valid ==> p < |h.holdOf|
    ensures h.entered == ExitHolds(h.left) + HoldsOf(h.holdOf, s.valid)
    ensures forall i, j :: 0 <= i < j < |h.left| ==> h.left[i].hold != h.left[j].hold
    ensures s.nWaitForDisp == |s.valid| + Discarded(h.left)
  {
    InitHistoryInv(n);
    RunKeepsHistory(Init(n), NoHistory(n), ops);
    forall i, j | 0 <= i < j < |h.left| ensures h.left[i].hold != h.left[j].hold {
      assert h.entered[i] == h.left[i].hold && h.entered[j] == h.left[j].hold;
    }
  }

  /** Why the sharing rule is needed: a frame shared again while it is on display is taken
      off the valid queue by the next picture request, which then finds its status invalid
      and hands out nothing, so the frame is in no queue although its flags say it is. */
  lemma SharingAgainLosesTheFrame(s: State, p: nat)
    requires Inv(s) && s.valid == [] && p < |s.frames|
    requires s.frames[p].usedByDecoder && s.frames[p].usedByRender
    ensures Linked(Share(s, Own(p)).0)
    ensures
      var (s', reply) := TakePicture(Share(s, Own(p)).0);
      reply == InvalidStatus && p !in s'.empty && p !in s'.valid && s'.frames[p].inValidQueue
  {
    ShareKeepsQueuesLinked(s, Own(p));
    var s1 := Share(s, Own(p)).0;
    assert s1.valid == [p];
  }

  /** One frame: being decoded, shared early, and on display. */
  const DECODING := State([Frame(true, false, false, false)], [], [], 0, 0, 0, 1, 0)
  const SHARED := State([Frame(true, true, false, false)], [], [0], 0, 1, 1, 1, 0)
  const SHOWN := State([Frame(true, false, true, false)], [], [], 0, 0, 0, 1, 1)

  lemma FirstFrameDecoded()
    ensures Step(Init(1), RequestBuffer) == (DECODING, Handed(0))
  {
    assert Init(1).frames == [FREE] && Init(1).empty == [0];
    assert [0][1..] == [] && [FREE][0 := DECODING.frames[0]] == DECODING.frames;
  }

  lemma FirstFrameShown()
    ensures Linked(DECODING) && Step(DECODING, ShareBuffer(Own(0))) == (SHARED, Done)
    ensures Linked(SHARED) && Step(SHARED, RequestPicture) == (SHOWN, Handed(0))
  {
    assert DECODING.frames[0 := SHARED.frames[0]] == SHARED.frames && DECODING.valid + [0] == [0];
    assert [0][1..] == [] && SHARED.frames[0 := SHOWN.frames[0]] == SHOWN.frames;
  }

  /** Such a state is reached by callers that keep the rule: the decoder requests the only
      frame and shares it early, and the renderer requests the picture. */
  lemma SharedFrameOnDisplay(ops: seq<Op>)
    requires ops == [RequestBuffer, ShareBuffer(Own(0)), RequestPicture]
    ensures Disciplined(Init(1), ops)
    ensures
      var s := Run(Init(1), NoHistory(1), ops).0;
      && s.valid == [] && s.frames[0].usedByDecoder && s.frames[0].usedByRender
      && !CallerRule(s, ShareBuffer(Own(0)))
  {
    FirstFrameDecoded();
    FirstFrameShown();
    assert ops[1..] == [ShareBuffer(Own(0)), RequestPicture];
    assert ops[1..][1..] == [RequestPicture] && ops[1..][1..][1..] == [];
    assert Disciplined(SHARED, ops[1..][1..]) && Disciplined(DECODING, ops[1..]);
    var h := Record(Init(1), NoHistory(1), RequestBuffer);
    var h' := Record(DECODING, h, ShareBuffer(Own(0)));
    assert Run(Init(1), NoHistory(1), ops) == Run(DECODING, h, ops[1..]);
    assert Run(DECODING, h, ops[1..]) == Run(SHARED, h', ops[1..][1..]);
    assert Run(SHARED, h', ops[1..][1..]) == Run(SHOWN, Record(SHARED, h', RequestPicture), []);
  }

  lemma {:induction false} RelinkedAt(q: seq<nat>, k: nat)
    requires NoDup(q) && k < |q|
    ensures Relinked(q, q[k]) == q[..k + 1]
  {
    var r := Relinked(q, q[k]);
    assert q[k] in q && r == q[..|r|] && q[|r| - 1] == q[k];
  }

  /** Why the rule for returned pictures is needed: a tagged id of a frame on the empty queue
      cuts the queue short behind that frame. The frames behind it are in no queue although
      they are free, and the counter says there is one more. */
  lemma TaggedReturnLosesFrames(s: State, k: nat, op: Op)
    requires Inv(s) && k < |s.empty| && s.empty[k] + FORBID_USE_TAG >= |s.frames|
    requires op == ReturnPicture(Foreign(s.empty[k] + FORBID_USE_TAG))
    ensures Defined(s, op) && !CallerRule(s, op)
    ensures Step(s, op).0 == s.(empty := s.empty[..k + 1], nEmpty := s.nEmpty + 1)
    ensures forall i :: k < i < |s.empty| ==> Lost(Step(s, op).0, s.empty[i])
  {
    RelinkedAt(s.empty, k);
    assert s.empty[k] in s.empty;
    forall i | k < i < |s.empty| ensures Lost(Step(s, op).0, s.empty[i]) {
      assert s.empty[i] in s.empty;
    }
  }

  /** A free frame that is in no queue. */
  ghost predicate Lost(s: State, p: nat) {
    p < |s.frames| && s.frames[p] == FREE && p !in s.empty && p !in s.valid
  }

  /** Why the queue rule is needed: one frame, requested by the decoder, and a return of the
      id 255. The frame is then on the empty queue while the decoder holds it, and when the
      decoder returns it as a valid picture it is on both queues. */
  lemma TaggedReturnLinksTwice()
    ensures Step(Init(1), RequestBuffer).0 == DECODING && Linked(DECODING)
    ensures !QueueRule(DECODING, ReturnPicture(Foreign(255)))
    ensures
      var s := Step(DECODING, ReturnPicture(Foreign(255))).0;
      && s.empty == [0] && s.frames[0].usedByDecoder && !Linked(s)
      && var s' := GiveBackBuffer(s, Own(0), true).0;
         0 in s'.empty && 0 in s'.valid && !Separate(s')
  {
    FirstFrameDecoded();
    FirstFrameShown();
    var s := Step(DECODING, ReturnPicture(Foreign(255))).0;
    assert s == DECODING.(empty := [0], nEmpty := 1);
    assert 0 in s.empty;
    var s' := GiveBackBuffer(s, Own(0), true).0;
    assert s'.empty[0] == 0 && s'.valid[0] == 0;
  }

  /** The smallest case: two free frames and the id 255. */
  lemma TaggedReturnOfAFreshManager()
    ensures
      var (s', reply) := Step(Init(2), ReturnPicture(Foreign(255)));
      reply == Done && s'.empty == [0] && s'.nEmpty == 3 && s'.frames[1] == FREE
  {
    InitInv(2);
    assert Init(2).empty == [0, 1];
    TaggedReturnLosesFrames(Init(2), 0, ReturnPicture(Foreign(255)));
  }
}
