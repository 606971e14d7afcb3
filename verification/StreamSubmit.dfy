/** Requesting and submitting stream data: the producer asks for room, writes into the one
    or two segments it is given, and submits the part; parts are assembled into frames
    behind the ring's data. */
module StreamSubmit {
  import opened StreamRing

  const NO_PTS := -1

  const CLEARED := StreamInfo(0, 0, NO_PTS, NO_PTS, false, false, false, 0)

  /** `granted` is the size of the producer's outstanding request, or -1. */
  datatype Feed = Feed(ring: Ring, partial: StreamInfo, granted: int)

  datatype Segments = NoRoom | Segments(buf: int, bufSize: int, ringBuf: int, ringBufSize: int)

  /** A range of addresses, as passed to the cache flush. */
  datatype Range = Range(start: int, length: int)

  function Opened(base: int, size: int): Feed {
    Feed(Created(base, size), CLEARED, -1)
  }

  // ---------------------------------------------------------------- operations

  /** Room for `n` bytes behind the partial frame; an empty request still gets four bytes. */
  function Asked(n: nat): nat {
    if n == 0 then 4 else n
  }

  function Request(f: Feed, n: nat): (Feed, Segments) {
    var r := f.ring;
    if !CanRequest(r, Asked(n) + f.partial.nLength) then (f, NoRoom)
    else
      var start := Around(r, r.write, f.partial.nLength);
      var end := r.base + r.size;
      (f.(granted := Asked(n)),
       if start + Asked(n) <= end then Segments(start, Asked(n), 0, 0)
       else Segments(start, end - start, r.base, Asked(n) - (end - start)))
  }

  /** What is flushed from the CPU cache for a frame: one range, or two when it wraps. */
  function FlushRanges(r: Ring, info: StreamInfo): seq<Range> {
    var end := r.base + r.size;
    if info.pData + info.nLength <= end then [Range(info.pData, info.nLength)]
    else [Range(info.pData, end - info.pData), Range(r.base, info.nLength - (end - info.pData))]
  }

  /** The partial record after `SbmAddStream` looked at it. */
  function MarkedValid(r: Ring, info: StreamInfo): StreamInfo {
    if CanAdd(r, info) then info.(bValid := true) else info
  }

  /** A first part: an unfinished frame before it is added as it is. */
  function Begun(f: Feed, info: StreamInfo): (Feed, seq<Range>) {
    var unfinished := f.partial.nLength != 0;
    var ring := if unfinished then Add(f.ring, f.partial) else f.ring;
    var before := if unfinished then MarkedValid(f.ring, f.partial) else f.partial;
    (f.(ring := ring,
        partial := before.(pData := info.pData, nLength := info.nLength, nPts := info.nPts, nPcr := info.nPcr,
                        bIsFirstPart := true, bIsLastPart := false, videoInfo := info.videoInfo)),
     if unfinished then FlushRanges(f.ring, f.partial) else [])
  }

  /** A further part: it adds its bytes, and its time stamp if there was none. */
  function Continued(f: Feed, info: StreamInfo): Feed {
    f.(partial := f.partial.(
         nLength := f.partial.nLength + info.nLength,
         nPts := if f.partial.nPts == NO_PTS && info.nPts != NO_PTS then info.nPts else f.partial.nPts))
  }

  /** The last part completes the frame. */
  function Completed(f: Feed): (Feed, seq<Range>) {
    (f.(ring := Add(f.ring, f.partial), partial := CLEARED.(bValid := MarkedValid(f.ring, f.partial).bValid)),
     if f.partial.pData != 0 && f.partial.nLength != 0 then FlushRanges(f.ring, f.partial) else [])
  }

  function Accepted(f: Feed, info: StreamInfo): (Feed, seq<Range>) {
    if info.bIsFirstPart then Begun(f, info) else (Continued(f, info), [])
  }

  function Submit(f: Feed, info: StreamInfo): (Feed, seq<Range>) {
    var (f1, ranges1) := Accepted(f, info);
    var (f2, ranges2) := if info.bIsLastPart then Completed(f1) else (f1, []);
    (f2.(granted := -1), ranges1 + ranges2)
  }

  function ResetFeed(f: Feed): Feed {
    Feed(Reset(f.ring), CLEARED.(nPts := 0, nPcr := 0), -1)
  }

  // ---------------------------------------------------------------- the invariant

  /** The frames tile the ring, the partial frame starts at the write address, and there is
      room for it and for an outstanding request, with a margin to spare. */
  ghost predicate FeedInv(f: Feed) {
    && Tiled(f.ring)
    && (f.partial.pData == 0 ==> f.partial.nLength == 0)
    && (f.partial.pData != 0 ==> f.partial.pData == f.ring.write)
    && f.granted >= -1
    && (f.granted >= 0 ==> |f.ring.frames| < MAX_FRAMES)
    && Used(f) <= f.ring.size
    && (Used(f) == 0 || Used(f) + MARGIN <= f.ring.size)
  }

  function Used(f: Feed): int {
    f.ring.dataSize + f.partial.nLength + if f.granted >= 0 then f.granted else 0
  }

  /** The producer's side: it submits once per request, no more than it asked for, starts a
      frame at the address it was given, and only continues a frame that was started. */
  ghost predicate ProducerRule(f: Feed, info: StreamInfo) {
    && f.granted >= 0 && info.nLength <= f.granted
    && (info.bIsFirstPart ==> info.pData == Around(f.ring, f.ring.write, f.partial.nLength))
    && (!info.bIsFirstPart ==> f.partial.pData != 0)
  }

  lemma RequestKeepsInv(f: Feed, n: nat)
    requires FeedInv(f)
    ensures FeedInv(Request(f, n).0)
  {
  }

  lemma BegunInv(f: Feed, info: StreamInfo)
    requires FeedInv(f) && ProducerRule(f, info) && info.bIsFirstPart
    ensures
      var f' := Begun(f, info).0;
      && Tiled(f'.ring) && f'.partial.pData == f'.ring.write
      && f'.ring.dataSize + f'.partial.nLength == f.ring.dataSize + f.partial.nLength + info.nLength
      && f'.ring.base == f.ring.base && f'.ring.size == f.ring.size
  {
    if f.partial.nLength != 0 { AddKeepsTiling(f.ring, f.partial); }
  }

  lemma CompletedInv(f: Feed)
    requires Tiled(f.ring) && f.partial.pData == f.ring.write && f.ring.dataSize + f.partial.nLength <= f.ring.size
    ensures
      var f' := Completed(f).0;
      && Tiled(f'.ring) && f'.ring.dataSize <= f.ring.dataSize + f.partial.nLength
      && f'.ring.base == f.ring.base && f'.ring.size == f.ring.size
      && f'.partial.pData == 0 && f'.partial.nLength == 0
  {
    AddKeepsTiling(f.ring, f.partial);
  }

  /** Submitting keeps the invariant even when the FIFO is too full for two frames. */
  lemma SubmitKeepsInv(f: Feed, info: StreamInfo)
    requires FeedInv(f) && ProducerRule(f, info)
    ensures FeedInv(Submit(f, info).0)
  {
    var f1 := if info.bIsFirstPart then Begun(f, info).0 else Continued(f, info);
    if info.bIsFirstPart { BegunInv(f, info); }
    if info.bIsLastPart { CompletedInv(f1); }
  }

  lemma ConsumerKeepsInv(f: Feed, slot: int)
    requires FeedInv(f) && (f.ring.frames == [] || f.ring.unread < |f.ring.frames|)
    ensures FeedInv(f.(ring := Flush(f.ring, slot).0)) && FeedInv(f.(ring := PutBack(f.ring, slot).0))
  {
    ConsumerKeepsTiling(f.ring, slot);
  }

  lemma TakeKeepsInv(f: Feed)
    requires FeedInv(f)
    ensures FeedInv(f.(ring := Take(f.ring).0))
  {
    ConsumerKeepsTiling(f.ring, 0);
  }

  // ---------------------------------------------------------------- bytes

  /** Byte `a` belongs to the `length` bytes that start at `start` on the ring. */
  ghost predicate OnRing(r: Ring, start: int, length: int, a: int) {
    exists k :: 0 <= k < length && a == Around(r, start, k)
  }

  ghost predicate InRange(range: Range, a: int) {
    range.start <= a < range.start + range.length
  }

  ghost predicate InSegments(s: Segments, a: int) {
    s.Segments? && (InRange(Range(s.buf, s.bufSize), a) || InRange(Range(s.ringBuf, s.ringBufSize), a))
  }

  ghost predicate Flushed(ranges: seq<Range>, a: int) {
    exists i :: 0 <= i < |ranges| && InRange(ranges[i], a)
  }

  /** The ranges flushed for a frame are exactly its bytes on the ring. */
  lemma FlushRangesAreTheFrame(r: Ring, info: StreamInfo, a: int)
    requires Sound(r) && r.base <= info.pData < r.base + r.size && info.nLength <= r.size
    ensures Flushed(FlushRanges(r, info), a) <==> OnRing(r, info.pData, info.nLength, a)
  {
    var ranges := FlushRanges(r, info);
    if i :| 0 <= i < |ranges| && InRange(ranges[i], a) {
      var k := if a >= info.pData then a - info.pData else a + r.size - info.pData;
      assert a == Around(r, info.pData, k);
    }
    if OnRing(r, info.pData, info.nLength, a) {
      assert InRange(ranges[0], a) || (|ranges| == 2 && InRange(ranges[1], a));
    }
  }

  /** A granted request: the segments lie in the buffer, have exactly the size asked for,
      and are the ring bytes that follow the partial frame. */
  lemma SegmentsAreTheRequest(f: Feed, n: nat, a: int)
    requires FeedInv(f) && Request(f, n).1.Segments?
    ensures
      var s := Request(f, n).1;
      && f.ring.base <= s.buf && s.buf + s.bufSize <= f.ring.base + f.ring.size
      && (s.ringBufSize == 0 || (s.ringBuf == f.ring.base && s.ringBufSize < s.buf - f.ring.base))
      && s.bufSize > 0 && s.bufSize + s.ringBufSize == Asked(n)
      && (InSegments(s, a) <==> OnRing(f.ring, Around(f.ring, f.ring.write, f.partial.nLength), Asked(n), a))
  {
    var s := Request(f, n).1;
    var start := s.buf;
    if InSegments(s, a) {
      var k := if a >= start then a - start else a + f.ring.size - start;
      assert a == Around(f.ring, start, k);
    }
  }

  /** Where a frame lies: its bytes are counted back from the write address. */
  lemma {:induction false} FrameBytes(r: Ring, frames: seq<StreamInfo>, i: nat, a: int)
    requires Sound(r) && TilesBefore(r, frames) && TotalLength(frames) <= r.size && i < |frames|
    requires OnRing(r, frames[i].pData, frames[i].nLength, a)
    ensures exists k :: -(TotalLength(frames) as int) <= k < 0 && a == Around(r, r.write, k)
  {
    if i == 0 {
      var k :| 0 <= k < frames[0].nLength && a == Around(r, frames[0].pData, k);
      assert a == Around(r, r.write, k - TotalLength(frames));
    } else {
      FrameBytes(r, frames[1..], i - 1, a);
      var k :| -(TotalLength(frames[1..]) as int) <= k < 0 && a == Around(r, r.write, k);
    }
  }

  /** The bytes the producer may write are none of the bytes of an unflushed frame or of the
      partial frame. This holds as long as the request is outstanding, whatever the consumer
      takes, gives back or flushes meanwhile. */
  lemma GrantedBytesAreFree(f: Feed, a: int)
    requires FeedInv(f) && f.granted >= 0
    requires OnRing(f.ring, Around(f.ring, f.ring.write, f.partial.nLength), f.granted, a)
    ensures forall i :: 0 <= i < |f.ring.frames| ==>
              !OnRing(f.ring, f.ring.frames[i].pData, f.ring.frames[i].nLength, a)
    ensures !OnRing(f.ring, f.partial.pData, f.partial.nLength, a)
  {
    var r := f.ring;
    var g :| 0 <= g < f.granted && a == Around(r, Around(r, r.write, f.partial.nLength), g);
    assert a == Around(r, r.write, f.partial.nLength + g);
    forall i | 0 <= i < |r.frames| ensures !OnRing(r, r.frames[i].pData, r.frames[i].nLength, a) {
      if OnRing(r, r.frames[i].pData, r.frames[i].nLength, a) {
        FrameBytes(r, r.frames, i, a);
        assert false;
      }
    }
  }

  /** No byte belongs to a frame and the partial frame. */
  lemma PartialIsDisjoint(f: Feed, i: nat, a: int)
    requires FeedInv(f) && i < |f.ring.frames| && OnRing(f.ring, f.ring.frames[i].pData, f.ring.frames[i].nLength, a)
    ensures !OnRing(f.ring, f.partial.pData, f.partial.nLength, a)
  {
    FrameBytes(f.ring, f.ring.frames, i, a);
  }

  /** No byte belongs to two unflushed frames. */
  lemma {:induction false} FramesAreDisjoint(r: Ring, frames: seq<StreamInfo>, i: nat, j: nat, a: int)
    requires Sound(r) && TilesBefore(r, frames) && TotalLength(frames) <= r.size && i < j < |frames|
    requires OnRing(r, frames[i].pData, frames[i].nLength, a)
    ensures !OnRing(r, frames[j].pData, frames[j].nLength, a)
  {
    if OnRing(r, frames[j].pData, frames[j].nLength, a) {
      if i == 0 {
        var g :| 0 <= g < frames[0].nLength && a == Around(r, frames[0].pData, g);
        assert a == Around(r, r.write, g - TotalLength(frames));
        FrameBytes(r, frames[1..], j - 1, a);
        assert false;
      } else {
        FramesAreDisjoint(r, frames[1..], i - 1, j - 1, a);
      }
    }
  }

  // ---------------------------------------------------------------- what a submission flushes

  /** Byte `a` belongs to a frame that the submission finishes: the unfinished one before a new
      first part, or the one whose last part this is. */
  ghost predicate FinishedByte(f: Feed, info: StreamInfo, a: int) {
    || (info.bIsFirstPart && OnRing(f.ring, f.partial.pData, f.partial.nLength, a))
    || (info.bIsLastPart && CompletedByte(f.ring, Accepted(f, info).0.partial, a))
  }

  ghost predicate CompletedByte(r: Ring, partial: StreamInfo, a: int) {
    OnRing(r, partial.pData, partial.nLength, a)
  }

  lemma FlushedConcat(r: seq<Range>, r': seq<Range>, a: int)
    ensures Flushed(r + r', a) <==> Flushed(r, a) || Flushed(r', a)
  {
    if i :| 0 <= i < |r + r'| && InRange((r + r')[i], a) {
      assert if i < |r| then InRange(r[i], a) else InRange(r'[i - |r|], a);
    }
    if i :| 0 <= i < |r| && InRange(r[i], a) { assert InRange((r + r')[i], a); }
    if i :| 0 <= i < |r'| && InRange(r'[i], a) { assert InRange((r + r')[|r| + i], a); }
  }

  /** Which bytes lie on the ring depends on its place and size only. */
  lemma OnSameRing(r: Ring, r': Ring, start: int, length: int, a: int)
    requires r'.base == r.base && r'.size == r.size
    ensures OnRing(r, start, length, a) <==> OnRing(r', start, length, a)
  {
    if k :| 0 <= k < length && a == Around(r, start, k) { assert a == Around(r', start, k); }
    if k :| 0 <= k < length && a == Around(r', start, k) { assert a == Around(r, start, k); }
  }

  lemma AcceptedFlushes(f: Feed, info: StreamInfo, a: int)
    requires FeedInv(f) && ProducerRule(f, info)
    ensures Flushed(Accepted(f, info).1, a) <==>
              info.bIsFirstPart && OnRing(f.ring, f.partial.pData, f.partial.nLength, a)
    ensures
      var f1 := Accepted(f, info).0;
      && Sound(f1.ring) && f1.ring.base == f.ring.base && f1.ring.size == f.ring.size
      && f1.partial.pData == f1.ring.write && f1.partial.nLength <= f1.ring.size
  {
    if info.bIsFirstPart {
      BegunInv(f, info);
      if f.partial.nLength != 0 { FlushRangesAreTheFrame(f.ring, f.partial, a); }
    }
  }

  lemma CompletedFlushes(f: Feed, a: int)
    requires Sound(f.ring) && f.partial.pData == f.ring.write && f.partial.nLength <= f.ring.size
    ensures Flushed(Completed(f).1, a) <==> OnRing(f.ring, f.partial.pData, f.partial.nLength, a)
  {
    if f.partial.nLength != 0 { FlushRangesAreTheFrame(f.ring, f.partial, a); }
  }

  /** A submission flushes from the CPU cache exactly the bytes of the frames it finishes. */
  lemma SubmitFlushesFinishedFrames(f: Feed, info: StreamInfo, a: int)
    requires FeedInv(f) && ProducerRule(f, info)
    ensures Flushed(Submit(f, info).1, a) <==> FinishedByte(f, info, a)
  {
    var (f1, r1) := Accepted(f, info);
    AcceptedFlushes(f, info, a);
    var r2 := if info.bIsLastPart then Completed(f1).1 else [];
    FlushedConcat(r1, r2, a);
    if info.bIsLastPart {
      CompletedFlushes(f1, a);
      OnSameRing(f.ring, f1.ring, f1.partial.pData, f1.partial.nLength, a);
    }
  }

  // ---------------------------------------------------------------- losing nothing

  /** The frames a submission finishes: an unfinished one before a new first part, and the
      frame whose last part this is. */
  function Finished(f: Feed, info: StreamInfo): nat {
    (if info.bIsFirstPart && f.partial.nLength != 0 then 1 else 0) + if info.bIsLastPart then 1 else 0
  }

  /** One submission can finish two frames while a request only made sure of one slot. The
      submission loses nothing exactly when there is a slot for each. */
  lemma SubmitLosesNothingIffRoom(f: Feed, info: StreamInfo)
    requires FeedInv(f) && ProducerRule(f, info)
    ensures
      var f' := Submit(f, info).0;
      (|f'.ring.frames| == |f.ring.frames| + Finished(f, info)
       && f'.ring.dataSize + f'.partial.nLength == f.ring.dataSize + f.partial.nLength + info.nLength)
      <==> |f.ring.frames| + Finished(f, info) <= MAX_FRAMES
  {
    SubmitKeepsInv(f, info);
    if info.bIsFirstPart { BegunInv(f, info); }
  }

  // ---------------------------------------------------------------- assembly

  /** A reference for assembling parts: the parts grouped into frames. */
  datatype Assembly = Assembly(done: seq<seq<StreamInfo>>, open: seq<StreamInfo>)

  function Bytes(parts: seq<StreamInfo>): nat {
    if parts == [] then 0 else Bytes(parts[..|parts| - 1]) + parts[|parts| - 1].nLength
  }

  /** The first time stamp that any of the parts carries. */
  function FirstPts(parts: seq<StreamInfo>): int {
    if parts == [] then NO_PTS
    else if FirstPts(parts[..|parts| - 1]) != NO_PTS then FirstPts(parts[..|parts| - 1])
    else parts[|parts| - 1].nPts
  }

  function Assemble(a: Assembly, part: StreamInfo): Assembly {
    var a1 :=
      if !part.bIsFirstPart then a.(open := a.open + [part])
      else if Bytes(a.open) != 0 then Assembly(a.done + [a.open], [part])
      else a.(open := [part]);
    if part.bIsLastPart then Assembly(a1.done + [a1.open], []) else a1
  }

  /** `info` describes the frame that consists of these parts. */
  ghost predicate Describes(info: StreamInfo, parts: seq<StreamInfo>) {
    && parts != []
    && info.nLength == Bytes(parts) && info.nPts == FirstPts(parts)
    && info.pData == parts[0].pData && info.nPcr == parts[0].nPcr && info.videoInfo == parts[0].videoInfo
  }

  ghost predicate DescribesAll(infos: seq<StreamInfo>, groups: seq<seq<StreamInfo>>) {
    |infos| == |groups| && forall i :: 0 <= i < |infos| ==> Describes(infos[i], groups[i])
  }

  /** The frames that went into the ring are the assembled ones; `flushed` are those that
      have left it. */
  ghost predicate Assembled(f: Feed, flushed: seq<StreamInfo>, a: Assembly) {
    && DescribesAll(flushed + f.ring.frames, a.done)
    && (a.open == [] <==> f.partial.pData == 0)
    && (a.open != [] ==> Describes(f.partial, a.open))
  }

  lemma DescribesMore(parts: seq<StreamInfo>, part: StreamInfo)
    ensures Bytes(parts + [part]) == Bytes(parts) + part.nLength
    ensures FirstPts(parts + [part]) == if FirstPts(parts) != NO_PTS then FirstPts(parts) else part.nPts
  {
    assert (parts + [part])[..|parts|] == parts;
  }

  lemma AddDescribes(r: Ring, flushed: seq<StreamInfo>, info: StreamInfo, groups: seq<seq<StreamInfo>>,
                     parts: seq<StreamInfo>)
    requires DescribesAll(flushed + r.frames, groups) && CanAdd(r, info) && Describes(info, parts)
    ensures DescribesAll(flushed + Add(r, info).frames, groups + [parts])
  {
    assert flushed + Add(r, info).frames == (flushed + r.frames) + [info.(bValid := true)];
  }

  lemma BegunAssembles(f: Feed, flushed: seq<StreamInfo>, a: Assembly, info: StreamInfo)
    requires FeedInv(f) && ProducerRule(f, info) && info.bIsFirstPart && Assembled(f, flushed, a)
    ensures Assembled(Begun(f, info).0, flushed, Assemble(a, info.(bIsLastPart := false)).(open := [info]))
  {
    DescribesMore([], info);
    assert [] + [info] == [info];
    if f.partial.nLength != 0 { AddDescribes(f.ring, flushed, f.partial, a.done, a.open); }
  }

  lemma ContinuedAssembles(f: Feed, flushed: seq<StreamInfo>, a: Assembly, info: StreamInfo)
    requires Assembled(f, flushed, a) && f.partial.pData != 0
    ensures Assembled(Continued(f, info), flushed, a.(open := a.open + [info]))
  {
    DescribesMore(a.open, info);
  }

  /** Submitting a part does to the ring what assembling does to the groups, whenever there
      is a slot for each finished frame. */
  lemma SubmitAssembles(f: Feed, flushed: seq<StreamInfo>, a: Assembly, info: StreamInfo)
    requires FeedInv(f) && ProducerRule(f, info) && Assembled(f, flushed, a)
    requires |f.ring.frames| + Finished(f, info) <= MAX_FRAMES
    ensures Assembled(Submit(f, info).0, flushed, Assemble(a, info))
  {
    var f1, a1 := f, a;
    if info.bIsFirstPart {
      BegunInv(f, info);
      BegunAssembles(f, flushed, a, info);
      f1, a1 := Begun(f, info).0, Assemble(a, info.(bIsLastPart := false)).(open := [info]);
    } else {
      ContinuedAssembles(f, flushed, a, info);
      f1, a1 := Continued(f, info), a.(open := a.open + [info]);
    }
    if info.bIsLastPart { AddDescribes(f1.ring, flushed, f1.partial, a1.done, a1.open); }
  }

  // ---------------------------------------------------------------- runs

  datatype Op =
    | DoRequest(n: nat)
    | DoSubmit(info: StreamInfo)
    | DoTake
    | DoPutBack(slot: int)
    | DoFlush(slot: int)
    | DoReset

  /** The assembled parts, the flushed frames, and whether some submission found fewer free
      slots than it finished frames. */
  datatype History = History(parts: Assembly, flushed: seq<StreamInfo>, lost: bool)

  const NO_HISTORY := History(Assembly([], []), [], false)

  /** The rules of the two sides: the consumer only returns or flushes a frame it took. */
  ghost predicate Allowed(f: Feed, op: Op) {
    match op
    case DoSubmit(info) => ProducerRule(f, info)
    case DoPutBack(slot) => f.ring.frames == [] || f.ring.unread < |f.ring.frames|
    case DoFlush(slot) => f.ring.frames == [] || f.ring.unread < |f.ring.frames|
    case _ => true
  }

  ghost function Step(f: Feed, h: History, op: Op): (Feed, History)
    requires Allowed(f, op)
  {
    match op
    case DoRequest(n) => (Request(f, n).0, h)
    case DoSubmit(info) =>
      (Submit(f, info).0,
       h.(parts := Assemble(h.parts, info), lost := h.lost || |f.ring.frames| + Finished(f, info) > MAX_FRAMES))
    case DoTake => (f.(ring := Take(f.ring).0), h)
    case DoPutBack(slot) => (f.(ring := PutBack(f.ring, slot).0), h)
    case DoFlush(slot) =>
      var (ring, outcome) := Flush(f.ring, slot);
      (f.(ring := ring), if outcome == Ok then h.(flushed := h.flushed + [f.ring.frames[0]]) else h)
    case DoReset => (ResetFeed(f), NO_HISTORY)
  }

  ghost predicate RunInv(f: Feed, h: History) {
    FeedInv(f) && (!h.lost ==> Assembled(f, h.flushed, h.parts))
  }

  lemma StepKeepsRunInv(f: Feed, h: History, op: Op)
    requires RunInv(f, h) && Allowed(f, op)
    ensures RunInv(Step(f, h, op).0, Step(f, h, op).1)
  {
    match op
    case DoRequest(n) => RequestKeepsInv(f, n);
    case DoSubmit(info) =>
      SubmitKeepsInv(f, info);
      if !Step(f, h, op).1.lost { SubmitAssembles(f, h.flushed, h.parts, info); }
    case DoTake => TakeKeepsInv(f);
    case DoPutBack(slot) => ConsumerKeepsInv(f, slot);
    case DoFlush(slot) =>
      ConsumerKeepsInv(f, slot);
      if Flush(f.ring, slot).1 == Ok {
        assert h.flushed + f.ring.frames == (h.flushed + [f.ring.frames[0]]) + f.ring.frames[1..];
      }
    case DoReset =>
  }

  ghost predicate IsStep(f: Feed, h: History, op: Op, f': Feed, h': History) {
    Allowed(f, op) && Step(f, h, op) == (f', h')
  }

  ghost predicate IsRun(base: int, size: int, feeds: seq<Feed>, histories: seq<History>, ops: seq<Op>) {
    && |feeds| == |histories| == |ops| + 1
    && feeds[0] == Opened(base, size) && histories[0] == NO_HISTORY
    && forall i :: 0 <= i < |ops| ==> IsStep(feeds[i], histories[i], ops[i], feeds[i + 1], histories[i + 1])
  }

  /** Main result on the stream buffer. In every run of requests, submissions, takes,
      returns, flushes and resets that keeps the two sides' rules: the frames tile the ring,
      the partial frame starts at the write address, and, unless some submission found too
      few free slots, the frames flushed so far followed by the frames in the ring are
      exactly the frames assembled from the submitted parts. */
  lemma {:induction false} StreamInEveryRun(base: int, size: int, feeds: seq<Feed>, histories: seq<History>,
                                            ops: seq<Op>, i: nat)
    requires 0 < base && 0 < size && IsRun(base, size, feeds, histories, ops) && i < |feeds|
    ensures FeedInv(feeds[i])
    ensures !histories[i].lost ==> Assembled(feeds[i], histories[i].flushed, histories[i].parts)
  {
    if i > 0 {
      StreamInEveryRun(base, size, feeds, histories, ops, i - 1);
      assert IsStep(feeds[i - 1], histories[i - 1], ops[i - 1], feeds[i - 1 + 1], histories[i - 1 + 1]);
      StepKeepsRunInv(feeds[i - 1], histories[i - 1], ops[i - 1]);
    }
  }

  // ---------------------------------------------------------------- a request in a run

  predicate IsConsumer(op: Op) {
    op.DoTake? || op.DoPutBack? || op.DoFlush?
  }

  /** What the consumer does leaves the producer's view alone. */
  ghost predicate SameProducerView(f: Feed, f': Feed) {
    && f'.partial == f.partial && f'.granted == f.granted
    && f'.ring.base == f.ring.base && f'.ring.size == f.ring.size && f'.ring.write == f.ring.write
  }

  lemma {:induction false} ConsumerKeepsProducerView(base: int, size: int, feeds: seq<Feed>, histories: seq<History>,
                                                     ops: seq<Op>, i: nat, j: nat)
    requires IsRun(base, size, feeds, histories, ops) && i <= j < |feeds|
    requires forall k :: i <= k < j ==> IsConsumer(ops[k])
    ensures SameProducerView(feeds[i], feeds[j])
    decreases j
  {
    if i < j {
      ConsumerKeepsProducerView(base, size, feeds, histories, ops, i, j - 1);
      assert IsStep(feeds[j - 1], histories[j - 1], ops[j - 1], feeds[j - 1 + 1], histories[j - 1 + 1]);
    }
  }

  /** The segments handed out by a request stay the producer's: at every later step, with any
      actions of the consumer in between, none of their bytes belongs to an unflushed frame or
      to the partial frame. */
  lemma SegmentsStayFree(base: int, size: int, feeds: seq<Feed>, histories: seq<History>, ops: seq<Op>, i: nat, j: nat,
                         a: int)
    requires 0 < base && 0 < size && IsRun(base, size, feeds, histories, ops) && i < j < |feeds|
    requires ops[i].DoRequest? && InSegments(Request(feeds[i], ops[i].n).1, a)
    requires forall k :: i < k < j ==> IsConsumer(ops[k])
    ensures
      var f := feeds[j];
      && (forall k :: 0 <= k < |f.ring.frames| ==> !OnRing(f.ring, f.ring.frames[k].pData, f.ring.frames[k].nLength, a))
      && !OnRing(f.ring, f.partial.pData, f.partial.nLength, a)
  {
    StreamInEveryRun(base, size, feeds, histories, ops, i);
    StreamInEveryRun(base, size, feeds, histories, ops, j);
    assert IsStep(feeds[i], histories[i], ops[i], feeds[i + 1], histories[i + 1]);
    SegmentsAreTheRequest(feeds[i], ops[i].n, a);
    ConsumerKeepsProducerView(base, size, feeds, histories, ops, i + 1, j);
    SameBytes(feeds[i], feeds[j], Asked(ops[i].n), a);
    GrantedBytesAreFree(feeds[j], a);
  }

  lemma SameBytes(f: Feed, f': Feed, n: int, a: int)
    requires f'.partial == f.partial && f'.ring.base == f.ring.base && f'.ring.size == f.ring.size &&
             f'.ring.write == f.ring.write
    requires OnRing(f.ring, Around(f.ring, f.ring.write, f.partial.nLength), n, a)
    ensures OnRing(f'.ring, Around(f'.ring, f'.ring.write, f'.partial.nLength), n, a)
  {
    var start := Around(f.ring, f.ring.write, f.partial.nLength);
    var k :| 0 <= k < n && a == Around(f.ring, start, k);
    assert a == Around(f'.ring, start, k);
  }

  /** In every run, a submission flushes exactly the bytes of the frames it finishes; in
      particular all bytes of every frame that it adds to the ring. */
  lemma SubmissionsFlushTheirFrames(base: int, size: int, feeds: seq<Feed>, histories: seq<History>, ops: seq<Op>,
                                    i: nat, f: Feed, f': Feed, info: StreamInfo, a: int)
    requires 0 < base && 0 < size && IsRun(base, size, feeds, histories, ops) && i < |ops|
    requires ops[i] == DoSubmit(info) && f == feeds[i] && f' == feeds[i + 1]
    ensures Flushed(Submit(f, info).1, a) <==> FinishedByte(f, info, a)
    ensures forall k :: |f.ring.frames| <= k < |f'.ring.frames| && OnFrame(f', k, a) ==> Flushed(Submit(f, info).1, a)
  {
    StreamInEveryRun(base, size, feeds, histories, ops, i);
    assert IsStep(f, histories[i], ops[i], f', histories[i + 1]);
    SubmitFlushesFinishedFrames(f, info, a);
    forall k | |f.ring.frames| <= k < |f'.ring.frames| && OnFrame(f', k, a) ensures FinishedByte(f, info, a) {
      AddedFrame(f, info, k, a);
    }
  }

  ghost predicate OnFrame(f: Feed, k: int, a: int)
    requires 0 <= k < |f.ring.frames|
  {
    OnRing(f.ring, f.ring.frames[k].pData, f.ring.frames[k].nLength, a)
  }

  lemma AddedFrame(f: Feed, info: StreamInfo, k: int, a: int)
    requires FeedInv(f) && ProducerRule(f, info) && |f.ring.frames| <= k < |Submit(f, info).0.ring.frames|
    requires OnFrame(Submit(f, info).0, k, a)
    ensures FinishedByte(f, info, a)
  {
    var f' := Submit(f, info).0;
    SubmitKeepsInv(f, info);
    AcceptedFlushes(f, info, a);
    var frame := f'.ring.frames[k];
    OnSameRing(f'.ring, f.ring, frame.pData, frame.nLength, a);
  }

  // ---------------------------------------------------------------- a run that loses a frame

  lemma ExtendRun(base: int, size: int, feeds: seq<Feed>, histories: seq<History>, ops: seq<Op>, op: Op, f: Feed,
                  h: History)
    requires IsRun(base, size, feeds, histories, ops) && IsStep(feeds[|ops|], histories[|ops|], op, f, h)
    ensures IsRun(base, size, feeds + [f], histories + [h], ops + [op])
  {
    var feeds', histories', ops' := feeds + [f], histories + [h], ops + [op];
    forall i | 0 <= i < |ops'| ensures IsStep(feeds'[i], histories'[i], ops'[i], feeds'[i + 1], histories'[i + 1]) {
      if i < |ops| { assert IsStep(feeds[i], histories[i], ops[i], feeds[i + 1], histories[i + 1]); }
    }
  }

  /** A whole frame or the first part of one, at the start of the buffer. */
  function Part(base: int, length: nat, last: bool): StreamInfo {
    StreamInfo(base, length, 0, 0, true, last, false, 0)
  }

  /** A feed with `k` empty frames and nothing else. */
  ghost predicate Filled(f: Feed, base: int, size: int, k: nat) {
    && f.ring.base == f.ring.write == base && f.ring.size == size && f.ring.dataSize == 0
    && |f.ring.frames| == k && f.partial.nLength == 0 && f.granted == -1
  }

  /** Submitting empty frames fills the FIFO without using a byte. */
  lemma {:induction false} RunOfEmptyFrames(base: int, size: int, k: nat)
    returns (feeds: seq<Feed>, histories: seq<History>, ops: seq<Op>)
    requires 0 < base && 4 + MARGIN <= size && k < MAX_FRAMES
    ensures IsRun(base, size, feeds, histories, ops) && Filled(feeds[|ops|], base, size, k)
  {
    if k == 0 {
      feeds, histories, ops := [Opened(base, size)], [NO_HISTORY], [];
    } else {
      feeds, histories, ops := RunOfEmptyFrames(base, size, k - 1);
      feeds, histories, ops := RequestAndSubmit(base, size, feeds, histories, ops, 0, Part(base, 0, true));
    }
  }

  lemma RequestAndSubmit(base: int, size: int, feeds: seq<Feed>, histories: seq<History>, ops: seq<Op>, n: nat,
                         info: StreamInfo)
    returns (feeds': seq<Feed>, histories': seq<History>, ops': seq<Op>)
    requires IsRun(base, size, feeds, histories, ops)
    requires feeds[|ops|].granted == -1 && Request(feeds[|ops|], n).0.granted >= 0
    requires ProducerRule(Request(feeds[|ops|], n).0, info)
    ensures IsRun(base, size, feeds', histories', ops')
    ensures ops' == ops + [DoRequest(n), DoSubmit(info)] && feeds'[..|ops| + 1] == feeds
    ensures feeds'[|ops| + 1] == Request(feeds[|ops|], n).0
    ensures feeds'[|ops'|] == Submit(Request(feeds[|ops|], n).0, info).0
  {
    var f, h := feeds[|ops|], histories[|ops|];
    var (f1, h1) := Step(f, h, DoRequest(n));
    var (f2, h2) := Step(f1, h1, DoSubmit(info));
    ExtendRun(base, size, feeds, histories, ops, DoRequest(n), f1, h1);
    ExtendRun(base, size, feeds + [f1], histories + [h1], ops + [DoRequest(n)], DoSubmit(info), f2, h2);
    feeds', histories', ops' := feeds + [f1] + [f2], histories + [h1] + [h2], ops + [DoRequest(n)] + [DoSubmit(info)];
  }

  /** A run, by both sides' rules, whose last submission finishes two frames when the FIFO has
      one slot left: an unfinished frame of four bytes and a whole one. One of them is lost. */
  lemma SubmissionCanLoseAFrame(base: int, size: int)
    returns (feeds: seq<Feed>, histories: seq<History>, ops: seq<Op>, info: StreamInfo)
    requires 0 < base && 8 + MARGIN <= size
    ensures IsRun(base, size, feeds, histories, ops) && |ops| > 0 && ops[|ops| - 1] == DoSubmit(info)
    ensures
      var f, f' := feeds[|ops| - 1], feeds[|ops|];
      && Finished(f, info) == 2 && |f'.ring.frames| == |f.ring.frames| + 1 == MAX_FRAMES
      && f'.ring.dataSize + f'.partial.nLength < f.ring.dataSize + f.partial.nLength + info.nLength
  {
    feeds, histories, ops := RunOfEmptyFrames(base, size, MAX_FRAMES - 1);
    feeds, histories, ops := RequestAndSubmit(base, size, feeds, histories, ops, 4, Part(base, 4, false));
    info := Part(Around(feeds[|ops|].ring, base, 4), 4, true);
    feeds, histories, ops := RequestAndSubmit(base, size, feeds, histories, ops, 4, info);
  }
}
