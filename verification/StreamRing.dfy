/** The decoder's stream buffer as a function on values: a ring of bytes with a FIFO of
    frames over it, and the partial frame that the submit path assembles behind them.

    Addresses are integers; 0 is the null pointer. */
module StreamRing {

  /** Frames of bit stream the FIFO can store. */
  const MAX_FRAMES: nat := 2048

  /** Bytes a request must leave free. */
  const MARGIN: nat := 64

  datatype StreamInfo = StreamInfo(
    pData: int, nLength: nat, nPts: int, nPcr: int, bIsFirstPart: bool, bIsLastPart: bool,
    bValid: bool, videoInfo: int)

  /** `frames` are the frames added and not flushed, oldest first; the last `unread` of them
      have not been handed to the consumer; `flushPos` is the FIFO slot of the oldest. */
  datatype Ring = Ring(
    base: int, size: int, write: int, dataSize: int,
    frames: seq<StreamInfo>, unread: nat, flushPos: nat)

  datatype Outcome = Ok | Failed | Aborted

  ghost predicate Sound(r: Ring) {
    && 0 < r.base && 0 < r.size && r.base <= r.write < r.base + r.size
    && 0 <= r.dataSize <= r.size
    && r.unread <= |r.frames| <= MAX_FRAMES && r.flushPos < MAX_FRAMES
  }

  function Created(base: int, size: int): Ring {
    Ring(base, size, base, 0, [], 0, 0)
  }

  // ---------------------------------------------------------------- ring operations

  /** The address `k` bytes after `a` on the ring (before it, if k is negative), for steps of
      at most one turn. */
  function Around(r: Ring, a: int, k: int): int {
    if a + k >= r.base + r.size then a + k - r.size
    else if a + k < r.base then a + k + r.size
    else a + k
  }

  function Reset(r: Ring): Ring {
    r.(write := r.base, dataSize := 0, frames := [], unread := 0, flushPos := 0)
  }

  /** Whether `n` bytes may be written behind the data. */
  predicate CanRequest(r: Ring, n: int) {
    |r.frames| < MAX_FRAMES && r.dataSize < r.size && n + MARGIN <= r.size - r.dataSize
  }

  predicate CanAdd(r: Ring, info: StreamInfo) {
    info.pData != 0 && |r.frames| < MAX_FRAMES && info.nLength + r.dataSize <= r.size
  }

  function Add(r: Ring, info: StreamInfo): Ring {
    if !CanAdd(r, info) then r
    else r.(frames := r.frames + [info.(bValid := true)], unread := r.unread + 1,
            dataSize := r.dataSize + info.nLength, write := Around(r, r.write, info.nLength))
  }

  /** The FIFO slot `k` places after slot `pos`. */
  function Slot(pos: int, k: int): int {
    if pos + k >= MAX_FRAMES then pos + k - MAX_FRAMES else pos + k
  }

  lemma SlotIsModulo(pos: nat, k: nat)
    requires pos < MAX_FRAMES && k <= MAX_FRAMES
    ensures Slot(pos, k) == (pos + k) % MAX_FRAMES
  {
  }

  function ReadPos(r: Ring): int {
    Slot(r.flushPos, |r.frames| - r.unread)
  }

  /** The consumer takes the oldest unread frame; the reply is its FIFO slot. */
  function Take(r: Ring): (Ring, int) {
    if r.unread == 0 then (r, -1) else (r.(unread := r.unread - 1), ReadPos(r))
  }

  /** The consumer gives back the frame it took last. */
  function PutBack(r: Ring, slot: int): (Ring, Outcome)
    requires r.frames != [] ==> r.unread < |r.frames|
  {
    if slot == -1 || r.frames == [] then (r, Failed)
    else if slot != (if ReadPos(r) == 0 then MAX_FRAMES - 1 else ReadPos(r) - 1) then
      (r.(unread := r.unread + 1), Aborted)
    else (r.(unread := r.unread + 1), Ok)
  }

  /** The consumer is done with the oldest frame. */
  function Flush(r: Ring, slot: int): (Ring, Outcome)
    requires r.frames != [] ==> r.unread < |r.frames|
  {
    if r.frames == [] then (r, Failed)
    else if slot != r.flushPos then (r, Aborted)
    else (r.(frames := r.frames[1..], dataSize := r.dataSize - r.frames[0].nLength,
             flushPos := Slot(r.flushPos, 1)), Ok)
  }

  /** Taking a frame and giving it back leaves everything as it was. */
  lemma PutBackUndoesTake(r: Ring)
    requires Sound(r) && r.unread > 0
    ensures Take(r).0.unread < |r.frames|
    ensures PutBack(Take(r).0, Take(r).1) == (r, Ok)
  {
  }

  // ---------------------------------------------------------------- tiling

  function TotalLength(frames: seq<StreamInfo>): nat {
    if frames == [] then 0 else frames[0].nLength + TotalLength(frames[1..])
  }

  /** The frames tile the ring: each starts as many bytes before the write address as there
      are in it and all later frames, and the byte count is exact. */
  ghost predicate Tiled(r: Ring) {
    && Sound(r)
    && r.dataSize == TotalLength(r.frames)
    && TilesBefore(r, r.frames)
  }

  ghost predicate TilesBefore(r: Ring, frames: seq<StreamInfo>) {
    frames != [] ==>
      && frames[0].pData == Around(r, r.write, -(TotalLength(frames) as int))
      && TilesBefore(r, frames[1..])
  }

  lemma {:induction false} TotalLengthAppend(frames: seq<StreamInfo>, info: StreamInfo)
    ensures TotalLength(frames + [info]) == TotalLength(frames) + info.nLength
  {
    if frames == [] {
      assert [info][1..] == [];
      assert frames + [info] == [info];
    } else {
      TotalLengthAppend(frames[1..], info);
      assert (frames + [info])[1..] == frames[1..] + [info];
    }
  }

  /** Adding a frame that starts at the write address keeps all earlier tiles in place. */
  lemma {:induction false} TilesAfterAdd(r: Ring, r': Ring, frames: seq<StreamInfo>, info: StreamInfo)
    requires Sound(r) && r'.base == r.base && r'.size == r.size && r'.write == Around(r, r.write, info.nLength)
    requires TotalLength(frames) + info.nLength <= r.size && info.pData == r.write
    requires TilesBefore(r, frames)
    ensures TilesBefore(r', frames + [info])
  {
    TotalLengthAppend(frames, info);
    if frames == [] {
      assert frames + [info] == [info] && [info][1..] == [];
    } else {
      TilesAfterAdd(r, r', frames[1..], info);
      assert (frames + [info])[1..] == frames[1..] + [info];
    }
  }

  lemma AddKeepsTiling(r: Ring, info: StreamInfo)
    requires Tiled(r) && (CanAdd(r, info) ==> info.pData == r.write)
    ensures Tiled(Add(r, info))
  {
    if CanAdd(r, info) {
      TotalLengthAppend(r.frames, info.(bValid := true));
      TilesAfterAdd(r, Add(r, info), r.frames, info.(bValid := true));
    }
  }

  /** Tiling depends on the frames and the write address only. */
  lemma {:induction false} TilesFrame(r: Ring, r': Ring, frames: seq<StreamInfo>)
    requires TilesBefore(r, frames) && r'.base == r.base && r'.size == r.size && r'.write == r.write
    ensures TilesBefore(r', frames)
  {
    if frames != [] { TilesFrame(r, r', frames[1..]); }
  }

  lemma ConsumerKeepsTiling(r: Ring, slot: int)
    requires Tiled(r)
    ensures Tiled(Take(r).0)
    ensures r.frames == [] || r.unread < |r.frames| ==> Tiled(Flush(r, slot).0) && Tiled(PutBack(r, slot).0)
  {
    TilesFrame(r, Take(r).0, r.frames);
    if r.frames != [] && r.unread < |r.frames| {
      TilesFrame(r, PutBack(r, slot).0, r.frames);
      TilesFrame(r, r.(frames := r.frames[1..], dataSize := r.dataSize - r.frames[0].nLength,
                       flushPos := Slot(r.flushPos, 1)), r.frames[1..]);
    }
  }

  /** Each frame ends where its successor starts, and the last one at the write address. */
  lemma {:induction false} FramesAreAdjacent(r: Ring, frames: seq<StreamInfo>, i: nat)
    requires Sound(r) && TilesBefore(r, frames) && TotalLength(frames) <= r.size && i < |frames|
    ensures Around(r, frames[i].pData, frames[i].nLength) ==
            if i + 1 < |frames| then frames[i + 1].pData else r.write
  {
    if i > 0 {
      FramesAreAdjacent(r, frames[1..], i - 1);
    } else if |frames| > 1 {
      assert frames[1..][0] == frames[1];
    } else {
      assert frames[1..] == [];
    }
  }
}
