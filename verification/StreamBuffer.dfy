/** The stream buffer manager and the decoder's submit path as they are: cursors, counters
    and a slot array that are updated in place. Each method is proved to do what `StreamRing`
    and `StreamSubmit` say. */
module StreamBuffer {
  import opened StreamRing
  import opened StreamSubmit

  class Sbm {
    const base: int
    const size: int
    const slots: array<StreamInfo>
    var pWriteAddr: int
    var nValidDataSize: int
    var nValidFrameNum: int
    var nUnReadFrameNum: int
    var nReadPos: int
    var nWritePos: int
    var nFlushPos: int

    ghost var frames: seq<StreamInfo>

    ghost function View(): Ring
      requires nUnReadFrameNum >= 0 && nFlushPos >= 0
      reads this
    {
      Ring(base, size, pWriteAddr, nValidDataSize, frames, nUnReadFrameNum, nFlushPos)
    }

    ghost predicate Valid()
      reads this, slots
    {
      && FifoValid()
      && Sound(View())
      && nValidDataSize == TotalLength(frames)
    }

    constructor (base: int, size: int)
      requires 0 < base && 0 < size
      ensures Valid() && fresh(slots) && View() == Created(base, size)
    {
      this.base, this.size := base, size;
      slots := new StreamInfo[MAX_FRAMES](_ => CLEARED);
      pWriteAddr, nValidDataSize := base, 0;
      nValidFrameNum, nUnReadFrameNum, nReadPos, nWritePos, nFlushPos := 0, 0, 0, 0, 0;
      frames := [];
    }

    method Reset()
      requires Valid()
      modifies this
      ensures Valid() && View() == StreamRing.Reset(old(View()))
    {
      pWriteAddr := base;
      nValidDataSize := 0;
      nReadPos := 0;
      nWritePos := 0;
      nFlushPos := 0;
      nValidFrameNum := 0;
      nUnReadFrameNum := 0;
      frames := [];
    }

    method RequestBuffer(nRequireSize: int) returns (ok: bool, buf: int, bufSize: int)
      requires Valid()
      ensures ok == CanRequest(View(), nRequireSize)
      ensures ok ==> buf == View().write && bufSize == nRequireSize
    {
      if nValidFrameNum >= MAX_FRAMES { return false, 0, 0; }
      if nValidDataSize < size {
        var nFreeSize := size - nValidDataSize;
        if nRequireSize + MARGIN > nFreeSize { return false, 0, 0; }
        return true, pWriteAddr, nRequireSize;
      } else {
        return false, 0, 0;
      }
    }

    /** Appends a frame; the caller's record is marked valid. */
    method AddStream(info: StreamInfo) returns (ok: bool, marked: StreamInfo)
      requires Valid()
      modifies this, slots
      ensures Valid() && ok == CanAdd(old(View()), info)
      ensures View() == Add(old(View()), info) && marked == MarkedValid(old(View()), info)
    {
      if info.pData == 0 { return false, info; }
      if nValidFrameNum >= MAX_FRAMES { return false, info; }
      if info.nLength + nValidDataSize > size { return false, info; }
      marked := if !info.bValid then info.(bValid := true) else info;
      Push(marked);
      nValidDataSize := nValidDataSize + info.nLength;
      var newWriteAddr := pWriteAddr + info.nLength;
      if newWriteAddr > base + size - 1 { newWriteAddr := newWriteAddr - size; }
      pWriteAddr := newWriteAddr;
      ok := true;
    }

    /** The read and write cursors are the flush cursor plus the consumed and the valid
        count, modulo the FIFO size, and the slots between hold the frames. */
    ghost predicate FifoValid()
      reads this, slots
    {
      && slots.Length == MAX_FRAMES && 0 <= nFlushPos < MAX_FRAMES
      && 0 <= nUnReadFrameNum <= nValidFrameNum == |frames| <= MAX_FRAMES
      && nWritePos == Slot(nFlushPos, nValidFrameNum)
      && nReadPos == Slot(nFlushPos, nValidFrameNum - nUnReadFrameNum)
      && (forall k :: 0 <= k < |frames| ==> slots[Slot(nFlushPos, k)] == frames[k])
    }

    /** Stores a frame in the next free slot. */
    method Push(info: StreamInfo)
      requires FifoValid() && nValidFrameNum < MAX_FRAMES
      modifies this`nWritePos, this`nValidFrameNum, this`nUnReadFrameNum, this`frames, slots
      ensures FifoValid() && frames == old(frames) + [info] && nUnReadFrameNum == old(nUnReadFrameNum) + 1
      ensures TotalLength(frames) == TotalLength(old(frames)) + info.nLength
      ensures nWritePos == (nFlushPos + nValidFrameNum) % MAX_FRAMES
    {
      var pos := nWritePos;
      slots[pos] := info;
      pos := pos + 1;
      if pos >= MAX_FRAMES { pos := 0; }
      nWritePos := pos;
      nValidFrameNum := nValidFrameNum + 1;
      nUnReadFrameNum := nUnReadFrameNum + 1;
      TotalLengthAppend(frames, info);
      frames := frames + [info];
      SlotIsModulo(nFlushPos, nValidFrameNum);
    }

    /** Hands out the oldest unread frame as a slot index, or -1. */
    method RequestStream() returns (slot: int)
      requires Valid()
      modifies this`nReadPos, this`nUnReadFrameNum
      ensures Valid() && (View(), slot) == Take(old(View()))
      ensures slot != -1 ==>
                0 <= slot < MAX_FRAMES && slots[slot] == frames[|frames| - old(nUnReadFrameNum)]
    {
      if nUnReadFrameNum == 0 { return -1; }
      slot := nReadPos;
      nReadPos := nReadPos + 1;
      nUnReadFrameNum := nUnReadFrameNum - 1;
      if nReadPos >= MAX_FRAMES { nReadPos := 0; }
    }

    /** Takes back the frame that was handed out last; any other one aborts the process. */
    method ReturnStream(slot: int) returns (outcome: Outcome)
      requires Valid()
      requires nValidFrameNum == 0 || nUnReadFrameNum < nValidFrameNum
      modifies this`nReadPos, this`nUnReadFrameNum
      ensures outcome == PutBack(old(View()), slot).1
      ensures outcome != Aborted ==> Valid() && View() == PutBack(old(View()), slot).0
    {
      if slot == -1 { return Failed; }
      if nValidFrameNum == 0 { return Failed; }
      var pos := nReadPos;
      pos := pos - 1;
      if pos < 0 { pos := MAX_FRAMES - 1; }
      nUnReadFrameNum := nUnReadFrameNum + 1;
      if slot != pos { return Aborted; }
      nReadPos := pos;
      return Ok;
    }

    /** Releases the oldest frame; any other one aborts the process. */
    method FlushStream(slot: int) returns (outcome: Outcome)
      requires Valid()
      requires nValidFrameNum == 0 || nUnReadFrameNum < nValidFrameNum
      modifies this
      ensures outcome == Flush(old(View()), slot).1
      ensures Valid() && View() == Flush(old(View()), slot).0
    {
      if nValidFrameNum == 0 { return Failed; }
      var pos := nFlushPos;
      if slot != pos { return Aborted; }
      assert slots[Slot(nFlushPos, 0)] == frames[0];
      pos := pos + 1;
      if pos >= MAX_FRAMES { pos := 0; }
      nValidFrameNum := nValidFrameNum - 1;
      nValidDataSize := nValidDataSize - slots[slot].nLength;
      nFlushPos := pos;
      frames := frames[1..];
      assert forall k :: 0 <= k < |frames| ==> Slot(nFlushPos, k) == Slot(old(nFlushPos), k + 1);
      return Ok;
    }
  }

  lemma SubmitInTwoSteps(f: Feed, info: StreamInfo, f1: Feed, f2: Feed, c: seq<Range>, r1: seq<Range>, r2: seq<Range>)
    requires Accepted(f, info) == (f1, r1)
    requires (f2, r2) == if info.bIsLastPart then Completed(f1) else (f1, [])
    ensures Submit(f, info).0 == f2.(granted := -1) && c + Submit(f, info).1 == c + r1 + r2
  {
  }

  /** The part of the decoder context that feeds one stream buffer. */
  class VideoDecoder {
    const sbm: Sbm
    var partial: StreamInfo

    /** The size of the producer's outstanding request, or -1. */
    ghost var granted: int

    /** The ranges flushed from the CPU cache so far. */
    ghost var cacheFlushes: seq<Range>

    ghost predicate Valid()
      reads this, sbm, sbm.slots
    {
      sbm.Valid()
    }

    ghost function View(): Feed
      requires Valid()
      reads this, sbm, sbm.slots
    {
      Feed(sbm.View(), partial, granted)
    }

    constructor (sbm: Sbm)
      requires sbm.Valid() && sbm.View() == Created(sbm.base, sbm.size)
      ensures this.sbm == sbm && Valid() && View() == Opened(sbm.base, sbm.size) && cacheFlushes == []
    {
      this.sbm := sbm;
      partial := CLEARED;
      granted := -1;
      cacheFlushes := [];
    }

    method RequestVideoStreamBuffer(nRequireSize: nat) returns (segments: Segments)
      requires Valid()
      modifies this`granted
      ensures Valid() && (View(), segments) == Request(old(View()), nRequireSize)
    {
      var required := nRequireSize;
      if required == 0 { required := 4; }
      var ok, mem, free := sbm.RequestBuffer(required + partial.nLength);
      if !ok { return NoRoom; }
      var streamBufEnd := sbm.base + sbm.size;
      var start := mem + partial.nLength;
      if start >= streamBufEnd { start := start - sbm.size; }
      free := free - partial.nLength;
      granted := free;
      if start + free <= streamBufEnd {
        return Segments(start, free, 0, 0);
      } else {
        return Segments(start, streamBufEnd - start, sbm.base, free - (streamBufEnd - start));
      }
    }

    method FlushSbmData(info: StreamInfo)
      requires Valid()
      modifies this`cacheFlushes
      ensures cacheFlushes == old(cacheFlushes) + FlushRanges(sbm.View(), info)
    {
      var streamBufEnd := sbm.base + sbm.size;
      if info.pData + info.nLength <= streamBufEnd {
        cacheFlushes := cacheFlushes + [Range(info.pData, info.nLength)];
      } else {
        var nPartialLen := streamBufEnd - info.pData;
        cacheFlushes := cacheFlushes + [Range(info.pData, nPartialLen)];
        cacheFlushes := cacheFlushes + [Range(sbm.base, info.nLength - nPartialLen)];
      }
    }

    /** Takes a part into the partial frame; an unfinished frame before it is added first. */
    method Accept(info: StreamInfo)
      requires Valid()
      modifies this`partial, this`cacheFlushes, sbm, sbm.slots
      ensures Valid() && View() == Accepted(old(View()), info).0
      ensures cacheFlushes == old(cacheFlushes) + Accepted(old(View()), info).1
    {
      if info.bIsFirstPart {
        if partial.nLength != 0 {
          FlushSbmData(partial);
          var added, marked := sbm.AddStream(partial);
          partial := marked;
        }
        partial := partial.(pData := info.pData, nLength := info.nLength, nPts := info.nPts, nPcr := info.nPcr,
                            bIsFirstPart := true, bIsLastPart := false, videoInfo := info.videoInfo);
      } else {
        partial := partial.(nLength := partial.nLength + info.nLength);
        if partial.nPts == NO_PTS && info.nPts != NO_PTS {
          partial := partial.(nPts := info.nPts);
        }
      }
    }

    /** The branch for a last part. */
    method Complete()
      requires Valid()
      modifies this`partial, this`cacheFlushes, sbm, sbm.slots
      ensures Valid() && View() == Completed(old(View())).0
      ensures cacheFlushes == old(cacheFlushes) + Completed(old(View())).1
    {
      if partial.pData != 0 && partial.nLength != 0 {
        FlushSbmData(partial);
      }
      var added, marked := sbm.AddStream(partial);
      partial := CLEARED.(bValid := marked.bValid);
    }

    method SubmitVideoStreamData(info: StreamInfo)
      requires Valid()
      modifies this, sbm, sbm.slots
      ensures Valid() && View() == Submit(old(View()), info).0
      ensures cacheFlushes == old(cacheFlushes) + Submit(old(View()), info).1
    {
      ghost var f, c := View(), cacheFlushes;
      Accept(info);
      ghost var f1, r1 := View(), Accepted(f, info).1;
      if info.bIsLastPart {
        Complete();
        SubmitInTwoSteps(f, info, f1, View(), c, r1, Completed(f1).1);
      } else {
        SubmitInTwoSteps(f, info, f1, f1, c, r1, []);
      }
      granted := -1;
    }

    /** Drops all stream data. */
    method ResetStreams()
      requires Valid()
      modifies this, sbm
      ensures Valid() && View() == ResetFeed(old(View()))
    {
      sbm.Reset();
      partial := CLEARED.(nPts := 0, nPcr := 0);
      granted := -1;
    }
  }
}
