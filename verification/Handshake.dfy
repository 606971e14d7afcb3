/** The handshake between the demux thread and the cache thread.

    Both threads use one parser and one frame cache. They are coordinated only by the FIFO
    message queue of the cache thread and a reply semaphore. Each action below is one
    visible step of one thread; parser calls have a begin and an end, and any enabled
    action may come next. What users post to the demux thread, what the parser and the
    player answer, and whether the cache is over its size limit is left open. */
module Handshake {

  /** A frame, tagged with the seek generation in which it was read. */
  datatype Frame = Frame(epoch: nat, data: int)

  /** The messages of the cache thread's queue; `reply` says whether a start message
      carries the reply semaphore. Pause, seek and quit always do. */
  datatype Msg = START(reply: bool) | PAUSE | SEEK | QUIT | READ

  /** Why the demux thread is shutting a source down or opening one. */
  datatype Reason = Stop | Clear | Quit | Prepare

  datatype DemuxPc =
    | DIdle                           // waiting for a command
    | DPauseWait | DSeekWait | DStartWait
    | DQuitWait(reason: Reason)       // waiting on the reply semaphore
    | DJoin(reason: Reason)           // in pthread_join
    | DClearForceStop | DSeekTo       // inside the parser
    | DClose(reason: Reason)          // inside CdxParserClose
    | DPrepare                        // inside CdxParserPrepare
    | DSpawned                        // cache thread created, start message not posted yet
    | DUnderflow                      // saw an empty cache, has not tested the end-of-stream flag yet
    | DNonEmpty                       // saw a non-empty cache
    | DHolding(frame: Frame)          // has the cache's first node, waits for the player's buffer
    | DSubmitted(frame: Frame)        // has submitted that node, has not dropped it yet
    | DDirect                         // inside the parser, reading without a cache thread
    | DDone
    | DAborted                        // found no frame in a cache it had seen non-empty

  datatype CachePc =
    | NoThread
    | CWait                           // waiting for a message
    | CGot(msg: Msg)                  // about to process a message
    | CReply(quit: bool)              // about to post the reply semaphore
    | COverflow                       // cache full, timed wait for a message
    | CPrefetch | CRead | CGetStatus  // inside the parser
    | CAlloc                          // out of memory for the frame, timed wait for a message
    | CAdd(frame: Frame)              // about to add the frame it read
    | CRepost                         // about to post the next read message
    | CDead                           // returned from its thread function

  datatype State = State(
    d: DemuxPc,
    c: CachePc,
    cacheStarted: bool,
    queue: seq<Msg>,
    sem: nat,
    parserOpen: bool,
    eos: bool,
    ioError: bool,
    // a read of the cache thread failed and the parser was not asked why
    silent: bool,
    cache: seq<Frame>,
    // the record of the run since the parser was last positioned
    epoch: nat,
    read: seq<Frame>,
    submitted: seq<Frame>,
    flushed: seq<Frame>)

  function Start(): State {
    State(DIdle, NoThread, false, [], 0, false, false, false, false, [], 0, [], [], [])
  }

  // ---------------------------------------------------------------- steps of the demux thread

  /** The demux thread takes a command when it is idle, and also while it waits for room in
      the player; the frame it holds then stays in the cache. */
  predicate TakesCommand(s: State) {
    s.d == DIdle || s.d.DHolding?
  }

  function AfterClose(reason: Reason): DemuxPc {
    match reason
    case Stop => DIdle
    case Clear => DIdle
    case Quit => DDone
    case Prepare => DPrepare
  }

  /** There is no cache thread: close the parser if it is open. */
  function ShutDown(s: State, reason: Reason): State {
    s.(d := if s.parserOpen then DClose(reason) else AfterClose(reason))
  }

  /** The parser has a new position: the end-of-stream and error flags are cleared, and the
      record of the run starts afresh. */
  function Repositioned(s: State): State {
    s.(eos := false, ioError := false, silent := false, epoch := s.epoch + 1, read := [], submitted := [],
       flushed := [])
  }

  function StopCommand(s: State, reason: Reason): State {
    if s.c != NoThread then s.(queue := s.queue + [QUIT], d := DQuitWait(reason)) else ShutDown(s, reason)
  }

  function QuitReplied(s: State): State
    requires s.d.DQuitWait? && s.sem > 0
  {
    s.(sem := s.sem - 1, d := DJoin(s.d.reason))
  }

  function Joined(s: State): State
    requires s.d.DJoin?
  {
    ShutDown(s.(c := NoThread), s.d.reason)
  }

  function Closed(s: State): State
    requires s.d.DClose?
  {
    s.(parserOpen := false, d := AfterClose(s.d.reason))
  }

  function PrepareCommand(s: State): State {
    ShutDown(s, Prepare)
  }

  /** The parser was opened, or not; for a network stream a stopped cache thread starts. */
  function Prepared(s: State, ok: bool, netStream: bool, leftOpen: bool): State {
    if !ok then s.(parserOpen := leftOpen, d := DIdle)
    else if netStream then Repositioned(s).(parserOpen := true, c := CWait, cacheStarted := false, d := DSpawned)
    else Repositioned(s).(parserOpen := true, d := DIdle)
  }

  function StartPosted(s: State): State {
    s.(queue := s.queue + [START(false)], d := DIdle)
  }

  function SeekCommand(s: State, clear: bool): State {
    if !s.parserOpen then s.(d := DIdle)
    else if s.c != NoThread then s.(queue := s.queue + [PAUSE], d := DPauseWait)
    else s.(d := if clear then DClearForceStop else DSeekTo)
  }

  function PauseReplied(s: State): State
    requires s.sem > 0
  {
    s.(queue := s.queue + [SEEK], sem := s.sem - 1, d := DSeekWait)
  }

  function SeekReplied(s: State, clear: bool): State
    requires s.sem > 0
  {
    s.(sem := s.sem - 1, d := if clear then DClearForceStop else DSeekTo)
  }

  function ForceStopCleared(s: State): State {
    s.(d := DSeekTo)
  }

  function SeekDone(s: State, ok: bool): State {
    if !ok then s.(d := DIdle)
    else if s.c != NoThread then Repositioned(s).(queue := s.queue + [START(true)], d := DStartWait)
    else Repositioned(s).(d := DIdle)
  }

  function StartReplied(s: State): State
    requires s.sem > 0
  {
    s.(sem := s.sem - 1, d := DIdle)
  }

  /** A read: directly from the parser without a cache thread, else from the cache. */
  function ReadCommand(s: State): State {
    if s.c == NoThread then s.(d := DDirect)
    else s.(d := if s.cache == [] then DUnderflow else DNonEmpty)
  }

  /** After an underflow: complete if the end of the stream was reached, else try again. */
  function EosTested(s: State): State {
    s.(d := DIdle)
  }

  function FrameFetched(s: State): State {
    if s.cache == [] then s.(d := DAborted) else s.(d := DHolding(s.cache[0]))
  }

  function FrameSubmitted(s: State): State
    requires s.d.DHolding?
  {
    s.(submitted := s.submitted + [s.d.frame], d := DSubmitted(s.d.frame))
  }

  function FrameDropped(s: State): State {
    s.(cache := if s.cache == [] then [] else s.cache[1..], d := DIdle)
  }

  /** A direct read that failed and was asked why sets a flag. */
  function DirectReadDone(s: State, failed: bool, ioErr: bool): State {
    s.(ioError := s.ioError || (failed && ioErr), eos := s.eos || (failed && !ioErr), d := DIdle)
  }

  // ---------------------------------------------------------------- steps of the cache thread

  predicate Listens(c: CachePc) {
    c == CWait || c == COverflow || c == CAlloc
  }

  function MessageTaken(s: State): State
    requires s.queue != []
  {
    s.(c := CGot(s.queue[0]), queue := s.queue[1..])
  }

  function StartProcessed(s: State, reply: bool): State {
    s.(cacheStarted := true, queue := s.queue + [READ], c := if reply then CReply(false) else CWait)
  }

  function PauseProcessed(s: State): State {
    s.(cacheStarted := false, c := CReply(false))
  }

  /** Seek and quit both flush the cache. */
  function FlushProcessed(s: State, quit: bool): State {
    s.(cache := [], flushed := s.flushed + s.cache, c := CReply(quit))
  }

  /** A read message is dropped unless the thread is started. */
  function ReadProcessed(s: State, overflow: bool): State {
    s.(c := if !s.cacheStarted then CWait else if overflow then COverflow else CPrefetch)
  }

  function Dispatched(s: State, overflow: bool): State
    requires s.c.CGot?
  {
    match s.c.msg
    case START(reply) => StartProcessed(s, reply)
    case PAUSE => PauseProcessed(s)
    case SEEK => FlushProcessed(s, false)
    case QUIT => FlushProcessed(s, true)
    case READ => ReadProcessed(s, overflow)
  }

  function ReplyPosted(s: State): State
    requires s.c.CReply?
  {
    s.(sem := s.sem + 1, c := if s.c.quit then CDead else CWait)
  }

  function OverflowTimedOut(s: State): State {
    s.(c := CRepost)
  }

  function PrefetchDone(s: State, ok: bool, getStatus: bool): State {
    s.(c := if ok then CAlloc else if getStatus then CGetStatus else CWait, silent := s.silent || (!ok && !getStatus))
  }

  /** There is memory for the frame. */
  function Allocated(s: State): State {
    s.(c := CRead)
  }

  function ReadDone(s: State, ok: bool, getStatus: bool, data: int): State {
    if ok then s.(read := s.read + [Frame(s.epoch, data)], c := CAdd(Frame(s.epoch, data)))
    else s.(c := if getStatus then CGetStatus else CWait, silent := s.silent || !getStatus)
  }

  function StatusDone(s: State, ioErr: bool): State {
    s.(ioError := s.ioError || ioErr, eos := s.eos || !ioErr, c := CWait)
  }

  function FrameAdded(s: State): State
    requires s.c.CAdd?
  {
    s.(cache := s.cache + [s.c.frame], c := CRepost)
  }

  function ReadPosted(s: State): State {
    s.(queue := s.queue + [READ], c := CWait)
  }

  // ---------------------------------------------------------------- all steps

  /** Opening and closing a source. A new one is only prepared when no cache thread exists. */
  ghost predicate SourceStep(s: State, s': State) {
    || (exists reason :: TakesCommand(s) && reason != Prepare && s' == StopCommand(s, reason))
    || (s.d.DQuitWait? && s.sem > 0 && s' == QuitReplied(s))
    || (s.d.DJoin? && s.c == CDead && s' == Joined(s))
    || (s.d.DClose? && s' == Closed(s))
    || (TakesCommand(s) && s.c == NoThread && s' == PrepareCommand(s))
    || (exists ok, netStream, leftOpen :: s.d == DPrepare && s' == Prepared(s, ok, netStream, leftOpen))
    || (s.d == DSpawned && s' == StartPosted(s))
  }

  ghost predicate SeekStep(s: State, s': State) {
    || (exists clear :: TakesCommand(s) && s' == SeekCommand(s, clear))
    || (s.d == DPauseWait && s.sem > 0 && s' == PauseReplied(s))
    || (exists clear :: s.d == DSeekWait && s.sem > 0 && s' == SeekReplied(s, clear))
    || (s.d == DClearForceStop && s' == ForceStopCleared(s))
    || (exists ok :: s.d == DSeekTo && s' == SeekDone(s, ok))
    || (s.d == DStartWait && s.sem > 0 && s' == StartReplied(s))
  }

  ghost predicate ReadStep(s: State, s': State) {
    || (TakesCommand(s) && (s.c == NoThread ==> s.parserOpen) && s' == ReadCommand(s))
    || (s.d == DUnderflow && s' == EosTested(s))
    || (s.d == DNonEmpty && s' == FrameFetched(s))
    || (s.d.DHolding? && s' == FrameSubmitted(s))
    || (s.d.DSubmitted? && s' == FrameDropped(s))
    || (exists failed, ioErr :: s.d == DDirect && s' == DirectReadDone(s, failed, ioErr))
  }

  ghost predicate CacheStep(s: State, s': State) {
    || (Listens(s.c) && s.queue != [] && s' == MessageTaken(s))
    || (s.c == CAlloc && s' == Allocated(s))
    || (exists overflow :: s.c.CGot? && s' == Dispatched(s, overflow))
    || (s.c.CReply? && s' == ReplyPosted(s))
    || (s.c == COverflow && s' == OverflowTimedOut(s))
    || (exists ok, getStatus :: s.c == CPrefetch && s' == PrefetchDone(s, ok, getStatus))
    || (exists ok, getStatus, data :: s.c == CRead && s' == ReadDone(s, ok, getStatus, data))
    || (exists ioErr :: s.c == CGetStatus && s' == StatusDone(s, ioErr))
    || (s.c.CAdd? && s' == FrameAdded(s))
    || (s.c == CRepost && s' == ReadPosted(s))
  }

  // ---------------------------------------------------------------- the message pipeline

  function Reads(q: seq<Msg>): nat {
    if q == [] then 0 else (if q[0] == READ then 1 else 0) + Reads(q[1..])
  }

  /** The control messages of a queue, in order. */
  function Controls(q: seq<Msg>): (r: seq<Msg>)
    ensures |q| == |r| + Reads(q)
  {
    if q == [] then [] else if q[0] == READ then Controls(q[1..]) else [q[0]] + Controls(q[1..])
  }

  /** Some read message stands behind a start message. */
  predicate LateRead(q: seq<Msg>) {
    q != [] && if q[0].START? then Reads(q[1..]) > 0 else LateRead(q[1..])
  }

  lemma {:induction false} AppendControl(q: seq<Msg>, m: Msg)
    requires m != READ
    ensures Reads(q + [m]) == Reads(q) && Controls(q + [m]) == Controls(q) + [m] && LateRead(q + [m]) == LateRead(q)
  {
    if q == [] {
      assert q + [m] == [m] && [m][1..] == [];
    } else {
      AppendControl(q[1..], m);
      assert (q + [m])[1..] == q[1..] + [m];
    }
  }

  lemma {:induction false} AppendRead(q: seq<Msg>)
    requires |Controls(q)| <= 1 && (|Controls(q)| == 1 ==> !Controls(q)[0].START?)
    ensures Reads(q + [READ]) == Reads(q) + 1 && Controls(q + [READ]) == Controls(q) && !LateRead(q + [READ])
  {
    if q == [] {
      assert q + [READ] == [READ] && [READ][1..] == [];
    } else {
      if q[0] != READ { assert Controls(q)[0] == q[0] && Controls(q[1..]) == []; }
      AppendRead(q[1..]);
      assert (q + [READ])[1..] == q[1..] + [READ];
    }
  }

  /** The cache thread is in the middle of the read that one read message stands for. */
  predicate HoldsRead(c: CachePc) {
    c == CGot(READ) || c == COverflow || c == CPrefetch || c == CAlloc || c == CRead || c == CGetStatus || c.CAdd? ||
    c == CRepost
  }

  function Tokens(s: State): nat {
    Reads(s.queue) + if HoldsRead(s.c) then 1 else 0
  }

  /** The control messages that have been posted and not yet processed. */
  function Pending(s: State): seq<Msg> {
    if s.c.CGot? && s.c.msg != READ then [s.c.msg] + Controls(s.queue) else Controls(s.queue)
  }

  predicate InParser(c: CachePc) {
    c == CPrefetch || c == CRead || c == CGetStatus
  }

  predicate DemuxInParser(d: DemuxPc) {
    d == DClearForceStop || d == DSeekTo || d.DClose? || d == DPrepare || d == DDirect
  }

  /** The request `m` of the demux thread is on its way: posted (behind the first start
      message, if that is allowed to be still unprocessed), processed but not answered, or
      answered. */
  ghost predicate Requested(s: State, m: Msg, startAllowed: bool) {
    || (s.sem == 0 && !s.c.CReply? && s.c != CDead &&
        (Pending(s) == [m] ||
         (startAllowed && Pending(s) == [START(false), m] && !s.cacheStarted && s.flushed == [])))
    || (s.sem == 0 && s.c == CReply(m == QUIT) && Pending(s) == [])
    || (s.sem == 1 && Pending(s) == [] && if m == QUIT then s.c == CDead else !s.c.CReply? && s.c != CDead)
  }

  ghost predicate NoRequest(s: State) {
    && s.sem == 0 && !s.c.CReply? && s.c != CDead
    && (Pending(s) == [] || (Pending(s) == [START(false)] && !s.cacheStarted && s.flushed == []))
  }

  /** The cache thread, if there is one, is stopped and will stay so until told to start. */
  ghost predicate Stopped(s: State) {
    s.sem == 0 && !s.c.CReply? && s.c != CDead && Pending(s) == [] && (s.c == NoThread || !s.cacheStarted)
  }

  /** The demux thread has no request outstanding and is not inside the parser. */
  predicate Unengaged(d: DemuxPc) {
    d == DIdle || d.DHolding? || d == DNonEmpty || d == DUnderflow || d.DSubmitted?
  }

  /** The demux thread runs without a cache thread. */
  predicate Alone(d: DemuxPc) {
    d.DClose? || d == DPrepare || d == DDirect || d == DDone
  }

  /** What the demux thread's position says about the pipeline. */
  ghost predicate Phase(s: State) {
    && s.d != DAborted
    && (Unengaged(s.d) ==> NoRequest(s))
    && (Alone(s.d) ==> Stopped(s) && s.c == NoThread)
    && (s.d == DClearForceStop || s.d == DSeekTo ==> Stopped(s) && s.cache == [])
    && (s.d == DSpawned ==> Stopped(s) && s.c != NoThread && s.flushed == [] && !s.eos && !s.ioError)
    && (s.d == DPauseWait ==> s.c != NoThread && Requested(s, PAUSE, true) && (Pending(s) == [] ==> !s.cacheStarted))
    && (s.d == DSeekWait ==>
          s.c != NoThread && Requested(s, SEEK, false) && !s.cacheStarted && (Pending(s) == [] ==> s.cache == []))
    && (s.d == DStartWait ==>
          s.c != NoThread && Requested(s, START(true), false) && s.flushed == [] &&
          (Pending(s) != [] ==> !s.cacheStarted))
    && (s.d.DQuitWait? ==> s.c != NoThread && Requested(s, QUIT, true) && (Pending(s) == [] ==> s.cache == []))
    && (s.d.DJoin? ==> s.sem == 0 && s.c == CDead && Pending(s) == [] && s.cache == [])
  }

  ghost predicate Pipeline(s: State) {
    && Phase(s)
    && Tokens(s) <= 1
    && !LateRead(s.queue)
    && (s.c.CGot? && s.c.msg.START? ==> Reads(s.queue) == 0)
    && (!s.cacheStarted ==> !HoldsRead(s.c) || s.c == CGot(READ))
    && (s.c == NoThread ==> Pending(s) == [] && s.cache == [])
    && (s.d == DNonEmpty || s.d.DHolding? || s.d.DSubmitted? ==> s.cache != [])
  }

  // ---------------------------------------------------------------- the pipeline in every step

  /** A new request of a demux thread that has none outstanding. */
  lemma RequestPosted(s: State, m: Msg, d: DemuxPc)
    requires NoRequest(s) && m != READ && !LateRead(s.queue)
    ensures
      var s' := s.(queue := s.queue + [m], d := d);
      Requested(s', m, true) && Tokens(s') == Tokens(s) && !LateRead(s'.queue) && Pending(s') != []
  {
    AppendControl(s.queue, m);
    var s' := s.(queue := s.queue + [m], d := d);
    if Pending(s) == [] {
      assert Pending(s') == [m];
    } else {
      assert Pending(s') == [START(false), m];
    }
  }

  lemma StopCommandPipeline(s: State, reason: Reason)
    requires Pipeline(s) && TakesCommand(s) && reason != Prepare
    ensures Pipeline(StopCommand(s, reason))
  {
    if s.c != NoThread { RequestPosted(s, QUIT, DQuitWait(reason)); }
  }

  lemma QuitRepliedPipeline(s: State)
    requires Pipeline(s) && s.d.DQuitWait? && s.sem > 0
    ensures Pipeline(QuitReplied(s))
  {
  }

  lemma JoinedPipeline(s: State)
    requires Pipeline(s) && s.d.DJoin?
    ensures Pipeline(Joined(s))
  {
  }

  lemma ClosedPipeline(s: State)
    requires Pipeline(s)
    ensures s.d.DClose? ==> Pipeline(Closed(s))
    ensures TakesCommand(s) && s.c == NoThread ==> Pipeline(PrepareCommand(s))
  {
  }

  lemma PreparedPipeline(s: State, ok: bool, netStream: bool, leftOpen: bool)
    requires Pipeline(s) && s.d == DPrepare
    ensures Pipeline(Prepared(s, ok, netStream, leftOpen))
  {
  }

  lemma StartPostedPipeline(s: State)
    requires Pipeline(s) && s.d == DSpawned
    ensures Pipeline(StartPosted(s))
  {
    AppendControl(s.queue, START(false));
  }

  lemma SeekCommandPipeline(s: State, clear: bool)
    requires Pipeline(s) && TakesCommand(s)
    ensures Pipeline(SeekCommand(s, clear))
  {
    if s.c != NoThread { RequestPosted(s, PAUSE, DPauseWait); }
  }

  lemma PauseRepliedPipeline(s: State)
    requires Pipeline(s) && s.d == DPauseWait && s.sem > 0
    ensures Pipeline(PauseReplied(s))
  {
    AppendControl(s.queue, SEEK);
  }

  lemma SeekRepliedPipeline(s: State, clear: bool)
    requires Pipeline(s) && s.d == DSeekWait && s.sem > 0
    ensures Pipeline(SeekReplied(s, clear))
  {
    assert Stopped(SeekReplied(s, clear));
  }

  lemma ForceStopClearedPipeline(s: State)
    requires Pipeline(s) && s.d == DClearForceStop
    ensures Pipeline(ForceStopCleared(s))
  {
  }

  lemma StartRepliedPipeline(s: State)
    requires Pipeline(s) && s.d == DStartWait && s.sem > 0
    ensures Pipeline(StartReplied(s))
  {
    assert NoRequest(StartReplied(s));
  }

  /** The demux thread is done with the parser and tells a cache thread, if any, nothing. */
  lemma SeekIdlePipeline(s: State, s': State)
    requires Pipeline(s) && s.d == DSeekTo && s'.d == DIdle
    requires s'.c == s.c && s'.queue == s.queue && s'.sem == s.sem && s'.cacheStarted == s.cacheStarted &&
             s'.cache == s.cache
    ensures Pipeline(s')
  {
    assert NoRequest(s');
  }

  lemma SeekRestartPipeline(s: State, s': State)
    requires Pipeline(s) && s.d == DSeekTo && s.c != NoThread && s'.d == DStartWait
    requires s'.c == s.c && s'.queue == s.queue + [START(true)] && s'.sem == s.sem && s'.cacheStarted == s.cacheStarted
    requires s'.cache == s.cache && s'.flushed == []
    ensures Pipeline(s')
  {
    AppendControl(s.queue, START(true));
    assert Stopped(s) && !s.cacheStarted;
    assert Pending(s') == [START(true)] && Tokens(s') == Tokens(s);
    assert Requested(s', START(true), false);
  }

  lemma SeekDonePipeline(s: State, ok: bool)
    requires Pipeline(s) && s.d == DSeekTo
    ensures Pipeline(SeekDone(s, ok))
  {
    if ok && s.c != NoThread {
      SeekRestartPipeline(s, SeekDone(s, ok));
    } else {
      SeekIdlePipeline(s, SeekDone(s, ok));
    }
  }

  lemma ReadCommandPipeline(s: State)
    requires Pipeline(s) && TakesCommand(s)
    ensures Pipeline(ReadCommand(s))
  {
    if s.c == NoThread {
      assert Stopped(ReadCommand(s));
    } else {
      assert NoRequest(ReadCommand(s));
    }
  }

  lemma FetchPipeline(s: State)
    requires Pipeline(s)
    ensures s.d == DUnderflow ==> Pipeline(EosTested(s))
    ensures s.d == DNonEmpty ==> Pipeline(FrameFetched(s))
  {
  }

  lemma SubmissionPipeline(s: State)
    requires Pipeline(s)
    ensures s.d.DHolding? ==> Pipeline(FrameSubmitted(s))
    ensures s.d.DSubmitted? ==> Pipeline(FrameDropped(s))
  {
  }

  lemma DirectReadPipeline(s: State, failed: bool, ioErr: bool)
    requires Pipeline(s) && s.d == DDirect
    ensures Pipeline(DirectReadDone(s, failed, ioErr))
  {
  }

  lemma MessageTakenPipeline(s: State)
    requires Pipeline(s) && Listens(s.c) && s.queue != []
    ensures Pipeline(MessageTaken(s))
  {
  }

  /** Processing the start message turns it into a read message; the rest stays pending. */
  lemma StartTurnsIntoRead(s: State)
    requires s.c.CGot? && s.c.msg.START? && Reads(s.queue) == 0
    requires |Controls(s.queue)| <= 1 && (|Controls(s.queue)| == 1 ==> !Controls(s.queue)[0].START?)
    ensures
      var s' := StartProcessed(s, s.c.msg.reply);
      Pending(s) == [s.c.msg] + Pending(s') && Tokens(s') == 1 && !LateRead(s'.queue)
  {
    AppendRead(s.queue);
  }

  /** Behind a start message at most one request is pending, and no other start message. */
  lemma StartContext(s: State)
    requires Pipeline(s) && s.c.CGot? && s.c.msg.START?
    ensures |Controls(s.queue)| <= 1 && (|Controls(s.queue)| == 1 ==> !Controls(s.queue)[0].START?)
    ensures Reads(s.queue) == 0 && s.sem == 0
    ensures if s.d == DStartWait then s.c.msg.reply && Controls(s.queue) == []
            else !s.c.msg.reply && (Unengaged(s.d) || s.d == DPauseWait || s.d.DQuitWait?)
    ensures Unengaged(s.d) ==> Controls(s.queue) == []
    ensures s.d == DPauseWait ==> Controls(s.queue) == [PAUSE]
    ensures s.d.DQuitWait? ==> Controls(s.queue) == [QUIT]
  {
    assert Pending(s)[0] == s.c.msg && Pending(s)[1..] == Controls(s.queue);
  }

  lemma StartProcessedPhase(s: State, s': State)
    requires Pipeline(s) && s.c.CGot? && s.c.msg.START? && s' == StartProcessed(s, s.c.msg.reply)
    requires Pending(s) == [s.c.msg] + Pending(s')
    ensures Phase(s')
  {
    StartContext(s);
    assert Pending(s)[1..] == Controls(s.queue) == Pending(s');
  }

  lemma StartProcessedPipeline(s: State)
    requires Pipeline(s) && s.c.CGot? && s.c.msg.START?
    ensures Pipeline(StartProcessed(s, s.c.msg.reply))
  {
    StartContext(s);
    StartTurnsIntoRead(s);
    StartProcessedPhase(s, StartProcessed(s, s.c.msg.reply));
  }

  lemma PauseProcessedPipeline(s: State)
    requires Pipeline(s) && s.c == CGot(PAUSE)
    ensures Pipeline(PauseProcessed(s))
  {
    assert Pending(s)[0] == s.c.msg && Pending(s)[1..] == Controls(s.queue);
  }

  lemma FlushProcessedPipeline(s: State, quit: bool)
    requires Pipeline(s) && s.c == CGot(if quit then QUIT else SEEK)
    ensures Pipeline(FlushProcessed(s, quit))
  {
    assert Pending(s)[0] == s.c.msg && Pending(s)[1..] == Controls(s.queue);
  }

  lemma ReadProcessedPipeline(s: State, overflow: bool)
    requires Pipeline(s) && s.c == CGot(READ)
    ensures Pipeline(ReadProcessed(s, overflow))
  {
  }

  lemma ReplyPostedPipeline(s: State)
    requires Pipeline(s) && s.c.CReply?
    ensures Pipeline(ReplyPosted(s))
  {
  }

  /** While the thread is started, at most one request is pending, and it is no start. */
  lemma RepostContext(s: State)
    requires Pipeline(s) && s.c == CRepost
    ensures s.cacheStarted && |Controls(s.queue)| <= 1 && (|Controls(s.queue)| == 1 ==> !Controls(s.queue)[0].START?)
  {
    assert Pending(s) == Controls(s.queue);
  }

  lemma ReadPostedPipeline(s: State)
    requires Pipeline(s) && s.c == CRepost
    ensures Pipeline(ReadPosted(s))
  {
    RepostContext(s);
    AppendRead(s.queue);
    var s' := ReadPosted(s);
    assert Pending(s') == Pending(s) && Tokens(s') == Tokens(s);
  }

  lemma PrefetchPipeline(s: State, ok: bool, getStatus: bool)
    requires Pipeline(s)
    ensures s.c == COverflow ==> Pipeline(OverflowTimedOut(s))
    ensures s.c == CPrefetch ==> Pipeline(PrefetchDone(s, ok, getStatus))
    ensures s.c == CAlloc ==> Pipeline(Allocated(s))
  {
  }

  lemma ReadDonePipeline(s: State, ok: bool, getStatus: bool, data: int)
    requires Pipeline(s) && s.c == CRead
    ensures Pipeline(ReadDone(s, ok, getStatus, data))
  {
  }

  lemma StatusDonePipeline(s: State, ioErr: bool)
    requires Pipeline(s)
    ensures s.c == CGetStatus ==> Pipeline(StatusDone(s, ioErr))
    ensures s.c.CAdd? ==> Pipeline(FrameAdded(s))
  {
  }

  // ---------------------------------------------------------------- the frames

  /** The cached frames that have not been submitted yet. */
  function Rest(s: State): seq<Frame> {
    if s.d.DSubmitted? && s.cache != [] then s.cache[1..] else s.cache
  }

  function Hand(s: State): seq<Frame> {
    if s.c.CAdd? then [s.c.frame] else []
  }

  /** Since the parser was last positioned, every frame read was submitted, dropped by a
      flush, is cached, or is in the cache thread's hand, in this order. */
  ghost predicate Ledger(s: State) {
    && s.read == s.submitted + s.flushed + Rest(s) + Hand(s)
    && (forall i :: 0 <= i < |s.read| ==> s.read[i].epoch == s.epoch)
    && (s.flushed != [] ==>
          s.cache == [] && (!s.cacheStarted || s.c == CReply(true) || s.c == CDead || s.c == NoThread))
    && (s.d.DHolding? || s.d.DSubmitted? ==> s.cache != [] && s.cache[0] == s.d.frame)
    && (s.c != NoThread && (s.eos || s.ioError) ==> Tokens(s) == 0 && (Pending(s) != [] ==> !Pending(s)[0].START?))
  }

  /** A step that moves only the demux thread, and takes or leaves a semaphore unit. */
  lemma MovedLedger(s: State, d: DemuxPc, sem: nat, parserOpen: bool)
    requires Ledger(s) && !s.d.DSubmitted? && !d.DHolding? && !d.DSubmitted?
    ensures Ledger(s.(d := d, sem := sem, parserOpen := parserOpen))
  {
  }

  lemma PostedLedger(s: State, m: Msg)
    requires Ledger(s) && m != READ && (m.START? ==> !s.eos && !s.ioError)
    ensures Ledger(s.(queue := s.queue + [m]))
  {
    AppendControl(s.queue, m);
  }

  lemma StopCommandLedger(s: State, reason: Reason)
    requires Ledger(s) && !s.d.DSubmitted?
    ensures Ledger(StopCommand(s, reason))
  {
    PostedLedger(s, QUIT);
    MovedLedger(s.(queue := s.queue + [QUIT]), DQuitWait(reason), s.sem, s.parserOpen);
    MovedLedger(s, ShutDown(s, reason).d, s.sem, s.parserOpen);
  }

  lemma JoinedLedger(s: State)
    requires Ledger(s) && s.d.DJoin? && s.c == CDead
    ensures Ledger(Joined(s))
  {
  }

  lemma PreparedLedger(s: State, ok: bool, netStream: bool, leftOpen: bool)
    requires Ledger(s) && !s.d.DSubmitted? && s.cache == [] && s.c == NoThread
    ensures Ledger(Prepared(s, ok, netStream, leftOpen))
  {
  }

  lemma SeekCommandLedger(s: State, clear: bool)
    requires Ledger(s) && !s.d.DSubmitted?
    ensures Ledger(SeekCommand(s, clear))
  {
    PostedLedger(s, PAUSE);
    MovedLedger(s.(queue := s.queue + [PAUSE]), DPauseWait, s.sem, s.parserOpen);
    MovedLedger(s, SeekCommand(s, clear).d, s.sem, s.parserOpen);
  }

  lemma PauseRepliedLedger(s: State)
    requires Ledger(s) && !s.d.DSubmitted? && s.sem > 0
    ensures Ledger(PauseReplied(s))
  {
    PostedLedger(s, SEEK);
    MovedLedger(s.(queue := s.queue + [SEEK]), DSeekWait, s.sem - 1, s.parserOpen);
  }

  lemma StartPostedLedger(s: State)
    requires Ledger(s) && !s.d.DSubmitted? && !s.eos && !s.ioError
    ensures Ledger(StartPosted(s))
  {
    PostedLedger(s, START(false));
    MovedLedger(s.(queue := s.queue + [START(false)]), DIdle, s.sem, s.parserOpen);
  }

  lemma SeekDoneLedger(s: State, ok: bool)
    requires Ledger(s) && !s.d.DSubmitted? && s.cache == [] && !s.c.CAdd?
    ensures Ledger(SeekDone(s, ok))
  {
  }

  lemma SubmissionLedger(s: State)
    requires Ledger(s) && s.d.DHolding?
    ensures Ledger(FrameSubmitted(s))
  {
    assert s.cache == [s.d.frame] + s.cache[1..];
    assert s.flushed == [];
  }

  lemma DirectReadLedger(s: State, failed: bool, ioErr: bool)
    requires Ledger(s) && s.d == DDirect && s.c == NoThread
    ensures Ledger(DirectReadDone(s, failed, ioErr))
  {
  }

  lemma DropLedger(s: State)
    requires Ledger(s) && s.d.DSubmitted?
    ensures Ledger(FrameDropped(s))
  {
  }

  lemma FetchLedger(s: State)
    requires Ledger(s) && s.d == DNonEmpty && s.cache != []
    ensures Ledger(FrameFetched(s))
  {
  }

  lemma MessageTakenLedger(s: State)
    requires Pipeline(s) && Ledger(s) && Listens(s.c) && s.queue != []
    ensures Ledger(MessageTaken(s))
  {
  }

  lemma ReplyPostedLedger(s: State)
    requires Ledger(s) && s.c.CReply?
    ensures Ledger(ReplyPosted(s))
  {
  }

  lemma ControlProcessedLedger(s: State)
    requires Pipeline(s) && Ledger(s)
    ensures s.c.CGot? && s.c.msg.START? ==> Ledger(StartProcessed(s, s.c.msg.reply))
    ensures s.c == CGot(PAUSE) ==> Ledger(PauseProcessed(s))
  {
    if s.c.CGot? && s.c.msg != READ {
      assert Pending(s)[0] == s.c.msg && Pending(s)[1..] == Controls(s.queue);
    }
  }

  /** When a seek or quit message is processed, the demux thread waits for its reply and
      nothing else is pending. */
  lemma FlushContext(s: State)
    requires Pipeline(s) && (s.c == CGot(SEEK) || s.c == CGot(QUIT))
    ensures !s.d.DHolding? && !s.d.DSubmitted? && Controls(s.queue) == []
    ensures s.c == CGot(SEEK) ==> !s.cacheStarted
  {
    assert Pending(s)[0] == s.c.msg && Pending(s)[1..] == Controls(s.queue);
  }

  lemma FlushProcessedLedger(s: State, quit: bool)
    requires Ledger(s) && s.c == CGot(if quit then QUIT else SEEK)
    requires !s.d.DHolding? && !s.d.DSubmitted? && Controls(s.queue) == [] && (!quit ==> !s.cacheStarted)
    ensures Ledger(FlushProcessed(s, quit))
  {
    assert s.read == s.submitted + (s.flushed + s.cache) + [] + [];
  }

  lemma ReadLedger(s: State, ok: bool, getStatus: bool, overflow: bool)
    requires Ledger(s)
    ensures s.c == CGot(READ) ==> Ledger(ReadProcessed(s, overflow))
    ensures s.c == COverflow ==> Ledger(OverflowTimedOut(s))
    ensures s.c == CPrefetch ==> Ledger(PrefetchDone(s, ok, getStatus))
    ensures s.c == CAlloc ==> Ledger(Allocated(s))
  {
  }

  lemma ReadDoneLedger(s: State, ok: bool, getStatus: bool, data: int)
    requires Pipeline(s) && Ledger(s) && s.c == CRead
    ensures Ledger(ReadDone(s, ok, getStatus, data))
  {
  }

  lemma AddLedger(s: State)
    requires Pipeline(s) && Ledger(s) && s.c.CAdd?
    ensures Ledger(FrameAdded(s))
  {
  }

  lemma StatusLedger(s: State, ioErr: bool)
    requires Pipeline(s) && Ledger(s) && s.c == CGetStatus
    ensures Ledger(StatusDone(s, ioErr))
  {
  }

  lemma ReadPostedLedger(s: State)
    requires Pipeline(s) && Ledger(s) && s.c == CRepost
    ensures Ledger(ReadPosted(s))
  {
  }

  // ---------------------------------------------------------------- runs

  ghost predicate Inv(s: State) {
    Pipeline(s) && Ledger(s)
  }

  lemma CommandsKeepInv(s: State, reason: Reason, clear: bool)
    requires Inv(s) && TakesCommand(s)
    ensures reason != Prepare ==> Inv(StopCommand(s, reason))
    ensures Inv(SeekCommand(s, clear))
  {
    if reason != Prepare {
      StopCommandPipeline(s, reason);
      StopCommandLedger(s, reason);
    }
    SeekCommandPipeline(s, clear);
    SeekCommandLedger(s, clear);
  }

  lemma QuitRepliedKeepsInv(s: State)
    requires Inv(s) && s.d.DQuitWait? && s.sem > 0
    ensures Inv(QuitReplied(s))
  {
    QuitRepliedPipeline(s);
    MovedLedger(s, QuitReplied(s).d, s.sem - 1, s.parserOpen);
  }

  lemma ClosedKeepsInv(s: State)
    requires Inv(s)
    ensures s.d.DClose? ==> Inv(Closed(s))
    ensures TakesCommand(s) && s.c == NoThread ==> Inv(PrepareCommand(s))
  {
    ClosedPipeline(s);
    if s.d.DClose? { MovedLedger(s, Closed(s).d, s.sem, false); }
    if TakesCommand(s) { MovedLedger(s, PrepareCommand(s).d, s.sem, s.parserOpen); }
  }

  lemma PreparedKeepsInv(s: State, ok: bool, netStream: bool, leftOpen: bool)
    requires Inv(s) && s.d == DPrepare
    ensures Inv(Prepared(s, ok, netStream, leftOpen))
  {
    PreparedPipeline(s, ok, netStream, leftOpen);
    PreparedLedger(s, ok, netStream, leftOpen);
  }

  lemma JoinedKeepsInv(s: State)
    requires Inv(s)
    ensures s.d.DJoin? && s.c == CDead ==> Inv(Joined(s))
    ensures s.d == DSpawned ==> Inv(StartPosted(s))
  {
    if s.d.DJoin? && s.c == CDead {
      JoinedPipeline(s);
      JoinedLedger(s);
    } else if s.d == DSpawned {
      StartPostedPipeline(s);
      StartPostedLedger(s);
    }
  }

  lemma SourceStepsKeepInv(s: State, s': State)
    requires Inv(s) && SourceStep(s, s')
    ensures Inv(s')
  {
    if reason :| TakesCommand(s) && reason != Prepare && s' == StopCommand(s, reason) {
      CommandsKeepInv(s, reason, true);
    } else if s.d.DQuitWait? {
      QuitRepliedKeepsInv(s);
    } else if s.d.DClose? || TakesCommand(s) {
      ClosedKeepsInv(s);
    } else if ok, netStream, leftOpen :| s.d == DPrepare && s' == Prepared(s, ok, netStream, leftOpen) {
      PreparedKeepsInv(s, ok, netStream, leftOpen);
    } else {
      JoinedKeepsInv(s);
    }
  }

  lemma PauseRepliedKeepsInv(s: State)
    requires Inv(s) && s.d == DPauseWait && s.sem > 0
    ensures Inv(PauseReplied(s))
  {
    PauseRepliedPipeline(s);
    PauseRepliedLedger(s);
  }

  lemma SeekRepliedKeepsInv(s: State, clear: bool)
    requires Inv(s) && s.d == DSeekWait && s.sem > 0
    ensures Inv(SeekReplied(s, clear))
  {
    SeekRepliedPipeline(s, clear);
    MovedLedger(s, SeekReplied(s, clear).d, s.sem - 1, s.parserOpen);
  }

  lemma ForceStopClearedKeepsInv(s: State)
    requires Inv(s) && s.d == DClearForceStop
    ensures Inv(ForceStopCleared(s))
  {
    ForceStopClearedPipeline(s);
    MovedLedger(s, DSeekTo, s.sem, s.parserOpen);
  }

  lemma StartRepliedKeepsInv(s: State)
    requires Inv(s) && s.d == DStartWait && s.sem > 0
    ensures Inv(StartReplied(s))
  {
    StartRepliedPipeline(s);
    MovedLedger(s, DIdle, s.sem - 1, s.parserOpen);
  }

  lemma SeekDoneKeepsInv(s: State, ok: bool)
    requires Inv(s) && s.d == DSeekTo
    ensures Inv(SeekDone(s, ok))
  {
    SeekDonePipeline(s, ok);
    SeekDoneLedger(s, ok);
  }

  lemma SeekStepsKeepInv(s: State, s': State)
    requires Inv(s) && SeekStep(s, s')
    ensures Inv(s')
  {
    if clear :| TakesCommand(s) && s' == SeekCommand(s, clear) {
      CommandsKeepInv(s, Stop, clear);
    } else if s.d == DPauseWait {
      PauseRepliedKeepsInv(s);
    } else if clear :| s.d == DSeekWait && s' == SeekReplied(s, clear) {
      SeekRepliedKeepsInv(s, clear);
    } else if ok :| s.d == DSeekTo && s' == SeekDone(s, ok) {
      SeekDoneKeepsInv(s, ok);
    } else if s.d == DClearForceStop {
      ForceStopClearedKeepsInv(s);
    } else {
      StartRepliedKeepsInv(s);
    }
  }

  lemma ReadCommandKeepsInv(s: State)
    requires Inv(s) && TakesCommand(s)
    ensures Inv(ReadCommand(s))
  {
    ReadCommandPipeline(s);
    MovedLedger(s, ReadCommand(s).d, s.sem, s.parserOpen);
  }

  lemma FetchKeepsInv(s: State)
    requires Inv(s)
    ensures s.d == DUnderflow ==> Inv(EosTested(s))
    ensures s.d == DNonEmpty ==> Inv(FrameFetched(s))
  {
    FetchPipeline(s);
    if s.d == DUnderflow { MovedLedger(s, DIdle, s.sem, s.parserOpen); }
    if s.d == DNonEmpty { FetchLedger(s); }
  }

  lemma SubmissionKeepsInv(s: State)
    requires Inv(s)
    ensures s.d.DHolding? ==> Inv(FrameSubmitted(s))
    ensures s.d.DSubmitted? ==> Inv(FrameDropped(s))
  {
    SubmissionPipeline(s);
    if s.d.DHolding? { SubmissionLedger(s); }
    if s.d.DSubmitted? { DropLedger(s); }
  }

  lemma ReadStepsKeepInv(s: State, s': State)
    requires Inv(s) && ReadStep(s, s')
    ensures Inv(s')
  {
    if TakesCommand(s) && s' == ReadCommand(s) {
      ReadCommandKeepsInv(s);
    } else if failed, ioErr :| s.d == DDirect && s' == DirectReadDone(s, failed, ioErr) {
      DirectReadPipeline(s, failed, ioErr);
      DirectReadLedger(s, failed, ioErr);
    } else {
      FetchKeepsInv(s);
      SubmissionKeepsInv(s);
    }
  }

  lemma DispatchKeepsInv(s: State, overflow: bool)
    requires Inv(s) && s.c.CGot?
    ensures Inv(Dispatched(s, overflow))
  {
    match s.c.msg
    case START(reply) => StartProcessedPipeline(s); ControlProcessedLedger(s);
    case PAUSE => PauseProcessedPipeline(s); ControlProcessedLedger(s);
    case SEEK => FlushContext(s); FlushProcessedPipeline(s, false); FlushProcessedLedger(s, false);
    case QUIT => FlushContext(s); FlushProcessedPipeline(s, true); FlushProcessedLedger(s, true);
    case READ => ReadProcessedPipeline(s, overflow); ReadLedger(s, true, true, overflow);
  }

  lemma CacheStepKeepsInv(s: State, s': State)
    requires Inv(s) && CacheStep(s, s')
    ensures Inv(s')
  {
    if Listens(s.c) && s.queue != [] && s' == MessageTaken(s) {
      MessageTakenPipeline(s);
      MessageTakenLedger(s);
    } else if overflow :| s.c.CGot? && s' == Dispatched(s, overflow) {
      DispatchKeepsInv(s, overflow);
    } else if s.c.CReply? {
      ReplyPostedPipeline(s);
      ReplyPostedLedger(s);
    } else if s.c == COverflow || s.c == CAlloc {
      PrefetchPipeline(s, true, true);
      ReadLedger(s, true, true, true);
    } else if ok, getStatus :| s.c == CPrefetch && s' == PrefetchDone(s, ok, getStatus) {
      PrefetchPipeline(s, ok, getStatus);
      ReadLedger(s, ok, getStatus, true);
    } else if ok, getStatus, data :| s.c == CRead && s' == ReadDone(s, ok, getStatus, data) {
      ReadDonePipeline(s, ok, getStatus, data);
      ReadDoneLedger(s, ok, getStatus, data);
    } else if ioErr :| s.c == CGetStatus && s' == StatusDone(s, ioErr) {
      StatusDonePipeline(s, ioErr);
      StatusLedger(s, ioErr);
    } else if s.c.CAdd? {
      StatusDonePipeline(s, true);
      AddLedger(s);
    } else {
      ReadPostedPipeline(s);
      ReadPostedLedger(s);
    }
  }

  ghost predicate Step(s: State, s': State) {
    SourceStep(s, s') || SeekStep(s, s') || ReadStep(s, s') || CacheStep(s, s')
  }

  lemma StepKeepsInv(s: State, s': State)
    requires Inv(s) && Step(s, s')
    ensures Inv(s')
  {
    if SourceStep(s, s') { SourceStepsKeepInv(s, s'); }
    else if SeekStep(s, s') { SeekStepsKeepInv(s, s'); }
    else if ReadStep(s, s') { ReadStepsKeepInv(s, s'); }
    else { CacheStepKeepsInv(s, s'); }
  }

  ghost predicate IsRun(run: seq<State>) {
    && run != [] && run[0] == Start()
    && forall i :: 0 <= i < |run| - 1 ==> Step(run[i], run[i + 1])
  }

  lemma {:induction false} RunKeepsInv(run: seq<State>, i: nat)
    requires IsRun(run) && i < |run|
    ensures Inv(run[i])
  {
    if i > 0 {
      RunKeepsInv(run, i - 1);
      assert Step(run[i - 1], run[i - 1 + 1]);
      StepKeepsInv(run[i - 1], run[i]);
    }
  }

  // ---------------------------------------------------------------- the read loop goes on

  /** The cache thread is started, was told nothing else, and has met no end of stream, no
      error and no failure that it ignored. */
  ghost predicate Working(s: State) {
    && s.c != NoThread && s.c != CDead && s.c != CReply(true) && s.cacheStarted && Pending(s) == []
    && !s.eos && !s.ioError && !s.silent
  }

  /** Then the read message is on its way, or the thread works on it. */
  ghost predicate Progress(s: State) {
    Working(s) ==> Tokens(s) == 1
  }

  /** What a step of the demux thread can do to the read loop: nothing, or post a control
      message, or it concerns a thread that is not started. */
  ghost predicate LeavesReads(s: State, s': State) {
    s'.c == NoThread || !s'.cacheStarted || SameReads(s, s') || PostsControl(s, s')
  }

  ghost predicate SameReads(s: State, s': State) {
    && s'.c == s.c && s'.cacheStarted == s.cacheStarted && s'.queue == s.queue
    && s'.eos == s.eos && s'.ioError == s.ioError && s'.silent == s.silent
  }

  ghost predicate PostsControl(s: State, s': State) {
    s'.c == s.c && |s'.queue| > 0 && s'.queue[|s'.queue| - 1] != READ &&
    s'.queue == s.queue + [s'.queue[|s'.queue| - 1]]
  }

  lemma CommandsLeaveReads(s: State, reason: Reason, clear: bool)
    ensures LeavesReads(s, StopCommand(s, reason)) && LeavesReads(s, SeekCommand(s, clear)) &&
            LeavesReads(s, ReadCommand(s))
  {
  }

  lemma SourcesLeaveReads(s: State, ok: bool, netStream: bool, leftOpen: bool)
    ensures s.d.DQuitWait? && s.sem > 0 ==> LeavesReads(s, QuitReplied(s))
    ensures s.d.DJoin? ==> LeavesReads(s, Joined(s))
    ensures s.d.DClose? ==> LeavesReads(s, Closed(s))
    ensures LeavesReads(s, PrepareCommand(s)) && LeavesReads(s, StartPosted(s))
    ensures s.c == NoThread ==> LeavesReads(s, Prepared(s, ok, netStream, leftOpen))
  {
  }

  lemma SourceStepsLeaveReads(s: State, s': State)
    requires SourceStep(s, s') && (Alone(s.d) ==> s.c == NoThread)
    ensures LeavesReads(s, s')
  {
    if reason :| TakesCommand(s) && reason != Prepare && s' == StopCommand(s, reason) {
      CommandsLeaveReads(s, reason, true);
    } else if ok, netStream, leftOpen :| s.d == DPrepare && s' == Prepared(s, ok, netStream, leftOpen) {
      SourcesLeaveReads(s, ok, netStream, leftOpen);
    } else {
      SourcesLeaveReads(s, true, true, true);
    }
  }

  lemma SeekAnswersLeaveReads(s: State, clear: bool, ok: bool)
    ensures s.sem > 0 ==>
              LeavesReads(s, PauseReplied(s)) && LeavesReads(s, SeekReplied(s, clear)) &&
              LeavesReads(s, StartReplied(s))
    ensures LeavesReads(s, ForceStopCleared(s)) && LeavesReads(s, SeekDone(s, ok))
  {
  }

  lemma SeekStepsLeaveReads(s: State, s': State)
    requires SeekStep(s, s')
    ensures LeavesReads(s, s')
  {
    if clear :| TakesCommand(s) && s' == SeekCommand(s, clear) {
      CommandsLeaveReads(s, Stop, clear);
    } else if clear :| s.d == DSeekWait && s.sem > 0 && s' == SeekReplied(s, clear) {
      SeekAnswersLeaveReads(s, clear, true);
    } else if ok :| s.d == DSeekTo && s' == SeekDone(s, ok) {
      SeekAnswersLeaveReads(s, true, ok);
    } else {
      SeekAnswersLeaveReads(s, true, true);
    }
  }

  lemma FramesLeaveReads(s: State, failed: bool, ioErr: bool)
    ensures LeavesReads(s, EosTested(s)) && LeavesReads(s, FrameFetched(s)) && LeavesReads(s, FrameDropped(s))
    ensures s.d.DHolding? ==> LeavesReads(s, FrameSubmitted(s))
    ensures s.c == NoThread ==> LeavesReads(s, DirectReadDone(s, failed, ioErr))
  {
  }

  lemma ReadStepsLeaveReads(s: State, s': State)
    requires ReadStep(s, s') && (Alone(s.d) ==> s.c == NoThread)
    ensures LeavesReads(s, s')
  {
    CommandsLeaveReads(s, Stop, true);
    if failed, ioErr :| s.d == DDirect && s' == DirectReadDone(s, failed, ioErr) {
      FramesLeaveReads(s, failed, ioErr);
    } else {
      FramesLeaveReads(s, true, true);
    }
  }

  lemma LeftReadsProgress(s: State, s': State)
    requires Progress(s) && LeavesReads(s, s')
    ensures Progress(s')
  {
    if PostsControl(s, s') { AppendControl(s.queue, s'.queue[|s'.queue| - 1]); }
  }

  lemma MessageTakenProgress(s: State)
    requires Pipeline(s) && Progress(s) && Listens(s.c) && s.queue != []
    ensures Progress(MessageTaken(s))
  {
  }

  lemma DispatchedProgress(s: State, overflow: bool)
    requires Inv(s) && Progress(s) && s.c.CGot?
    ensures Progress(Dispatched(s, overflow))
  {
    if s.c.msg.START? {
      StartContext(s);
      StartTurnsIntoRead(s);
    }
    if s.c.msg == SEEK { FlushContext(s); }
  }

  lemma ReadPostedProgress(s: State)
    requires Pipeline(s) && Progress(s) && s.c == CRepost
    ensures Progress(ReadPosted(s))
  {
    AppendOneRead(s.queue);
  }

  lemma {:induction false} AppendOneRead(q: seq<Msg>)
    ensures Reads(q + [READ]) == Reads(q) + 1 && Controls(q + [READ]) == Controls(q)
  {
    if q == [] {
      assert q + [READ] == [READ] && [READ][1..] == [];
    } else {
      AppendOneRead(q[1..]);
      assert (q + [READ])[1..] == q[1..] + [READ];
    }
  }

  lemma CacheStepsKeepProgress(s: State, s': State)
    requires Inv(s) && Progress(s) && CacheStep(s, s')
    ensures Progress(s')
  {
    if Listens(s.c) && s.queue != [] && s' == MessageTaken(s) {
      MessageTakenProgress(s);
    } else if overflow :| s.c.CGot? && s' == Dispatched(s, overflow) {
      DispatchedProgress(s, overflow);
    } else if s.c == CRepost {
      ReadPostedProgress(s);
    }
  }

  lemma {:induction false} RunKeepsProgress(run: seq<State>, i: nat)
    requires IsRun(run) && i < |run|
    ensures Progress(run[i])
  {
    if i > 0 {
      RunKeepsProgress(run, i - 1);
      RunKeepsInv(run, i - 1);
      var s, s' := run[i - 1], run[i];
      assert Alone(s.d) ==> s.c == NoThread;
      assert Step(run[i - 1], run[i - 1 + 1]);
      if CacheStep(s, s') {
        CacheStepsKeepProgress(s, s');
      } else {
        if SourceStep(s, s') { SourceStepsLeaveReads(s, s'); }
        else if SeekStep(s, s') { SeekStepsLeaveReads(s, s'); }
        else { ReadStepsLeaveReads(s, s'); }
        LeftReadsProgress(s, s');
      }
    }
  }

  /** The read loop never stalls: in every run a working cache thread has exactly one read
      message queued or in hand, so one that waits on an empty queue has met the end of the
      stream, an error, or a failed read during a seek or stop. */
  lemma CacheLoopNeverStalls(run: seq<State>, i: nat)
    requires IsRun(run) && i < |run|
    ensures Working(run[i]) ==> Tokens(run[i]) == 1
    ensures run[i].c == CWait && run[i].queue == [] && run[i].cacheStarted ==>
              run[i].eos || run[i].ioError || run[i].silent
  {
    RunKeepsProgress(run, i);
  }

  /** Parser exclusion: in no run are the two threads inside the parser at the same time,
      and the demux thread never finds a missing frame in a cache it saw non-empty. */
  lemma ParserExclusion(run: seq<State>, i: nat)
    requires IsRun(run) && i < |run|
    ensures !(InParser(run[i].c) && DemuxInParser(run[i].d))
    ensures run[i].d != DAborted
  {
    RunKeepsInv(run, i);
  }

  /** The cache thread's queue never holds more than one read message (counting the one
      being worked on) nor more than three messages, far from its capacity of 64. */
  lemma QueueStaysShort(run: seq<State>, i: nat)
    requires IsRun(run) && i < |run|
    ensures Tokens(run[i]) <= 1 && |run[i].queue| <= 3
  {
    RunKeepsInv(run, i);
    assert |Pending(run[i])| <= 2;
  }

  /** No stale frame: what was submitted since the parser was last positioned is, in order,
      a prefix of what the cache thread read since then, so none of it is older than the
      last successful seek; and the node the demux thread works on is still the cache's
      first one when it drops it. */
  lemma NoStaleFrame(run: seq<State>, i: nat)
    requires IsRun(run) && i < |run|
    ensures run[i].submitted <= run[i].read
    ensures forall k :: 0 <= k < |run[i].read| ==> run[i].read[k].epoch == run[i].epoch
    ensures run[i].d.DHolding? || run[i].d.DSubmitted? ==> run[i].cache != [] && run[i].cache[0] == run[i].d.frame
  {
    RunKeepsInv(run, i);
  }

  /** End of stream: when the demux thread is about to report it, every frame that was read
      has been submitted or dropped by a seek if and only if the cache is (still) empty. */
  lemma EosReportsAllFrames(run: seq<State>, i: nat)
    requires IsRun(run) && i < |run| && run[i].d == DUnderflow && run[i].eos
    ensures run[i].read == run[i].submitted + run[i].flushed <==> run[i].cache == []
  {
    RunKeepsInv(run, i);
    var s := run[i];
    assert Hand(s) == [];
    assert |s.read| == |s.submitted| + |s.flushed| + |s.cache|;
  }

  /** After the end of the stream or an error the cache thread waits on an empty queue until
      the demux thread tells it something: it has no step to take. */
  lemma EndedThreadIsIdle(s: State)
    requires Inv(s) && Unengaged(s.d) && s.c != NoThread && (s.eos || s.ioError)
    ensures s.c == CWait && s.queue == []
  {
    assert Tokens(s) == 0 && Pending(s) == [];
  }

  lemma ReportIsNext(s: State, s': State)
    requires s.d == DUnderflow && s.c == CWait && s.queue == [] && Step(s, s')
    ensures s' == EosTested(s)
  {
    assert !SourceStep(s, s') && !SeekStep(s, s') && !CacheStep(s, s');
  }

  /** So a report is complete whenever the flag was already set when a read command found the
      cache empty: the report is then the next step of the run, and testing the flag first
      would close the gap between the two tests. */
  lemma EosSeenFirstMissesNothing(run: seq<State>, i: nat)
    requires IsRun(run) && 0 < i < |run| && run[i] == ReadCommand(run[i - 1]) && run[i].d == DUnderflow && run[i].eos
    ensures run[i].cache == [] && run[i].read == run[i].submitted + run[i].flushed
    ensures i + 1 < |run| ==> run[i + 1] == EosTested(run[i])
  {
    EosReportsAllFrames(run, i);
    RunKeepsInv(run, i);
    EndedThreadIsIdle(run[i]);
    if i + 1 < |run| { ReportIsNext(run[i], run[i + 1]); }
  }

  lemma Extend(run: seq<State>, s: State)
    requires IsRun(run) && Step(run[|run| - 1], s)
    ensures IsRun(run + [s])
  {
    var longer := run + [s];
    forall i | 0 <= i < |longer| - 1 ensures Step(longer[i], longer[i + 1]) {
      if i < |run| - 1 { assert Step(run[i], run[i + 1]); }
    }
  }

  /** A run in which a network stream was just opened and the demux thread has seen the
      still empty cache, while the cache thread is about to read. */
  lemma RunToUnderflow() returns (run: seq<State>)
    ensures IsRun(run)
    ensures run[|run| - 1] == State(DUnderflow, CGot(READ), true, [], 0, true, false, false, false, [], 1, [], [], [])
  {
    var s1 := Start().(d := DPrepare);
    var s2 := State(DSpawned, CWait, false, [], 0, true, false, false, false, [], 1, [], [], []);
    var s3 := s2.(d := DIdle, queue := [START(false)]);
    var s4 := s3.(c := CGot(START(false)), queue := []);
    var s5 := s4.(c := CWait, cacheStarted := true, queue := [READ]);
    var s6 := s5.(d := DUnderflow);
    var s7 := s6.(c := CGot(READ), queue := []);
    run := [Start()];
    assert s1 == PrepareCommand(Start());
    Extend(run, s1); run := run + [s1];
    assert s2 == Prepared(s1, true, true, true);
    Extend(run, s2); run := run + [s2];
    assert s3 == StartPosted(s2);
    Extend(run, s3); run := run + [s3];
    assert s4 == MessageTaken(s3);
    Extend(run, s4); run := run + [s4];
    assert s5 == Dispatched(s4, false);
    Extend(run, s5); run := run + [s5];
    assert s6 == ReadCommand(s5);
    Extend(run, s6); run := run + [s6];
    assert s7 == MessageTaken(s6);
    Extend(run, s7); run := run + [s7];
  }

  /** The cache can be non-empty by then: the test for an empty cache and the test of the
      end-of-stream flag are separate steps, and in between the cache thread can add the
      last frame and meet the end of the stream. That frame stays behind. */
  lemma EosCanLeaveAFrameBehind() returns (run: seq<State>)
    ensures IsRun(run)
    ensures var s := run[|run| - 1]; s.d == DUnderflow && s.eos && s.cache != [] && s.submitted == []
  {
    run := RunToUnderflow();
    var s7 := run[|run| - 1];
    var f := Frame(1, 0);
    var s8 := s7.(c := CPrefetch);
    var s8' := s8.(c := CAlloc);
    var s9 := s8.(c := CRead);
    var s10 := s9.(c := CAdd(f), read := [f]);
    var s11 := s10.(c := CRepost, cache := [f]);
    assert s8 == Dispatched(s7, false);
    Extend(run, s8); run := run + [s8];
    assert s8' == PrefetchDone(s8, true, true);
    Extend(run, s8'); run := run + [s8'];
    assert s9 == Allocated(s8');
    Extend(run, s9); run := run + [s9];
    assert s10 == ReadDone(s9, true, true, 0);
    Extend(run, s10); run := run + [s10];
    assert s11 == FrameAdded(s10);
    Extend(run, s11); run := run + [s11];
    run := MeetEndOfStream(run);
  }

  lemma MeetEndOfStream(run: seq<State>) returns (longer: seq<State>)
    requires IsRun(run)
    requires var s := run[|run| - 1]; s.c == CRepost && s.queue == [] && s.cacheStarted
    ensures IsRun(longer)
    ensures longer[|longer| - 1] == run[|run| - 1].(c := CWait, eos := true)
  {
    var s11 := run[|run| - 1];
    var s12 := s11.(c := CWait, queue := [READ]);
    var s13 := s12.(c := CGot(READ), queue := []);
    var s14 := s13.(c := CPrefetch);
    var s15 := s14.(c := CGetStatus);
    var s16 := s15.(c := CWait, eos := true);
    assert s12 == ReadPosted(s11);
    Extend(run, s12); longer := run + [s12];
    assert s13 == MessageTaken(s12);
    Extend(longer, s13); longer := longer + [s13];
    assert s14 == Dispatched(s13, false);
    Extend(longer, s14); longer := longer + [s14];
    assert s15 == PrefetchDone(s14, false, true);
    Extend(longer, s15); longer := longer + [s15];
    assert s16 == StatusDone(s15, false);
    Extend(longer, s16); longer := longer + [s16];
  }
}
