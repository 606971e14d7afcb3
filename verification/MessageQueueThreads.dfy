/** The message queue used by any number of threads.

    The critical sections of `MessageQueue` are atomic, but a poster raises the semaphore
    after it has left the mutex, a getter takes the semaphore before it enters the mutex,
    and a flush drains the semaphore one unit at a time while it holds the mutex. Each of
    those is a step of its own here, and any enabled step of any thread may come next. */
module MessageQueueThreads {
  import opened MessageQueue
  import opened Queues

  /** Where a thread stands: outside, between insert and sem_post, between sem_wait and
      the mutex, or inside a flush before sem_getvalue or before sem_trywait. */
  datatype Pc = Posting | Woken | Draining | Trying

  datatype Fate = Fate(msg: Message, received: bool)

  /** `pcs` holds the threads that are in the middle of a call. The remaining fields record
      the run: what was inserted, what became of the messages that left the list, how many
      semaphore units flushes drained and how many woken getters found nothing. */
  datatype System = System(
    capacity: nat,
    contents: seq<Message>,
    sem: nat,
    pcs: map<nat, Pc>,
    inserted: seq<Message>,
    fates: seq<Fate>,
    drained: nat,
    spurious: nat)

  datatype Action =
    | Insert(thread: nat, msg: Message)
    | SemPost(thread: nat)
    | SemWait(thread: nat)
    | Remove(thread: nat)
    | FlushClear(thread: nat)
    | SemGetValue(thread: nat)
    | SemTryWait(thread: nat)

  function Start(capacity: nat): System {
    System(capacity, [], 0, map[], [], [], 0, 0)
  }

  ghost predicate At(s: System, thread: nat, pc: Pc) {
    thread in s.pcs && s.pcs[thread] == pc
  }

  ghost predicate InFlush(s: System, thread: nat) {
    At(s, thread, Draining) || At(s, thread, Trying)
  }

  ghost predicate MutexFree(s: System) {
    forall t :: !InFlush(s, t)
  }

  ghost predicate Enabled(s: System, a: Action) {
    match a
    case Insert(t, _) => t !in s.pcs && MutexFree(s)
    case SemPost(t) => At(s, t, Posting)
    case SemWait(t) => t !in s.pcs && s.sem > 0
    case Remove(t) => At(s, t, Woken) && MutexFree(s)
    case FlushClear(t) => t !in s.pcs && MutexFree(s)
    case SemGetValue(t) => At(s, t, Draining)
    case SemTryWait(t) => At(s, t, Trying)
  }

  function Fates(msgs: seq<Message>, received: bool): (r: seq<Fate>)
    ensures |r| == |msgs|
  {
    seq(|msgs|, i requires 0 <= i < |msgs| => Fate(msgs[i], received))
  }

  ghost function Next(s: System, a: Action): System
    requires Enabled(s, a)
  {
    match a
    case Insert(t, m) =>
      if |s.contents| >= s.capacity then s
      else s.(contents := s.contents + [m], pcs := s.pcs[t := Posting], inserted := s.inserted + [m])
    case SemPost(t) => s.(sem := s.sem + 1, pcs := s.pcs - {t})
    case SemWait(t) => s.(sem := s.sem - 1, pcs := s.pcs[t := Woken])
    case Remove(t) =>
      if s.contents == [] then s.(pcs := s.pcs - {t}, spurious := s.spurious + 1)
      else s.(contents := s.contents[1..], pcs := s.pcs - {t}, fates := s.fates + [Fate(s.contents[0], true)])
    case FlushClear(t) =>
      s.(contents := [], pcs := s.pcs[t := Draining], fates := s.fates + Fates(s.contents, false))
    case SemGetValue(t) =>
      if s.sem == 0 then s.(pcs := s.pcs - {t}) else s.(pcs := s.pcs[t := Trying])
    case SemTryWait(t) =>
      if s.sem == 0 then s.(pcs := s.pcs[t := Draining])
      else s.(sem := s.sem - 1, pcs := s.pcs[t := Draining], drained := s.drained + 1)
  }

  // ---------------------------------------------------------------- accounting

  ghost function ThreadsAt(s: System, pc: Pc): set<nat> {
    set t | t in s.pcs && s.pcs[t] == pc
  }

  /** The wake-ups that exist: units in the semaphore, posts on their way to it and
      getters that have taken one. */
  ghost function WakeUps(s: System): nat {
    s.sem + |ThreadsAt(s, Posting)| + |ThreadsAt(s, Woken)|
  }

  function Count(fates: seq<Fate>, received: bool): nat {
    if fates == [] then 0
    else Count(fates[..|fates| - 1], received) + if fates[|fates| - 1].received == received then 1 else 0
  }

  function Msgs(fates: seq<Fate>): (r: seq<Message>)
    ensures |r| == |fates|
  {
    seq(|fates|, i requires 0 <= i < |fates| => fates[i].msg)
  }

  /** Every message that was inserted is accounted for, in order; every wake-up it created
      was used by a get, drained by a flush, or still exists; and while a thread is inside
      a flush the list is empty. */
  ghost predicate Inv(s: System) {
    && |s.contents| <= s.capacity
    && s.inserted == Msgs(s.fates) + s.contents
    && |s.inserted| == WakeUps(s) + Count(s.fates, true) + s.drained + s.spurious
    && s.drained + s.spurious <= Count(s.fates, false)
    && (!MutexFree(s) ==> s.contents == [])
    && (forall t, u :: InFlush(s, t) && InFlush(s, u) ==> t == u)
  }

  lemma {:induction false} CountSplit(fates: seq<Fate>)
    ensures Count(fates, true) + Count(fates, false) == |fates|
  {
    if fates != [] { CountSplit(fates[..|fates| - 1]); }
  }

  lemma {:induction false} CountAppend(fates: seq<Fate>, more: seq<Fate>, received: bool)
    requires forall i :: 0 <= i < |more| ==> more[i].received == received
    ensures Count(fates + more, received) == Count(fates, received) + |more|
    ensures Count(fates + more, !received) == Count(fates, !received)
  {
    if more == [] {
      assert fates + more == fates;
    } else {
      CountAppend(fates, more[..|more| - 1], received);
      assert (fates + more)[..|fates + more| - 1] == fates + more[..|more| - 1];
    }
  }

  lemma OthersStay(s: System, s': System, t: nat, pc: Pc)
    requires s'.pcs - {t} == s.pcs - {t}
    ensures ThreadsAt(s, pc) - {t} == ThreadsAt(s', pc) - {t}
  {
    forall u | u != t ensures At(s, u, pc) <==> At(s', u, pc) {
      assert u in s.pcs <==> u in s.pcs - {t};
      assert u in s'.pcs <==> u in s'.pcs - {t};
      if u in s.pcs {
        assert s.pcs[u] == (s.pcs - {t})[u] == (s'.pcs - {t})[u] == s'.pcs[u];
      }
    }
    assert forall u :: u in ThreadsAt(s, pc) <==> At(s, u, pc);
    assert forall u :: u in ThreadsAt(s', pc) <==> At(s', u, pc);
  }

  /** One thread enters, leaves or moves; the numbers of posters and woken getters follow. */
  lemma ThreadsAfter(s: System, s': System, t: nat, pc: Pc)
    requires s'.pcs - {t} == s.pcs - {t}
    ensures |ThreadsAt(s', pc)| ==
            |ThreadsAt(s, pc)| - (if At(s, t, pc) then 1 else 0) + (if At(s', t, pc) then 1 else 0)
  {
    OthersStay(s, s', t, pc);
    CardinalWithout(ThreadsAt(s, pc), t);
    CardinalWithout(ThreadsAt(s', pc), t);
  }

  lemma StepKeepsFates(s: System, a: Action)
    requires Inv(s) && Enabled(s, a)
    ensures Next(s, a).inserted == Msgs(Next(s, a).fates) + Next(s, a).contents
    ensures |Next(s, a).contents| <= s.capacity
  {
    if a.Remove? && s.contents != [] {
      assert Msgs(s.fates + [Fate(s.contents[0], true)]) == Msgs(s.fates) + [s.contents[0]];
    } else if a.FlushClear? {
      assert Msgs(s.fates + Fates(s.contents, false)) == Msgs(s.fates) + s.contents;
    }
  }

  /** Only inserting creates a wake-up; only a get's critical section and a flush's
      sem_trywait use one up. */
  lemma WakeUpsAfter(s: System, a: Action)
    requires Inv(s) && Enabled(s, a)
    ensures WakeUps(Next(s, a)) == WakeUps(s)
            + (if a.Insert? && |s.contents| < s.capacity then 1 else 0)
            - (if a.Remove? || (a.SemTryWait? && s.sem > 0) then 1 else 0)
  {
    var s', t := Next(s, a), a.thread;
    assert s'.pcs - {t} == s.pcs - {t};
    ThreadsAfter(s, s', t, Posting);
    ThreadsAfter(s, s', t, Woken);
  }

  lemma StepKeepsWakeUps(s: System, a: Action)
    requires Inv(s) && Enabled(s, a)
    ensures
      var s' := Next(s, a);
      && |s'.inserted| == WakeUps(s') + Count(s'.fates, true) + s'.drained + s'.spurious
      && s'.drained + s'.spurious <= Count(s'.fates, false)
  {
    WakeUpsAfter(s, a);
    CountSplit(s.fates);
    if a.Remove? && s.contents != [] {
      CountAppend(s.fates, [Fate(s.contents[0], true)], true);
    } else if a.FlushClear? {
      CountAppend(s.fates, Fates(s.contents, false), false);
    } else if a.SemTryWait? {
      assert InFlush(s, a.thread);
    }
  }

  lemma StepKeepsMutex(s: System, a: Action)
    requires Inv(s) && Enabled(s, a)
    ensures
      var s' := Next(s, a);
      && (!MutexFree(s') ==> s'.contents == [])
      && (forall t, u :: InFlush(s', t) && InFlush(s', u) ==> t == u)
  {
    var s' := Next(s, a);
    forall t | InFlush(s', t) ensures if a.FlushClear? then t == a.thread && s'.contents == [] else InFlush(s, t) {
      if t != a.thread { assert InFlush(s, t); }
    }
  }

  lemma StepKeepsInv(s: System, a: Action)
    requires Inv(s) && Enabled(s, a)
    ensures Inv(Next(s, a))
  {
    StepKeepsFates(s, a);
    StepKeepsWakeUps(s, a);
    StepKeepsMutex(s, a);
  }

  // ---------------------------------------------------------------- runs

  ghost predicate Steps(s: System, s': System) {
    exists a :: Enabled(s, a) && s' == Next(s, a)
  }

  ghost predicate IsRun(capacity: nat, run: seq<System>) {
    && run != [] && run[0] == Start(capacity)
    && forall i :: 0 <= i < |run| - 1 ==> Steps(run[i], run[i + 1])
  }

  lemma StartInv(capacity: nat)
    ensures Inv(Start(capacity))
  {
    assert ThreadsAt(Start(capacity), Posting) == {} && ThreadsAt(Start(capacity), Woken) == {};
  }

  lemma {:induction false} RunKeepsInv(capacity: nat, run: seq<System>, i: nat)
    requires IsRun(capacity, run) && i < |run|
    ensures Inv(run[i])
  {
    if i == 0 {
      StartInv(capacity);
    } else {
      RunKeepsInv(capacity, run, i - 1);
      assert Steps(run[i - 1], run[i - 1 + 1]);
      var a :| Enabled(run[i - 1], a) && run[i] == Next(run[i - 1], a);
      StepKeepsInv(run[i - 1], a);
    }
  }

  /** No lost wake-up. In every state of every run, with any number of threads and any
      flushes, there are at least as many wake-ups as messages, so a message that no one is
      about to announce or fetch is announced by the semaphore; and the excess is exactly
      what flushes discarded less what they drained and what getters woke up for in vain. */
  lemma NoLostWakeUp(capacity: nat, run: seq<System>, i: nat)
    requires IsRun(capacity, run) && i < |run|
    ensures |run[i].contents| <= WakeUps(run[i])
    ensures |run[i].contents| + Count(run[i].fates, false) == WakeUps(run[i]) + run[i].drained + run[i].spurious
    ensures run[i].contents != [] && ThreadsAt(run[i], Posting) == {} && ThreadsAt(run[i], Woken) == {} ==>
              run[i].sem > 0
  {
    RunKeepsInv(capacity, run, i);
    CountSplit(run[i].fates);
  }

  /** Messages leave the list in the order they were inserted, whether received or flushed,
      and none is lost or duplicated. */
  lemma FifoInEveryRun(capacity: nat, run: seq<System>, i: nat)
    requires IsRun(capacity, run) && i < |run|
    ensures run[i].inserted == Msgs(run[i].fates) + run[i].contents
    ensures |run[i].contents| <= run[i].capacity
  {
    RunKeepsInv(capacity, run, i);
  }

  // ---------------------------------------------------------------- wake-ups in vain

  /** The actions can follow one another from `s`. */
  ghost predicate Possible(s: System, acts: seq<Action>)
    decreases |acts|
  {
    acts != [] ==> Enabled(s, acts[0]) && Possible(Next(s, acts[0]), acts[1..])
  }

  ghost function Later(s: System, acts: seq<Action>): System
    requires Possible(s, acts)
    decreases |acts|
  {
    if acts == [] then s else Later(Next(s, acts[0]), acts[1..])
  }

  predicate WithoutFlush(acts: seq<Action>) {
    forall i :: 0 <= i < |acts| ==> !acts[i].FlushClear?
  }

  /** Wake-ups that no message stands for. */
  ghost function Excess(s: System): int {
    WakeUps(s) - |s.contents|
  }

  /** The excess is what flushes discarded less what they drained and what getters woke up for
      in vain. */
  lemma ExcessIsLeftover(s: System)
    requires Inv(s)
    ensures Excess(s) == Count(s.fates, false) - s.drained - s.spurious
    ensures Excess(s) >= 0
  {
    CountSplit(s.fates);
  }

  /** Outside of flushes the excess only falls, and only by a getter that wakes in vain. */
  lemma ExcessAfter(s: System, a: Action)
    requires Inv(s) && MutexFree(s) && Enabled(s, a) && !a.FlushClear?
    ensures Inv(Next(s, a)) && MutexFree(Next(s, a))
    ensures Excess(Next(s, a)) == Excess(s) - (Next(s, a).spurious - s.spurious)
    ensures Next(s, a).spurious == s.spurious + if a.Remove? && s.contents == [] then 1 else 0
  {
    StepKeepsInv(s, a);
    WakeUpsAfter(s, a);
    assert !InFlush(s, a.thread);
    forall t ensures !InFlush(Next(s, a), t) {
      assert !InFlush(s, t);
    }
  }

  /** Without an excess every woken getter finds a message until the next flush. */
  lemma {:induction false} NoExcessNoVain(s: System, acts: seq<Action>)
    requires Inv(s) && MutexFree(s) && Excess(s) == 0 && Possible(s, acts) && WithoutFlush(acts)
    ensures Later(s, acts).spurious == s.spurious
    decreases |acts|
  {
    if acts != [] {
      var a := acts[0];
      if a.Remove? { assert a.thread in ThreadsAt(s, Woken); }
      ExcessAfter(s, a);
      NoExcessNoVain(Next(s, a), acts[1..]);
    }
  }

  /** Some thread is outside all calls. */
  lemma OutsideThread(s: System) returns (t: nat)
    ensures t !in s.pcs
  {
    var n := |s.pcs.Keys| + 1;
    if forall i :: 0 <= i < n ==> i in s.pcs.Keys {
      SubsetCardinality(Upto(n), s.pcs.Keys);
      assert false;
    }
    t :| 0 <= t < n && t !in s.pcs.Keys;
  }

  /** How many steps the existing wake-ups can still take. */
  ghost function Pending(s: System): nat {
    3 * |ThreadsAt(s, Posting)| + 2 * s.sem + |ThreadsAt(s, Woken)|
  }

  /** A next step that brings some wake-up forward. */
  lemma Forward(s: System) returns (a: Action)
    requires MutexFree(s) && WakeUps(s) > 0
    ensures Enabled(s, a) && (a.SemPost? || a.SemWait? || a.Remove?)
    ensures Pending(Next(s, a)) < Pending(s)
  {
    var t: nat;
    if ThreadsAt(s, Woken) != {} {
      t :| t in ThreadsAt(s, Woken);
      a := Remove(t);
    } else if s.sem > 0 {
      t := OutsideThread(s);
      a := SemWait(t);
    } else {
      t :| t in ThreadsAt(s, Posting);
      a := SemPost(t);
    }
    var s' := Next(s, a);
    assert s'.pcs - {t} == s.pcs - {t};
    ThreadsAfter(s, s', t, Posting);
    ThreadsAfter(s, s', t, Woken);
  }

  /** With an excess some getter can wake in vain although nothing more is flushed or posted. */
  lemma {:induction false} ExcessCanWakeInVain(s: System) returns (acts: seq<Action>)
    requires Inv(s) && MutexFree(s) && Excess(s) > 0
    ensures Possible(s, acts) && WithoutFlush(acts) && Later(s, acts).spurious == s.spurious + 1
    decreases Pending(s)
  {
    var a := Forward(s);
    ExcessAfter(s, a);
    var s' := Next(s, a);
    if a.Remove? && s.contents == [] {
      acts := [a];
      assert acts[1..] == [] && Later(s', []) == s';
    } else {
      var rest := ExcessCanWakeInVain(s');
      acts := [a] + rest;
      assert acts[1..] == rest;
    }
  }

  /** From `s` on no getter wakes in vain as long as nothing more is flushed. */
  ghost predicate NeverInVain(s: System) {
    forall acts :: Possible(s, acts) && WithoutFlush(acts) ==> Later(s, acts).spurious == s.spurious
  }

  /** When a woken getter finds a message: in every state of every run outside a flush, no
      getter can wake in vain without a further flush if and only if the discarded messages
      were all drained or paid for by getters that woke in vain. */
  lemma NeverInVainIffNothingLeftOver(capacity: nat, run: seq<System>, i: nat)
    requires IsRun(capacity, run) && i < |run| && MutexFree(run[i])
    ensures NeverInVain(run[i]) <==> Count(run[i].fates, false) == run[i].drained + run[i].spurious
  {
    RunKeepsInv(capacity, run, i);
    NeverInVainIffNoExcess(run[i]);
    ExcessIsLeftover(run[i]);
  }

  lemma NeverInVainIffNoExcess(s: System)
    requires Inv(s) && MutexFree(s)
    ensures NeverInVain(s) <==> Excess(s) == 0
  {
    ExcessIsLeftover(s);
    if Excess(s) == 0 {
      forall acts | Possible(s, acts) && WithoutFlush(acts) ensures Later(s, acts).spurious == s.spurious {
        NoExcessNoVain(s, acts);
      }
    } else {
      var acts := ExcessCanWakeInVain(s);
      assert !NeverInVain(s);
    }
  }

  /** What a caller of flush can check: after a flush has ended no getter wakes in vain, until
      the next flush, if and only if no thread was in the middle of a post or of a get. */
  lemma FlushEndsCleanIffNoneInFlight(capacity: nat, run: seq<System>, i: nat, t: nat)
    requires IsRun(capacity, run) && i < |run| && At(run[i], t, Draining) && run[i].sem == 0
    ensures MutexFree(Next(run[i], SemGetValue(t)))
    ensures NeverInVain(Next(run[i], SemGetValue(t))) <==>
            ThreadsAt(run[i], Posting) == {} && ThreadsAt(run[i], Woken) == {}
  {
    var s := run[i];
    RunKeepsInv(capacity, run, i);
    var s' := Next(s, SemGetValue(t));
    StepKeepsInv(s, SemGetValue(t));
    assert InFlush(s, t);
    forall u ensures !InFlush(s', u) {
      if InFlush(s', u) { assert InFlush(s, u); assert false; }
    }
    assert ThreadsAt(s', Posting) == ThreadsAt(s, Posting) && ThreadsAt(s', Woken) == ThreadsAt(s, Woken);
    NeverInVainIffNoExcess(s');
  }

  /** In particular, while nothing has been flushed away, wake-ups and messages are equal in
      number and a woken getter finds a message. */
  lemma WokenGetterFindsMessage(capacity: nat, run: seq<System>, i: nat)
    requires IsRun(capacity, run) && i < |run| && Count(run[i].fates, false) == run[i].drained + run[i].spurious
    ensures |run[i].contents| == WakeUps(run[i])
    ensures forall t :: At(run[i], t, Woken) ==> run[i].contents != []
  {
    NoLostWakeUp(capacity, run, i);
    forall t | At(run[i], t, Woken) ensures run[i].contents != [] {
      assert t in ThreadsAt(run[i], Woken);
    }
  }

  /** After a flush it may not: a post whose message was flushed before it raised the
      semaphore wakes a getter for nothing. */
  lemma FlushCanWakeAGetterInVain() returns (run: seq<System>)
    ensures IsRun(1, run)
    ensures run[|run| - 1].spurious == 1 && Count(run[|run| - 1].fates, true) == 0
  {
    var m := Message(0, []);
    var f := [Fate(m, false)];
    var s1 := System(1, [m], 0, map[0 := Posting], [m], [], 0, 0);
    var s2 := System(1, [], 0, map[0 := Posting, 1 := Draining], [m], f, 0, 0);
    var s3 := System(1, [], 0, map[0 := Posting], [m], f, 0, 0);
    var s4 := System(1, [], 1, map[], [m], f, 0, 0);
    var s5 := System(1, [], 0, map[2 := Woken], [m], f, 0, 0);
    var s6 := System(1, [], 0, map[], [m], f, 0, 1);
    assert Steps(Start(1), s1) by { assert Enabled(Start(1), Insert(0, m)) && Next(Start(1), Insert(0, m)) == s1; }
    assert Steps(s1, s2) by {
      assert Fates([m], false) == f;
      assert Enabled(s1, FlushClear(1)) && Next(s1, FlushClear(1)) == s2;
    }
    assert Steps(s2, s3) by { assert Enabled(s2, SemGetValue(1)) && Next(s2, SemGetValue(1)) == s3; }
    assert Steps(s3, s4) by { assert Enabled(s3, SemPost(0)) && Next(s3, SemPost(0)) == s4; }
    assert Steps(s4, s5) by { assert Enabled(s4, SemWait(2)) && Next(s4, SemWait(2)) == s5; }
    assert Steps(s5, s6) by { assert Enabled(s5, Remove(2)) && Next(s5, Remove(2)) == s6; }
    run := [Start(1), s1, s2, s3, s4, s5, s6];
  }
}
