/** Charger mode of the health daemon: the battery animation and the unplug shutdown timer,
    as functions on values, and what every sequence of heartbeats does with them. */
module ChargerMode {

  const BATTERY_UNKNOWN_TIME := 2000
  const UNPLUGGED_SHUTDOWN_TIME := 1000

  /** A timer that is not set. */
  const NEVER := -1

  datatype AnimFrame = AnimFrame(dispTime: int, minCapacity: int, levelOnly: bool)

  /** The built-in frames; the last one shows a full battery. */
  const BATTERY_FRAMES: seq<AnimFrame> := [
    AnimFrame(750, 0, false), AnimFrame(750, 20, false), AnimFrame(750, 40, false),
    AnimFrame(750, 60, false), AnimFrame(750, 80, true), AnimFrame(750, 95, false)]

  datatype Level = Unknown | Known(level: int)

  datatype Charger = Charger(
    frames: seq<AnimFrame>,
    run: bool, curFrame: int, numFrames: int, curCycle: int, numCycles: int, capacity: int,
    haveBatteryState: bool, connected: bool, battery: Level,
    nextScreenTransition: int, nextPwrCheck: int,
    screenInited: bool)

  /** After initialisation; without the scale images there is nothing to animate. */
  function Booted(imagesLoaded: bool): (c: Charger)
    ensures AnimationOk(c)
  {
    Charger(BATTERY_FRAMES, false, 0, if imagesLoaded then |BATTERY_FRAMES| else 0, 0, if imagesLoaded then 3 else 1, 0,
            false, false, Unknown, NEVER, NEVER, false)
  }

  function Kick(c: Charger): Charger {
    c.(run := true)
  }

  function ResetAnimation(c: Charger): Charger {
    c.(curCycle := 0, curFrame := 0, run := false)
  }

  // ---------------------------------------------------------------- the animation

  /** The current frame is a real one and the counters are in range. */
  ghost predicate AnimationOk(c: Charger) {
    && 0 <= c.numFrames <= |c.frames| && c.frames != []
    && 0 <= c.curFrame && 0 <= c.curCycle <= c.numCycles
    && (c.curFrame > 0 ==> c.curFrame < c.numFrames && c.curCycle < c.numCycles && c.capacity >= 0)
  }

  /** The frame to start with for a battery level: the last one that, with all before it
      except the first, the level reaches. */
  function LevelFrame(frames: seq<AnimFrame>, numFrames: int, level: int, i: int): (r: int)
    requires 1 <= i <= numFrames <= |frames|
    ensures i - 1 <= r < numFrames
    decreases numFrames - i
  {
    if i == numFrames || level < frames[i].minCapacity then i - 1 else LevelFrame(frames, numFrames, level, i + 1)
  }

  /** The first frame from `i` on that is not only shown as a level, or `numFrames`. */
  function NextShown(frames: seq<AnimFrame>, numFrames: int, i: int): (r: int)
    requires 0 <= i <= numFrames <= |frames|
    ensures i <= r <= numFrames
    decreases numFrames - i
  {
    if i == numFrames || !frames[i].levelOnly then i else NextShown(frames, numFrames, i + 1)
  }

  lemma {:induction false} LevelFrameMatches(frames: seq<AnimFrame>, numFrames: int, level: int, i: int)
    requires 1 <= i <= numFrames <= |frames|
    ensures
      var r := LevelFrame(frames, numFrames, level, i);
      && (forall k :: i <= k <= r ==> frames[k].minCapacity <= level)
      && (r + 1 < numFrames ==> level < frames[r + 1].minCapacity)
    decreases numFrames - i
  {
    if i < numFrames && level >= frames[i].minCapacity { LevelFrameMatches(frames, numFrames, level, i + 1); }
  }

  lemma {:induction false} NextShownSkipsLevels(frames: seq<AnimFrame>, numFrames: int, i: int)
    requires 0 <= i <= numFrames <= |frames|
    ensures
      var r := NextShown(frames, numFrames, i);
      && (forall k :: i <= k < r ==> frames[k].levelOnly)
      && (r < numFrames ==> !frames[r].levelOnly)
    decreases numFrames - i
  {
    if i < numFrames && frames[i].levelOnly { NextShownSkipsLevels(frames, numFrames, i + 1); }
  }

  /** Whether the animation is due for an update. */
  predicate Effective(c: Charger, now: int) {
    c.run && now >= c.nextScreenTransition
  }

  /** At the start of a cycle the frame is chosen by the battery level. */
  function CycleStarted(c: Charger): Charger
    requires AnimationOk(c)
  {
    if c.curFrame == 0 && c.battery.Known? then
      c.(curFrame := if c.battery.level >= 0 && c.numFrames != 0
                     then LevelFrame(c.frames, c.numFrames, c.battery.level, 1) else 0,
         capacity := c.battery.level)
    else c
  }

  function DisplayTime(c: Charger): int
    requires AnimationOk(c)
  {
    if c.curFrame == 0 && c.battery.Known? && c.battery.level >= 0 && c.numFrames != 0 then
      c.frames[LevelFrame(c.frames, c.numFrames, c.battery.level, 1)].dispTime * 2
    else c.frames[c.curFrame].dispTime
  }

  /** After a frame was shown: the next one while charging, else the next cycle. */
  function FrameShown(c: Charger): Charger
    requires AnimationOk(c) && c.curFrame < c.numFrames
  {
    if !c.connected then c.(curFrame := 0, curCycle := c.curCycle + 1)
    else
      var next := NextShown(c.frames, c.numFrames, c.curFrame + 1);
      if next >= c.numFrames then c.(curFrame := 0, curCycle := c.curCycle + 1) else c.(curFrame := next)
  }

  /** `screenOn` is the answer of the optional hook that may keep the screen off. */
  function UpdateScreen(c: Charger, now: int, screenOn: bool): Charger
    requires AnimationOk(c)
  {
    if !Effective(c, now) then c
    else if !c.screenInited && !screenOn then c.(run := false, nextScreenTransition := NEVER)
    else
      var c0 := c.(screenInited := true);
      if c0.curCycle == c0.numCycles then ResetAnimation(c0).(nextScreenTransition := NEVER)
      else Played(c0, now)
  }

  /** Shows one frame and schedules the next update; without frames or a known capacity the
      cycle ends at once. */
  function Shown(c: Charger, now: int, dispTime: int): Charger
    requires AnimationOk(c) && (c.numFrames != 0 && c.capacity >= 0 ==> c.curFrame < c.numFrames)
  {
    if c.numFrames == 0 || c.capacity < 0 then
      c.(nextScreenTransition := now + BATTERY_UNKNOWN_TIME, curCycle := c.curCycle + 1)
    else FrameShown(c.(nextScreenTransition := now + dispTime))
  }

  function Played(c: Charger, now: int): Charger
    requires AnimationOk(c) && c.curCycle < c.numCycles
  {
    CycleStartedOk(c);
    Shown(CycleStarted(c), now, DisplayTime(c))
  }

  /** How many more effective updates the animation can take. */
  function Remaining(c: Charger): int {
    (c.numCycles - c.curCycle) * (if c.numFrames == 0 then 1 else c.numFrames) - c.curFrame + 1
  }

  lemma RemainingPositive(c: Charger)
    requires AnimationOk(c)
    ensures Remaining(c) >= 1
  {
    var f := if c.numFrames == 0 then 1 else c.numFrames;
    var n := c.numCycles - c.curCycle;
    if n > 0 {
      assert n * f == (n - 1) * f + f;
    }
  }

  /** The counters moved on to a later frame of the cycle, or to the next cycle. */
  ghost predicate Advanced(c: Charger, c': Charger) {
    && c'.frames == c.frames && c'.numFrames == c.numFrames && c'.numCycles == c.numCycles
    && ((c'.curCycle == c.curCycle && c.curFrame < c'.curFrame) || c'.curCycle == c.curCycle + 1)
  }

  lemma AdvancedUsesUp(c: Charger, c': Charger)
    requires AnimationOk(c) && AnimationOk(c') && Advanced(c, c')
    ensures Remaining(c') < Remaining(c)
  {
    var f := if c.numFrames == 0 then 1 else c.numFrames;
    if c'.curCycle == c.curCycle + 1 {
      assert (c.numCycles - c'.curCycle) * f == (c.numCycles - c.curCycle) * f - f;
    }
  }

  lemma FrameShownAdvances(c: Charger)
    requires AnimationOk(c) && c.curFrame < c.numFrames && c.curCycle < c.numCycles && c.capacity >= 0
    ensures AnimationOk(FrameShown(c)) && Advanced(c, FrameShown(c))
  {
  }

  lemma CycleStartedOk(c: Charger)
    requires AnimationOk(c) && c.curCycle < c.numCycles
    ensures
      var c' := CycleStarted(c);
      && AnimationOk(c') && c.curFrame <= c'.curFrame
      && c' == c.(curFrame := c'.curFrame, capacity := c'.capacity)
      && (c'.capacity < 0 ==> c'.curFrame == 0)
  {
  }

  lemma PlayedAdvances(c: Charger, now: int)
    requires AnimationOk(c) && c.curCycle < c.numCycles
    ensures AnimationOk(Played(c, now)) && Advanced(c, Played(c, now))
  {
    CycleStartedOk(c);
    var c1 := CycleStarted(c);
    if c1.numFrames != 0 && c1.capacity >= 0 {
      FrameShownAdvances(c1.(nextScreenTransition := now + DisplayTime(c)));
    }
  }

  /** An update keeps the animation well formed, and an effective one either stops it or
      uses up at least one of the remaining updates. */
  lemma UpdateScreenProgress(c: Charger, now: int, screenOn: bool)
    requires AnimationOk(c)
    ensures AnimationOk(UpdateScreen(c, now, screenOn))
    ensures !Effective(c, now) ==> UpdateScreen(c, now, screenOn) == c
    ensures Effective(c, now) && UpdateScreen(c, now, screenOn).run ==>
              Remaining(UpdateScreen(c, now, screenOn)) < Remaining(c)
  {
    if Effective(c, now) && (c.screenInited || screenOn) && c.curCycle < c.numCycles {
      PlayedAdvances(c.(screenInited := true), now);
      AdvancedUsesUp(c, UpdateScreen(c, now, screenOn));
    }
  }

  // ---------------------------------------------------------------- the shutdown timer

  /** While unplugged the timer is set once and powers the device off when it is due; while
      plugged it is cleared, and clearing it restarts the animation. */
  function HandlePower(c: Charger, now: int): (Charger, bool) {
    if !c.haveBatteryState then (c, false)
    else if c.connected then
      ((if c.nextPwrCheck != NEVER then Kick(c) else c).(nextPwrCheck := NEVER), false)
    else if c.nextPwrCheck == NEVER then (c.(nextPwrCheck := now + UNPLUGGED_SHUTDOWN_TIME), false)
    else (c, now >= c.nextPwrCheck)
  }

  // ---------------------------------------------------------------- events

  datatype Event =
    | Heartbeat(now: int, screenOn: bool, keyReleased: bool)
    | BatteryUpdate(now: int, online: bool, level: int)

  /** The state at a heartbeat when the screen update begins. */
  function BeforeScreen(c: Charger, e: Event): Charger
    requires e.Heartbeat?
  {
    HandlePower(if e.keyReleased then Kick(c) else c, e.now).0
  }

  function Updated(c: Charger, e: Event): Charger
    requires e.BatteryUpdate?
  {
    var c1 := c.(connected := e.online);
    var c2 := if c.haveBatteryState then c1
              else Kick(ResetAnimation(c1.(haveBatteryState := true, nextScreenTransition := e.now - 1)));
    c2.(battery := Known(e.level))
  }

  function Step(c: Charger, e: Event): Charger
    requires AnimationOk(c)
  {
    if e.Heartbeat? then UpdateScreen(BeforeScreen(c, e), e.now, e.screenOn) else Updated(c, e)
  }

  /** In every run the animation indexes a real frame. */
  lemma StepKeepsAnimation(c: Charger, e: Event)
    requires AnimationOk(c)
    ensures AnimationOk(Step(c, e))
  {
    if e.Heartbeat? { UpdateScreenProgress(BeforeScreen(c, e), e.now, e.screenOn); }
  }

  function Run(c: Charger, events: seq<Event>): (r: Charger)
    requires AnimationOk(c)
    ensures AnimationOk(r)
    decreases |events|
  {
    if events == [] then c else (StepKeepsAnimation(c, events[0]); Run(Step(c, events[0]), events[1..]))
  }

  /** The effective screen updates of a run. */
  ghost function EffectiveUpdates(c: Charger, events: seq<Event>): nat
    requires AnimationOk(c)
    decreases |events|
  {
    if events == [] then 0
    else
      StepKeepsAnimation(c, events[0]);
      (if events[0].Heartbeat? && Effective(BeforeScreen(c, events[0]), events[0].now) then 1 else 0)
      + EffectiveUpdates(Step(c, events[0]), events[1..])
  }

  /** No effective update of the run stops the animation. */
  ghost predicate NeverStops(c: Charger, events: seq<Event>)
    requires AnimationOk(c)
    decreases |events|
  {
    events != [] ==>
      && (events[0].Heartbeat? && Effective(BeforeScreen(c, events[0]), events[0].now) ==> Step(c, events[0]).run)
      && (StepKeepsAnimation(c, events[0]); NeverStops(Step(c, events[0]), events[1..]))
  }

  lemma BeforeScreenSame(c: Charger, e: Event)
    requires AnimationOk(c) && e.Heartbeat?
    ensures
      var c' := BeforeScreen(c, e);
      AnimationOk(c') && c'.haveBatteryState == c.haveBatteryState && Remaining(c') == Remaining(c) &&
      Whole(c') == Whole(c)
  {
  }

  /** The updates of a whole animation: cycles times frames plus one, or cycles plus one when
      there are no frames. */
  function Whole(c: Charger): int {
    c.numCycles * (if c.numFrames == 0 then 1 else c.numFrames) + 1
  }

  lemma HeartbeatProgress(c: Charger, e: Event)
    requires AnimationOk(c) && e.Heartbeat?
    ensures AnimationOk(Step(c, e)) && Whole(Step(c, e)) == Whole(c) &&
            Step(c, e).haveBatteryState == c.haveBatteryState
    ensures if Effective(BeforeScreen(c, e), e.now)
            then Step(c, e).run ==> Remaining(Step(c, e)) < Remaining(c)
            else Remaining(Step(c, e)) == Remaining(c)
  {
    var c' := BeforeScreen(c, e);
    BeforeScreenSame(c, e);
    UpdateScreenProgress(c', e.now, e.screenOn);
    ScreenLeavesPowerAlone(c', e.now, e.screenOn);
    ScreenKeepsFrames(c', e.now, e.screenOn);
  }

  /** Apart from an effective update, only the first battery report touches the animation's
      counters: it starts the animation afresh. */
  lemma StepProgress(c: Charger, e: Event)
    requires AnimationOk(c)
    ensures AnimationOk(Step(c, e)) && Whole(Step(c, e)) == Whole(c)
    ensures Step(c, e).haveBatteryState == (c.haveBatteryState || e.BatteryUpdate?)
    ensures if e.Heartbeat? && Effective(BeforeScreen(c, e), e.now)
            then Step(c, e).run ==> Remaining(Step(c, e)) < Remaining(c)
            else Remaining(Step(c, e)) == if Restarts(c, e) then Whole(c) else Remaining(c)
  {
    if e.Heartbeat? { HeartbeatProgress(c, e); }
  }

  lemma ScreenKeepsFrames(c: Charger, now: int, screenOn: bool)
    requires AnimationOk(c)
    ensures UpdateScreen(c, now, screenOn).numFrames == c.numFrames &&
            UpdateScreen(c, now, screenOn).numCycles == c.numCycles
  {
    if Effective(c, now) && (c.screenInited || screenOn) && c.curCycle < c.numCycles {
      PlayedAdvances(c.(screenInited := true), now);
    }
  }

  /** The first battery report. */
  predicate Restarts(c: Charger, e: Event) {
    e.BatteryUpdate? && !c.haveBatteryState
  }

  /** The first battery report is among the events. */
  predicate RestartsWithin(c: Charger, events: seq<Event>) {
    !c.haveBatteryState && exists i :: 0 <= i < |events| && events[i].BatteryUpdate?
  }

  /** Main result on the animation: whatever the battery, the plug and the power key do, before
      or after the first battery report, a run in which no effective update stops the animation
      has fewer of them than remain; if the run contains the first report, fewer than remain
      plus a whole animation. */
  lemma {:induction false} AnimationEnds(c: Charger, events: seq<Event>)
    requires AnimationOk(c) && NeverStops(c, events)
    ensures EffectiveUpdates(c, events) < Remaining(c) + if RestartsWithin(c, events) then Whole(c) else 0
    decreases |events|
  {
    RemainingPositive(c);
    if events != [] {
      var e, c' := events[0], Step(c, events[0]);
      StepProgress(c, e);
      AnimationEnds(c', events[1..]);
      RestartsWithinRest(c, events);
    }
  }

  lemma RestartsWithinRest(c: Charger, events: seq<Event>)
    requires AnimationOk(c) && events != []
    ensures AnimationOk(Step(c, events[0]))
    ensures RestartsWithin(c, events) <==> Restarts(c, events[0]) || RestartsWithin(Step(c, events[0]), events[1..])
  {
    StepProgress(c, events[0]);
    if RestartsWithin(c, events) && !events[0].BatteryUpdate? {
      var i :| 0 <= i < |events| && events[i].BatteryUpdate?;
      assert events[1..][i - 1] == events[i];
    }
    if RestartsWithin(Step(c, events[0]), events[1..]) {
      var i :| 0 <= i < |events[1..]| && events[1..][i].BatteryUpdate?;
      assert events[i + 1].BatteryUpdate?;
    }
  }

  /** From its start the animation therefore ends within cycles times frames plus one
      effective updates (cycles plus one when there are no frames); one that was started by the
      power key before the first battery report may be started afresh once. */
  lemma FreshAnimationEnds(c: Charger, events: seq<Event>)
    requires AnimationOk(c) && c.curFrame == 0 && c.curCycle == 0
    requires EffectiveUpdates(c, events) >= Whole(c) + if RestartsWithin(c, events) then Whole(c) else 0
    ensures !NeverStops(c, events)
  {
    if NeverStops(c, events) {
      AnimationEnds(c, events);
      assert false;
    }
  }

  // ---------------------------------------------------------------- when the device powers off

  /** What a heartbeat with a known battery state saw. */
  datatype Beat = Beat(time: int, connected: bool)

  function Logged(c: Charger, log: seq<Beat>, e: Event): seq<Beat> {
    if e.Heartbeat? && c.haveBatteryState then log + [Beat(e.now, c.connected)] else log
  }

  predicate PowersOff(c: Charger, e: Event) {
    e.Heartbeat? && HandlePower(if e.keyReleased then Kick(c) else c, e.now).1
  }

  /** From beat `j` on, every beat saw the charger disconnected. */
  ghost predicate UnpluggedSince(log: seq<Beat>, j: int) {
    0 <= j < |log| && forall k :: j <= k < |log| ==> !log[k].connected
  }

  /** Beat `j` is the first of the beats since which the charger is disconnected. */
  ghost predicate Unplugged(log: seq<Beat>, j: int) {
    UnpluggedSince(log, j) && (j == 0 || log[j - 1].connected)
  }

  /** The timer is set exactly when the last beat saw the charger disconnected, and then to
      one second after the first beat that did so. Time does not run backwards. */
  ghost predicate TimerInv(c: Charger, log: seq<Beat>) {
    && (forall i, j :: 0 <= i < j < |log| ==> 0 <= log[i].time <= log[j].time)
    && (log != [] ==> c.haveBatteryState && 0 <= log[|log| - 1].time)
    && if c.nextPwrCheck == NEVER then log == [] || log[|log| - 1].connected
       else exists j :: Unplugged(log, j) && c.nextPwrCheck == log[j].time + UNPLUGGED_SHUTDOWN_TIME
  }

  ghost predicate ClockRule(log: seq<Beat>, e: Event) {
    e.Heartbeat? ==> 0 <= e.now && (log != [] ==> log[|log| - 1].time <= e.now)
  }

  /** The parts of the state that the screen does not touch. */
  ghost predicate SamePower(c: Charger, c': Charger) {
    c'.haveBatteryState == c.haveBatteryState && c'.connected == c.connected && c'.nextPwrCheck == c.nextPwrCheck
  }

  lemma PlayedLeavesPowerAlone(c: Charger, now: int)
    requires AnimationOk(c) && c.curCycle < c.numCycles
    ensures SamePower(c, Played(c, now))
  {
    CycleStartedOk(c);
    var c1 := CycleStarted(c);
    assert SamePower(c, c1) && SamePower(c1, Shown(c1, now, DisplayTime(c)));
  }

  lemma ScreenLeavesPowerAlone(c: Charger, now: int, screenOn: bool)
    requires AnimationOk(c)
    ensures SamePower(c, UpdateScreen(c, now, screenOn))
  {
    if Effective(c, now) && (c.screenInited || screenOn) && c.curCycle < c.numCycles {
      PlayedLeavesPowerAlone(c.(screenInited := true), now);
    }
  }

  /** What a heartbeat does to the timer. */
  lemma HeartbeatTimer(c: Charger, e: Event)
    requires AnimationOk(c) && e.Heartbeat?
    ensures
      var c' := Step(c, e);
      && c'.haveBatteryState == c.haveBatteryState && c'.connected == c.connected
      && c'.nextPwrCheck ==
         if !c.haveBatteryState then c.nextPwrCheck
         else if c.connected then NEVER
         else if c.nextPwrCheck == NEVER then e.now + UNPLUGGED_SHUTDOWN_TIME
         else c.nextPwrCheck
  {
    ScreenLeavesPowerAlone(BeforeScreen(c, e), e.now, e.screenOn);
  }

  lemma StepKeepsTimer(c: Charger, log: seq<Beat>, e: Event)
    requires AnimationOk(c) && TimerInv(c, log) && ClockRule(log, e)
    ensures TimerInv(Step(c, e), Logged(c, log, e))
  {
    if e.Heartbeat? {
      HeartbeatTimer(c, e);
      LoggedTimer(c, Step(c, e), log, e);
    }
  }

  lemma LoggedTimer(c: Charger, c': Charger, log: seq<Beat>, e: Event)
    requires TimerInv(c, log) && ClockRule(log, e) && e.Heartbeat?
    requires c'.haveBatteryState == c.haveBatteryState
    requires c'.nextPwrCheck ==
             if !c.haveBatteryState then c.nextPwrCheck
             else if c.connected then NEVER
             else if c.nextPwrCheck == NEVER then e.now + UNPLUGGED_SHUTDOWN_TIME
             else c.nextPwrCheck
    ensures TimerInv(c', Logged(c, log, e))
  {
    var log' := Logged(c, log, e);
    if c.haveBatteryState && !c.connected {
      if c.nextPwrCheck == NEVER {
        assert log'[|log|] == Beat(e.now, false) && Unplugged(log', |log|);
      } else {
        var j :| Unplugged(log, j) && c.nextPwrCheck == log[j].time + UNPLUGGED_SHUTDOWN_TIME;
        assert Unplugged(log', j);
      }
    }
  }

  /** Some beat at least a second ago began a time in which every beat saw the charger
      disconnected. */
  ghost predicate UnpluggedForASecond(log: seq<Beat>, now: int) {
    exists j :: UnpluggedSince(log, j) && log[j].time + UNPLUGGED_SHUTDOWN_TIME <= now
  }

  /** Main result on shutdown: a heartbeat powers the device off if and only if it sees the
      charger disconnected and the charger was seen disconnected by all heartbeats of at least
      the last second. */
  lemma PowersOffIffUnpluggedForASecond(c: Charger, log: seq<Beat>, e: Event)
    requires TimerInv(c, log) && e.Heartbeat?
    ensures PowersOff(c, e) <==>
            c.haveBatteryState && !c.connected && UnpluggedForASecond(log, e.now)
  {
    if c.haveBatteryState && !c.connected && c.nextPwrCheck != NEVER {
      var j :| Unplugged(log, j) && c.nextPwrCheck == log[j].time + UNPLUGGED_SHUTDOWN_TIME;
      forall k | UnpluggedSince(log, k) ensures j <= k && log[j].time <= log[k].time {
      }
    }
  }

  function LogOf(c: Charger, log: seq<Beat>, events: seq<Event>): seq<Beat>
    requires AnimationOk(c)
    decreases |events|
  {
    if events == [] then log
    else (StepKeepsAnimation(c, events[0]); LogOf(Step(c, events[0]), Logged(c, log, events[0]), events[1..]))
  }

  ghost predicate ClockRuns(c: Charger, log: seq<Beat>, events: seq<Event>)
    requires AnimationOk(c)
    decreases |events|
  {
    events != [] ==>
      && ClockRule(log, events[0])
      && (StepKeepsAnimation(c, events[0]); ClockRuns(Step(c, events[0]), Logged(c, log, events[0]), events[1..]))
  }

  lemma {:induction false} RunKeepsTimer(c: Charger, log: seq<Beat>, events: seq<Event>)
    requires AnimationOk(c) && TimerInv(c, log) && ClockRuns(c, log, events)
    ensures TimerInv(Run(c, events), LogOf(c, log, events))
    decreases |events|
  {
    if events != [] {
      StepKeepsAnimation(c, events[0]);
      StepKeepsTimer(c, log, events[0]);
      RunKeepsTimer(Step(c, events[0]), Logged(c, log, events[0]), events[1..]);
    }
  }

  /** The shutdown rule for every run from boot. */
  lemma ShutdownRuleInEveryRun(imagesLoaded: bool, events: seq<Event>, e: Event)
    requires ClockRuns(Booted(imagesLoaded), [], events) && e.Heartbeat?
    ensures
      var c := Run(Booted(imagesLoaded), events);
      var log := LogOf(Booted(imagesLoaded), [], events);
      PowersOff(c, e) <==>
        c.haveBatteryState && !c.connected && UnpluggedForASecond(log, e.now)
  {
    RunKeepsTimer(Booted(imagesLoaded), [], events);
    PowersOffIffUnpluggedForASecond(Run(Booted(imagesLoaded), events), LogOf(Booted(imagesLoaded), [], events), e);
  }
}
