/** The charger-mode state as it is kept: fields that every heartbeat updates in place. Each
    method is proved to do what `ChargerMode` says. */
module ChargerDevice {
  import opened ChargerMode

  class ChargerState {
    const frames: seq<AnimFrame>
    var run: bool
    var curFrame: int
    var numFrames: int
    var curCycle: int
    var numCycles: int
    var capacity: int
    var haveBatteryState: bool
    var connected: bool
    var battery: Level
    var nextScreenTransition: int
    var nextPwrCheck: int
    var screenInited: bool

    ghost function View(): Charger
      reads this
    {
      Charger(frames, run, curFrame, numFrames, curCycle, numCycles, capacity, haveBatteryState, connected, battery,
              nextScreenTransition, nextPwrCheck, screenInited)
    }

    ghost predicate Valid()
      reads this
    {
      AnimationOk(View())
    }

    constructor (imagesLoaded: bool)
      ensures Valid() && View() == Booted(imagesLoaded)
    {
      frames := BATTERY_FRAMES;
      run, curFrame, numFrames, curCycle, numCycles, capacity := false, 0, |BATTERY_FRAMES|, 0, 3, 0;
      haveBatteryState, connected, battery := false, false, Unknown;
      nextScreenTransition, nextPwrCheck, screenInited := NEVER, NEVER, false;
      if !imagesLoaded {
        numFrames := 0;
        numCycles := 1;
      }
    }

    method KickAnimation()
      modifies this`run
      ensures View() == Kick(old(View()))
    {
      run := true;
    }

    method ResetAnimation()
      modifies this`run, this`curCycle, this`curFrame
      ensures View() == ChargerMode.ResetAnimation(old(View()))
    {
      curCycle := 0;
      curFrame := 0;
      run := false;
    }

    /** The search for the frame of a battery level. */
    method FindLevelFrame(level: int) returns (r: int)
      requires 1 <= numFrames <= |frames|
      ensures r == LevelFrame(frames, numFrames, level, 1)
    {
      var i := 1;
      while i < numFrames
        invariant 1 <= i <= numFrames
        invariant LevelFrame(frames, numFrames, level, i) == LevelFrame(frames, numFrames, level, 1)
      {
        if level < frames[i].minCapacity { break; }
        i := i + 1;
      }
      r := i - 1;
    }

    /** The start of a cycle, and the display time of the frame. */
    method StartCycle() returns (dispTime: int)
      requires Valid()
      modifies this`curFrame, this`capacity
      ensures View() == CycleStarted(old(View())) && dispTime == DisplayTime(old(View()))
    {
      dispTime := frames[curFrame].dispTime;
      if curFrame == 0 {
        if battery.Known? && battery.level >= 0 && numFrames != 0 {
          var i := FindLevelFrame(battery.level);
          curFrame := i;
          dispTime := frames[curFrame].dispTime * 2;
        }
        if battery.Known? {
          capacity := battery.level;
        }
      }
    }

    method Advance()
      requires Valid() && curFrame < numFrames
      modifies this`curFrame, this`curCycle
      ensures View() == FrameShown(old(View()))
    {
      if connected {
        curFrame := curFrame + 1;
        while curFrame < numFrames && frames[curFrame].levelOnly
          invariant 0 <= curFrame <= numFrames && curCycle == old(curCycle)
          invariant NextShown(frames, numFrames, curFrame) == NextShown(frames, numFrames, old(curFrame) + 1)
        {
          curFrame := curFrame + 1;
        }
        if curFrame >= numFrames {
          curCycle := curCycle + 1;
          curFrame := 0;
        }
      } else {
        curFrame := 0;
        curCycle := curCycle + 1;
      }
    }

    /** After the start of the cycle: without frames or a known capacity the cycle ends. */
    method ShowFrame(now: int, dispTime: int)
      requires Valid() && (numFrames != 0 && capacity >= 0 ==> curFrame < numFrames)
      modifies this`curFrame, this`curCycle, this`nextScreenTransition
      ensures View() == Shown(old(View()), now, dispTime)
    {
      if numFrames == 0 || capacity < 0 {
        nextScreenTransition := now + BATTERY_UNKNOWN_TIME;
        curCycle := curCycle + 1;
        return;
      }
      nextScreenTransition := now + dispTime;
      Advance();
    }

    method PlayFrame(now: int)
      requires Valid() && curCycle < numCycles
      modifies this`curFrame, this`curCycle, this`capacity, this`nextScreenTransition
      ensures View() == Played(old(View()), now)
    {
      CycleStartedOk(View());
      var dispTime := StartCycle();
      ShowFrame(now, dispTime);
    }

    method UpdateScreenState(now: int, screenOn: bool)
      requires Valid()
      modifies this
      ensures Valid() && View() == UpdateScreen(old(View()), now, screenOn)
    {
      UpdateScreenProgress(View(), now, screenOn);
      if !run || now < nextScreenTransition { return; }
      if !screenInited {
        if !screenOn {
          run := false;
          nextScreenTransition := NEVER;
          return;
        }
        screenInited := true;
      }
      if curCycle == numCycles {
        ResetAnimation();
        nextScreenTransition := NEVER;
        return;
      }
      PlayFrame(now);
    }

    method HandlePowerSupplyState(now: int) returns (powerOff: bool)
      requires Valid()
      modifies this`nextPwrCheck, this`run
      ensures Valid() && (View(), powerOff) == HandlePower(old(View()), now)
    {
      powerOff := false;
      if !haveBatteryState { return; }
      if !connected {
        if nextPwrCheck == NEVER {
          nextPwrCheck := now + UNPLUGGED_SHUTDOWN_TIME;
        } else if now >= nextPwrCheck {
          powerOff := true;
        }
      } else {
        if nextPwrCheck != NEVER {
          KickAnimation();
        }
        nextPwrCheck := NEVER;
      }
    }

    /** One heartbeat; `keyReleased` says that the power key was just let go. */
    method OnHeartbeat(now: int, screenOn: bool, keyReleased: bool) returns (powerOff: bool)
      requires Valid()
      modifies this
      ensures Valid() && View() == Step(old(View()), Heartbeat(now, screenOn, keyReleased))
      ensures powerOff == PowersOff(old(View()), Heartbeat(now, screenOn, keyReleased))
    {
      if keyReleased { KickAnimation(); }
      powerOff := HandlePowerSupplyState(now);
      UpdateScreenState(now, screenOn);
    }

    method OnBatteryUpdate(now: int, acOnline: bool, usbOnline: bool, level: int)
      requires Valid()
      modifies this
      ensures Valid() && View() == Step(old(View()), BatteryUpdate(now, acOnline || usbOnline, level))
    {
      connected := acOnline || usbOnline;
      if !haveBatteryState {
        haveBatteryState := true;
        nextScreenTransition := now - 1;
        ResetAnimation();
        KickAnimation();
      }
      battery := Known(level);
    }
  }
}
