/**
 * The timer page as the mutable component it is: its state cells and refs are
 * fields, each handler is a method that updates them in place, and each
 * method's postcondition says the new state is the one `Timer` computes from
 * the old, so the properties proved there hold of the page.
 */
module TimerPage {
  import opened Optional
  import opened Timer
  import Clock

  class Page {
    var phase: Phase
    var time: int
    var isRunning: bool
    var isAlarmPlaying: bool
    var alarmSound: AlarmSource
    /** `alarmRef.current`: the Howl instance of the selected sound, once the effect has run. */
    var alarmRef: Option<Instance>
    /** Whether the interval stored in `timerRef` is scheduled and not cleared. */
    var intervalActive: bool
    /** Instances unloaded by the alarm effect's cleanup, oldest first. */
    ghost var retired: seq<Instance>

    ghost function Snapshot(): State
      reads this
    {
      State(phase, time, isRunning, isAlarmPlaying, alarmSound, alarmRef, intervalActive, retired)
    }

    ghost predicate Valid()
      reads this
    {
      Timer.Valid(Snapshot())
    }

    /** The first render: the `useState` and `useRef` initial values. */
    constructor ()
      ensures Valid() && Snapshot() == Initial()
    {
      phase := Rendered;
      time := DefaultSeconds;
      isRunning := false;
      isAlarmPlaying := false;
      alarmSound := DefaultAlarm;
      alarmRef := None;
      intervalActive := false;
      retired := [];
    }

    /** The effect on `isRunning`: clear the previous interval, schedule a new one while running. */
    method RunTimerEffect()
      modifies this
      ensures Snapshot() == SyncInterval(old(Snapshot()))
    {
      intervalActive := false;
      if isRunning {
        intervalActive := true;
      }
    }

    /** The effect on `alarmSound`: its cleanup unloads the current instance, its body loads the sound. */
    method RunAlarmEffect(cleanup: bool)
      requires cleanup ==> alarmRef.Some?
      modifies this
      ensures alarmRef == Some(NewHowl(alarmSound))
      ensures retired == if cleanup then old(retired) + [old(alarmRef).value.Unload()] else old(retired)
      ensures Snapshot().(alarmRef := old(alarmRef), retired := old(retired)) == old(Snapshot())
    {
      if cleanup {
        retired := retired + [alarmRef.value.Unload()];
      }
      alarmRef := Some(NewHowl(alarmSound));
    }

    method Mount()
      requires Valid() && phase == Rendered
      modifies this
      ensures Valid() && Snapshot() == Timer.Mount(old(Snapshot()))
    {
      RunTimerEffect();
      RunAlarmEffect(false);
      phase := Mounted;
    }

    method PlayAlarm()
      requires Valid() && phase != Unmounted
      modifies this
      ensures Valid() && Snapshot() == Timer.PlayAlarm(old(Snapshot()))
    {
      if alarmRef.Some? {
        alarmRef := Some(alarmRef.value.Play());
        isAlarmPlaying := true;
      }
    }

    method StopAlarm()
      requires Valid()
      modifies this
      ensures Valid() && Snapshot() == Timer.StopAlarm(old(Snapshot()))
    {
      if alarmRef.Some? {
        alarmRef := Some(alarmRef.value.Stop());
        isAlarmPlaying := false;
      }
    }

    /** The interval callback: the `setTime` updater and the calls it makes. */
    method Tick()
      requires Valid() && phase == Mounted && isRunning
      modifies this
      ensures Valid() && Snapshot() == Timer.Tick(old(Snapshot()))
    {
      var prevTime := time;
      if prevTime <= 1 {
        intervalActive := false;
        isRunning := false;
        RunTimerEffect();
        PlayAlarm();
      }
      time := NextTime(prevTime);
    }

    method ToggleTimer()
      requires Valid() && phase == Mounted
      modifies this
      ensures Valid() && Snapshot() == Timer.ToggleTimer(old(Snapshot()))
    {
      var alarmWasPlaying := isAlarmPlaying;
      isRunning := !isRunning;
      RunTimerEffect();
      if alarmWasPlaying {
        StopAlarm();
      }
    }

    method ResetTimer()
      requires Valid() && phase == Mounted
      modifies this
      ensures Valid() && Snapshot() == Timer.ResetTimer(old(Snapshot()))
    {
      isRunning := false;
      time := DefaultSeconds;
      RunTimerEffect();
      StopAlarm();
    }

    /** `handleTimeChange`, given what `parseInt` made of the input's text. */
    method HandleTimeChange(parsed: Option<int>)
      requires Valid() && phase == Mounted
      modifies this
      ensures Valid() && Snapshot() == Timer.HandleTimeChange(old(Snapshot()), parsed)
    {
      time := EnteredMinutes(parsed) * 60;
    }

    /** The selector's `onChange`; React re-runs the alarm effect only for a different value. */
    method ChangeAlarmSound(src: AlarmSource)
      requires Valid() && phase == Mounted
      modifies this
      ensures Valid() && Snapshot() == Timer.ChangeAlarmSound(old(Snapshot()), src)
    {
      if src != alarmSound {
        alarmSound := src;
        RunAlarmEffect(true);
      }
    }

    /** The Test button's handler. */
    method TestAlarm()
      requires Valid() && phase == Mounted
      modifies this
      ensures Valid() && Snapshot() == Timer.TestAlarm(old(Snapshot()))
    {
      if alarmRef.Some? {
        alarmRef := Some(alarmRef.value.Stop());
        alarmRef := Some(alarmRef.value.Play());
      }
    }

    /** Teardown: the cleanups of both effects. */
    method Unmount()
      requires Valid() && phase == Mounted
      modifies this
      ensures Valid() && Snapshot() == Timer.Unmount(old(Snapshot()))
    {
      intervalActive := false;
      alarmRef := Some(alarmRef.value.Unload());
      phase := Unmounted;
    }

    /** The large clock face. */
    method ClockText() returns (text: string)
      ensures time >= 0 ==> Clock.ParseClock(text) == Some(time)
      ensures text == Clock.FormatTime(time)
    {
      text := Clock.FormatTime(time);
      if time >= 0 {
        Clock.FormatTimeRoundTrip(time);
      }
    }

    /** The value shown in the duration input: `Math.floor(time / 60)`. */
    method MinutesValue() returns (minutes: int)
      ensures minutes * 60 <= time < minutes * 60 + 60
    {
      minutes := Clock.MinutesPart(time);
    }
  }

  /**
   * A session: the page mounts, a 1-minute duration is typed, the timer is
   * started and runs out; the alarm sounds, and reset silences it.
   */
  method OneMinuteSession() returns (page: Page)
    ensures page.Valid() && page.phase == Mounted
    ensures page.time == DefaultSeconds && !page.isRunning && !page.isAlarmPlaying
  {
    page := new Page();
    page.Mount();
    page.HandleTimeChange(Some(1));
    assert page.time == 60;
    page.ToggleTimer();
    var ticks := 0;
    while page.isRunning
      invariant page.Valid() && page.phase == Mounted
      invariant page.isRunning ==> ticks + page.time == 60 && page.time >= 1
      invariant !page.isRunning ==>
        page.time == 0 && ticks == 60 && page.isAlarmPlaying && page.alarmRef.value.playing
      decreases page.time + (if page.isRunning then 1 else 0)
    {
      page.Tick();
      ticks := ticks + 1;
    }
    assert page.isAlarmPlaying && page.alarmRef.value.playing;
    page.ResetTimer();
  }
}
