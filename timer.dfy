/**
 * The countdown state machine of the timer page, stated on values.
 *
 * `State` gathers what the page keeps between events: its React state
 * (`time`, `isRunning`, `isAlarmPlaying`, `alarmSound`), the `alarmRef` slot
 * holding the current Howl instance, whether a one-second interval is
 * scheduled, and the instances that effect cleanups have already unloaded.
 * Each handler of the page is one function from the state before the event to
 * the state after it; `TimerPage.Page` runs the same events on mutable fields
 * and is proved against these functions.
 */
module Timer {
  import opened Optional
  import Clock

  /** `useState(25 * 60)` and the value `resetTimer` restores. */
  const DefaultSeconds: int := 25 * 60

  /** The three sounds offered by the alarm selector. */
  datatype AlarmSource = DefaultAlarm | GentleBell | DigitalBeep {
    /** The `value` of the selector option, which is also the Howl `src`. */
    function Path(): string {
      match this
      case DefaultAlarm => "/alarm-sound.mp3"
      case GentleBell => "/alarm-sound-2.mp3"
      case DigitalBeep => "/alarm-sound-3.mp3"
    }
  }

  /** The selector option whose value is `p`, if there is one. */
  function SourceOfPath(p: string): (r: Option<AlarmSource>)
    ensures forall src: AlarmSource :: r == Some(src) <==> src.Path() == p
  {
    if p == "/alarm-sound.mp3" then Some(DefaultAlarm)
    else if p == "/alarm-sound-2.mp3" then Some(GentleBell)
    else if p == "/alarm-sound-3.mp3" then Some(DigitalBeep)
    else None
  }

  /** A looping Howl instance, seen only through whether it sounds and whether it was unloaded. */
  datatype Instance = Instance(source: AlarmSource, playing: bool, unloaded: bool) {
    function Play(): Instance { this.(playing := true) }
    function Stop(): Instance { this.(playing := false) }
    function Unload(): Instance { this.(playing := false, unloaded := true) }
  }

  /** `new Howl({ src: [alarmSound], loop: true, volume: 0.5 })`: loaded and silent. */
  function NewHowl(src: AlarmSource): Instance {
    Instance(src, false, false)
  }

  /** Before the effects first ran, while mounted, after teardown. */
  datatype Phase = Rendered | Mounted | Unmounted

  datatype State = State(
    phase: Phase,
    time: int,
    isRunning: bool,
    isAlarmPlaying: bool,
    alarmSound: AlarmSource,
    alarmRef: Option<Instance>,
    intervalActive: bool,
    retired: seq<Instance>)

  /** Every Howl instance the page has created, oldest first. */
  function AllInstances(s: State): seq<Instance> {
    s.retired + if s.alarmRef.Some? then [s.alarmRef.value] else []
  }

  /**
   * What holds in every reachable state: instances left behind by a source
   * change are unloaded and silent; while mounted, the interval is scheduled
   * exactly when the timer runs and the slot holds a loaded instance of the
   * selected sound.
   */
  predicate Valid(s: State) {
    (forall i :: 0 <= i < |s.retired| ==> s.retired[i].unloaded && !s.retired[i].playing) &&
    match s.phase
    case Rendered =>
      s.alarmRef.None? && !s.isRunning && !s.intervalActive && s.retired == []
    case Mounted =>
      s.alarmRef.Some? && !s.alarmRef.value.unloaded &&
      s.alarmRef.value.source == s.alarmSound && s.intervalActive == s.isRunning
    case Unmounted =>
      s.alarmRef.Some? && s.alarmRef.value.unloaded && !s.alarmRef.value.playing &&
      !s.intervalActive
  }

  /** The page as first rendered: 25 minutes, stopped, silent, default sound, empty refs. */
  function Initial(): (r: State)
    ensures Valid(r) && r.phase == Rendered
    ensures r.time == DefaultSeconds && !r.isRunning && !r.isAlarmPlaying
    ensures r.alarmSound == DefaultAlarm && r.alarmRef.None? && AllInstances(r) == []
  {
    State(Rendered, DefaultSeconds, false, false, DefaultAlarm, None, false, [])
  }

  /** The value the `setTime` updater of a tick returns for `prevTime`. */
  function NextTime(prevTime: int): (t: nat)
    ensures t == 0 <==> prevTime <= 1
    ensures prevTime > 1 ==> t == prevTime - 1
  {
    if prevTime <= 1 then 0 else prevTime - 1
  }

  /** `parseInt(value) || 0`: a failed parse (NaN) counts as zero minutes. */
  function EnteredMinutes(parsed: Option<int>): (m: int)
    ensures parsed.Some? ==> m == parsed.value
    ensures parsed.None? ==> m == 0
  {
    match parsed
    case Some(v) => v
    case None => 0
  }

  /** The effect on `isRunning`: its cleanup clears any interval, its body schedules one while running. */
  function SyncInterval(s: State): State {
    s.(intervalActive := s.isRunning)
  }

  /** `playAlarm`: with an instance in the slot, play it and raise the flag; otherwise nothing. */
  function PlayAlarm(s: State): (r: State)
    ensures s.alarmRef.None? ==> r == s
    ensures s.alarmRef.Some? ==> r.isAlarmPlaying && r.alarmRef == Some(s.alarmRef.value.Play())
    ensures r.(isAlarmPlaying := s.isAlarmPlaying, alarmRef := s.alarmRef) == s
    ensures Valid(s) && s.phase != Unmounted ==> Valid(r)
  {
    match s.alarmRef
    case Some(howl) => s.(alarmRef := Some(howl.Play()), isAlarmPlaying := true)
    case None => s
  }

  /** `stopAlarm`: with an instance in the slot, stop it and lower the flag; otherwise nothing. */
  function StopAlarm(s: State): (r: State)
    ensures s.alarmRef.None? ==> r == s
    ensures s.alarmRef.Some? ==> !r.isAlarmPlaying && r.alarmRef == Some(s.alarmRef.value.Stop())
    ensures r.(isAlarmPlaying := s.isAlarmPlaying, alarmRef := s.alarmRef) == s
    ensures Valid(s) ==> Valid(r)
  {
    match s.alarmRef
    case Some(howl) => s.(alarmRef := Some(howl.Stop()), isAlarmPlaying := false)
    case None => s
  }

  /**
   * One firing of the interval. Above one second it only counts down; at one
   * second or less it clears the interval, stops the timer, sounds the alarm
   * and leaves zero on the clock.
   */
  function Tick(s: State): (r: State)
    requires Valid(s) && s.phase == Mounted && s.isRunning
    ensures Valid(r) && r.phase == Mounted && r.time >= 0
    ensures s.time > 1 ==> r == s.(time := s.time - 1)
    ensures s.time <= 1 ==>
      r.time == 0 && !r.isRunning && !r.intervalActive &&
      r.isAlarmPlaying && r.alarmRef == Some(s.alarmRef.value.Play())
    ensures r.alarmSound == s.alarmSound && r.retired == s.retired
  {
    var r := if s.time <= 1 then PlayAlarm(SyncInterval(s.(isRunning := false))) else s;
    r.(time := NextTime(s.time))
  }

  /** `toggleTimer`: flip `isRunning`, and stop the alarm if the flag says it sounds. */
  function ToggleTimer(s: State): (r: State)
    requires Valid(s) && s.phase == Mounted
    ensures Valid(r) && r.phase == Mounted
    ensures r.isRunning == !s.isRunning && r.time == s.time
    ensures !r.isAlarmPlaying
    ensures s.isAlarmPlaying ==> r.alarmRef == Some(s.alarmRef.value.Stop())
    ensures !s.isAlarmPlaying ==> r.alarmRef == s.alarmRef
    ensures r.alarmSound == s.alarmSound && r.retired == s.retired
  {
    var t := SyncInterval(s.(isRunning := !s.isRunning));
    if s.isAlarmPlaying then StopAlarm(t) else t
  }

  /** `resetTimer`: stop, put 25 minutes back on the clock, stop the alarm unconditionally. */
  function ResetTimer(s: State): (r: State)
    requires Valid(s) && s.phase == Mounted
    ensures Valid(r) && r.phase == Mounted
    ensures r.time == DefaultSeconds && !r.isRunning && !r.isAlarmPlaying
    ensures r.alarmRef == Some(s.alarmRef.value.Stop())
    ensures r.alarmSound == s.alarmSound && r.retired == s.retired
  {
    StopAlarm(SyncInterval(s.(isRunning := false, time := DefaultSeconds)))
  }

  /** `handleTimeChange`: the entered minutes, unclamped, times 60 become the time left. */
  function HandleTimeChange(s: State, parsed: Option<int>): (r: State)
    requires Valid(s) && s.phase == Mounted
    ensures Valid(r) && r.time % 60 == 0
    ensures Clock.MinutesPart(r.time) == EnteredMinutes(parsed)
    ensures r.(time := s.time) == s
  {
    s.(time := EnteredMinutes(parsed) * 60)
  }

  /**
   * A new choice in the sound selector. When the value differs, React re-runs
   * the alarm effect: its cleanup unloads the current instance, then a fresh
   * silent instance of the new sound takes the slot. `isAlarmPlaying` is left as it was.
   */
  function ChangeAlarmSound(s: State, src: AlarmSource): (r: State)
    requires Valid(s) && s.phase == Mounted
    ensures Valid(r) && r.phase == Mounted
    ensures r.alarmSound == src && r.alarmRef.value.source == src
    ensures r.time == s.time && r.isRunning == s.isRunning && r.isAlarmPlaying == s.isAlarmPlaying
    ensures src == s.alarmSound ==> r == s
    ensures src != s.alarmSound ==>
      r.retired == s.retired + [s.alarmRef.value.Unload()] && r.alarmRef == Some(NewHowl(src))
  {
    if src == s.alarmSound then s
    else s.(alarmSound := src, retired := s.retired + [s.alarmRef.value.Unload()],
            alarmRef := Some(NewHowl(src)))
  }

  /** The Test button: stop then play the current instance; the alarm flag is not touched. */
  function TestAlarm(s: State): (r: State)
    requires Valid(s) && s.phase == Mounted
    ensures Valid(r) && r.(alarmRef := s.alarmRef) == s
    ensures r.alarmRef.Some? && r.alarmRef.value.playing
    ensures r.alarmRef.value.source == s.alarmRef.value.source
  {
    s.(alarmRef := Some(s.alarmRef.value.Stop().Play()))
  }

  /** The first run of both effects: no interval (the timer is stopped), a fresh instance of the sound. */
  function Mount(s: State): (r: State)
    requires Valid(s) && s.phase == Rendered
    ensures Valid(r) && r.phase == Mounted
    ensures r.alarmRef == Some(NewHowl(s.alarmSound)) && !r.intervalActive
    ensures r.(phase := s.phase, alarmRef := s.alarmRef) == s
  {
    SyncInterval(s).(phase := Mounted, alarmRef := Some(NewHowl(s.alarmSound)))
  }

  /** Teardown: both effect cleanups run, clearing the interval and unloading the instance. */
  function Unmount(s: State): (r: State)
    requires Valid(s) && s.phase == Mounted
    ensures Valid(r) && r.phase == Unmounted
    ensures !r.intervalActive && r.alarmRef == Some(s.alarmRef.value.Unload())
    ensures r.time == s.time && r.retired == s.retired
  {
    s.(phase := Unmounted, intervalActive := false, alarmRef := Some(s.alarmRef.value.Unload()))
  }

  // ---------------------------------------------------------------------------
  // Sequences of events

  /** What can happen to the page; the interval fires only while scheduled. */
  datatype Event =
    | IntervalFired
    | ToggleClicked
    | ResetClicked
    | DurationTyped(parsed: Option<int>)
    | SoundSelected(src: AlarmSource)
    | TestClicked
    | PageMounted
    | PageUnmounted

  /** One event; an event that cannot occur in the current phase leaves the page as it is. */
  function Apply(s: State, e: Event): (r: State)
    requires Valid(s)
    ensures Valid(r)
    ensures r.phase == Rendered ==> s.phase == Rendered
    ensures s.phase == Unmounted ==> r == s
  {
    match e
    case IntervalFired => if s.phase == Mounted && s.intervalActive then Tick(s) else s
    case ToggleClicked => if s.phase == Mounted then ToggleTimer(s) else s
    case ResetClicked => if s.phase == Mounted then ResetTimer(s) else s
    case DurationTyped(parsed) => if s.phase == Mounted then HandleTimeChange(s, parsed) else s
    case SoundSelected(src) => if s.phase == Mounted then ChangeAlarmSound(s, src) else s
    case TestClicked => if s.phase == Mounted then TestAlarm(s) else s
    case PageMounted => if s.phase == Rendered then Mount(s) else s
    case PageUnmounted => if s.phase == Mounted then Unmount(s) else s
  }

  /** The events in order. */
  function Replay(s: State, es: seq<Event>): (r: State)
    requires Valid(s)
    ensures Valid(r)
    ensures |s.retired| <= |r.retired| && r.retired[..|s.retired|] == s.retired
    decreases |es|
  {
    if es == [] then s else Replay(Apply(s, es[0]), es[1..])
  }

  predicate NoNegativeEntry(es: seq<Event>) {
    forall i :: 0 <= i < |es| && es[i].DurationTyped? ==> EnteredMinutes(es[i].parsed) >= 0
  }

  /** The time left stays non-negative through any events unless a negative duration is typed. */
  lemma {:induction false} TimeStaysNonNegative(s: State, es: seq<Event>)
    requires Valid(s) && s.time >= 0 && NoNegativeEntry(es)
    ensures Replay(s, es).time >= 0
    decreases |es|
  {
    if es != [] {
      assert NoNegativeEntry(es[1..]) by {
        forall i | 0 <= i < |es[1..]| && es[1..][i].DurationTyped?
          ensures EnteredMinutes(es[1..][i].parsed) >= 0
        {
          assert es[1..][i] == es[i + 1];
        }
      }
      TimeStaysNonNegative(Apply(s, es[0]), es[1..]);
    }
  }

  /** Nothing clamps the entry: a typed -1 puts -60 seconds on the clock. */
  lemma NegativeTimeReachable()
    ensures Replay(Initial(), [PageMounted, DurationTyped(Some(-1))]).time == -60
  {
    var s1 := Apply(Initial(), PageMounted);
    var s2 := Apply(s1, DurationTyped(Some(-1)));
    assert [PageMounted, DurationTyped(Some(-1))][1..] == [DurationTyped(Some(-1))];
    assert Replay(Initial(), [PageMounted, DurationTyped(Some(-1))]) == Replay(s1, [DurationTyped(Some(-1))]);
    assert Replay(s1, [DurationTyped(Some(-1))]) == Replay(s2, []);
  }

  // ---------------------------------------------------------------------------
  // At most one loaded instance

  /** How many of the instances are still loaded. */
  function Loaded(xs: seq<Instance>): nat {
    if xs == [] then 0 else Loaded(xs[..|xs| - 1]) + (if xs[|xs| - 1].unloaded then 0 else 1)
  }

  lemma {:induction false} LoadedNone(xs: seq<Instance>)
    requires forall i :: 0 <= i < |xs| ==> xs[i].unloaded
    ensures Loaded(xs) == 0
  {
    if xs != [] {
      LoadedNone(xs[..|xs| - 1]);
    }
  }

  /**
   * The effect cleanup unloads the old instance before a new one is created:
   * of all instances the page ever made, at most one is loaded, and while
   * mounted exactly one is.
   */
  lemma AtMostOneLoaded(s: State)
    requires Valid(s)
    ensures Loaded(AllInstances(s)) <= 1
    ensures s.phase == Mounted <==> Loaded(AllInstances(s)) == 1
  {
    LoadedNone(s.retired);
    var all := AllInstances(s);
    if s.alarmRef.Some? {
      assert all[..|all| - 1] == s.retired;
    } else {
      assert all == s.retired;
    }
  }

  lemma AtMostOneLoadedEver(es: seq<Event>)
    ensures Loaded(AllInstances(Replay(Initial(), es))) <= 1
  {
    AtMostOneLoaded(Replay(Initial(), es));
  }

  // ---------------------------------------------------------------------------
  // Running down to zero

  /** Up to `n` firings of the interval, stopping early once it is cleared. */
  function Run(s: State, n: nat): (r: State)
    requires Valid(s) && s.phase == Mounted
    ensures Valid(r) && r.phase == Mounted
    decreases n
  {
    if n == 0 || !s.isRunning then s else Run(Tick(s), n - 1)
  }

  /** How many of those firings sounded the alarm. */
  function Expiries(s: State, n: nat): nat
    requires Valid(s) && s.phase == Mounted
    decreases n
  {
    if n == 0 || !s.isRunning then 0
    else (if s.time <= 1 then 1 else 0) + Expiries(Tick(s), n - 1)
  }

  /** Before the time is used up each firing takes exactly one second off and changes nothing else. */
  lemma {:induction false} RunCountsDown(s: State, n: nat)
    requires Valid(s) && s.phase == Mounted && s.isRunning && n < s.time
    ensures Run(s, n) == s.(time := s.time - n)
    ensures Expiries(s, n) == 0
    decreases n
  {
    if n > 0 {
      RunCountsDown(Tick(s), n - 1);
    }
  }

  /**
   * A running timer with `t` seconds left stops after max(t, 1) firings with
   * zero on the clock and the alarm flag raised, and the alarm was started by
   * exactly one of those firings, whatever the number of further firings asked for.
   */
  lemma {:induction false} RunExpiresOnce(s: State, n: nat)
    requires Valid(s) && s.phase == Mounted && s.isRunning
    requires n >= s.time && n >= 1
    ensures Run(s, n).time == 0 && !Run(s, n).isRunning && Run(s, n).isAlarmPlaying
    ensures Expiries(s, n) == 1
    decreases n
  {
    if s.time > 1 {
      RunExpiresOnce(Tick(s), n - 1);
    }
  }

  /** Whatever the state, no number of firings sounds the alarm twice. */
  lemma {:induction false} AlarmStartsAtMostOnce(s: State, n: nat)
    requires Valid(s) && s.phase == Mounted
    ensures Expiries(s, n) <= 1
    ensures Expiries(s, n) == 1 <==> s.isRunning && n >= 1 && n >= s.time
    decreases n
  {
    if n > 0 && s.isRunning {
      if s.time <= 1 {
        assert !Tick(s).isRunning;
      } else {
        AlarmStartsAtMostOnce(Tick(s), n - 1);
      }
    }
  }

  // ---------------------------------------------------------------------------
  // Handlers, one against another

  /** There is no expired state: starting again from zero sounds the alarm again one firing later. */
  lemma RestartFromZeroRefires(s: State)
    requires Valid(s) && s.phase == Mounted && !s.isRunning && s.time <= 1
    ensures var r := Tick(ToggleTimer(s));
      r.time == 0 && !r.isRunning && r.isAlarmPlaying && r.alarmRef.value.playing
  {
  }

  /** Reset always restores 25 minutes, whatever duration was typed before it. */
  lemma ResetForgetsEnteredDuration(s: State, parsed: Option<int>)
    requires Valid(s) && s.phase == Mounted
    ensures ResetTimer(HandleTimeChange(s, parsed)) == ResetTimer(s)
  {
  }

  /** Typing a duration while running takes effect at once: the next firing counts down from it. */
  lemma EntryWhileRunning(s: State, m: int)
    requires Valid(s) && s.phase == Mounted && s.isRunning && m >= 1
    ensures Tick(HandleTimeChange(s, Some(m))).time == m * 60 - 1
  {
  }

  lemma PlayAlarmIdempotent(s: State)
    ensures PlayAlarm(PlayAlarm(s)) == PlayAlarm(s)
  {
  }

  lemma StopAlarmIdempotent(s: State)
    ensures StopAlarm(StopAlarm(s)) == StopAlarm(s)
  {
  }

  /**
   * Choosing another sound while the alarm sounds silences it (the sounding
   * instance is unloaded and the new one is not played), yet the flag still
   * says the alarm is playing.
   */
  lemma SoundChangeSilencesAlarm(s: State, src: AlarmSource)
    requires Valid(s) && s.phase == Mounted && s.isAlarmPlaying && src != s.alarmSound
    ensures var r := ChangeAlarmSound(s, src);
      r.isAlarmPlaying && forall x :: x in AllInstances(r) ==> !x.playing
  {
    var r := ChangeAlarmSound(s, src);
    forall x | x in AllInstances(r) ensures !x.playing {
      var i :| 0 <= i < |AllInstances(r)| && AllInstances(r)[i] == x;
      if i < |r.retired| {
        assert x == r.retired[i];
      }
    }
  }

  /**
   * A test sound does not raise the alarm flag, so the play/pause button does
   * not stop it: it keeps looping until reset or a sound change.
   */
  lemma TestSoundSurvivesToggle(s: State)
    requires Valid(s) && s.phase == Mounted && !s.isAlarmPlaying
    ensures ToggleTimer(TestAlarm(s)).alarmRef.value.playing
    ensures !ResetTimer(TestAlarm(s)).alarmRef.value.playing
  {
  }
}
