# MiniTimer countdown: a Dafny model

MiniTimer is a single-page countdown timer. The page keeps the seconds left
(`time`), whether the countdown runs (`isRunning`), whether the alarm flag is up
(`isAlarmPlaying`) and the chosen alarm sound (`alarmSound`). Two refs hold the
one-second interval and the looping Howl audio instance. This project models
that state machine and the `MM:SS` clock face, and proves what the handlers do
to it.

- `optional.dfy` (`Optional`): the `Option` type. It is used for a `parseInt`
  result, for the empty `alarmRef` slot and for a clock text that does not parse.
- `clock.dfy` (`Clock`): `formatTime` with JavaScript's semantics: `Math.floor`
  for minutes, the truncating `%` for seconds, `toString` and `padStart`.
  `ParseClock` is an independent reader of the text. For every non-negative
  count, reading the formatted text gives the count back.
- `timer.dfy` (`Timer`): the page state as a value. It has one function per event:
  interval tick, toggle, reset, duration entry, play/stop alarm, sound change,
  Test, mount and teardown. `Valid` is the invariant of reachable states.
  `Apply` and `Replay` run sequences of events. The lemmas cover running down,
  the alarm starting at most once per run, the time staying non-negative, and
  at most one loaded audio instance.
- `timer_page.dfy` (`TimerPage`): the page as a class. The state cells and refs
  are fields and each handler is a method that updates them in place. Each
  method ensures that the new state is what the matching `Timer` function
  computes from the old state.

Where the code and the page's design description disagree, the model follows the code:

- A typed duration is not clamped to 1..120 minutes. The input's `min`/`max`
  are only hints, a failed parse gives 0, and a negative entry gives a negative time.
- Reset always restores 1500 s (25 minutes). The last entered duration is not
  kept anywhere.
- There is no expired state. After a run ends, toggling starts the timer again
  from 0, and the next tick sounds the alarm again.
- Toggling stops the alarm only when the `isAlarmPlaying` flag is up. A sound
  started with Test keeps looping through toggles.
- Changing the sound unloads the sounding instance and loads a silent one.
  `isAlarmPlaying` stays as it was, so the alarm goes quiet while the flag still
  says it is playing.
- A duration typed while the timer runs replaces the time at once. The next tick
  counts down from the new value.

## Model

| member | source | states |
|---|---|---|
| `Clock.FormatTimeFields` | frontend/src/app/page.tsx:83-87 | for s >= 0 the clock reads minutes, ':' and two seconds digits; the minutes field holds floor(s / 60) unbounded, the seconds field s % 60 < 60, and together they make up s |
| `Clock.FormatTimeRoundTrip` | frontend/src/app/page.tsx:83-87 | reading the clock text back as minutes*60 + seconds gives the count that was formatted, for every s >= 0 |
| `Clock.SplitSeconds` | frontend/src/app/page.tsx:84-85 | for s >= 0 the minutes are non-negative, the seconds lie in 0..59, and minutes*60 + seconds = s |
| `Clock.FormatTimeNat` | frontend/src/app/page.tsx:83-87 | for s >= 0 neither field carries a minus sign: the clock is the zero-padded digits of the two parts joined by ':' |
| `Clock.ClockTextFields` | frontend/src/app/page.tsx:86 | the two zero-padded fields of a clock text read back as the numbers they were made from |
| `Clock.ClockTextRoundTrip` | frontend/src/app/page.tsx:86 | a clock text of m minutes and c < 60 seconds reads back as m*60 + c |
| `Clock.FormatTimeInjective` | frontend/src/app/page.tsx:83-87 | two different non-negative counts never show the same clock text |
| `Clock.FormatTwoHours` | frontend/src/app/page.tsx:83-87 | minutes are not wrapped: 7200 s shows as "120:00" |
| `Clock.FormatNegative` | frontend/src/app/page.tsx:83-87 | on negative counts floor and truncation mix: -5 shows as "-1:-5" |
| `Clock.MinutesPart` | frontend/src/app/page.tsx:84 | the minutes m satisfy m*60 <= s < m*60 + 60 (rounding down, also for negatives) |
| `Clock.SecondsPart` | frontend/src/app/page.tsx:85 | the remainder keeps the sign of s: for s >= 0 it is s minus the floored minutes (in 0..59); for s < 0 it is s plus the whole minutes of -s (in -59..0) |
| `Clock.NatToString` | frontend/src/app/page.tsx:86 | the digits of n: non-empty, led by a digit, no leading zero unless n = 0, one digit iff n < 10, two iff 10 <= n < 100 |
| `Clock.IntToString` | frontend/src/app/page.tsx:86 | non-empty; a minus sign leads exactly when the number is negative |
| `Clock.PadStart` | frontend/src/app/page.tsx:86 | the result has length max(|s|, width), ends with s and is filled on the left; s is never truncated |
| `Clock.ParseNatToString` | frontend/src/app/page.tsx:86 | reading the digits that toString produced gives the number back |
| `Clock.ParseLeadingZeros` | frontend/src/app/page.tsx:86 | leading zeros added by padStart do not change the value of a digit string |
| `Clock.PadStartZerosKeepsValue` | frontend/src/app/page.tsx:86 | zero-padding a string does not change what it reads as |
| `Timer.SourceOfPath` | frontend/src/app/page.tsx:189-191 | a selector value maps to the one sound whose path it is, and to none for any other text |
| `Timer.Initial` | frontend/src/app/page.tsx:8-14 | first render: 1500 s, stopped, flag down, default sound, no instance yet, and the invariant holds |
| `Timer.NextTime` | frontend/src/app/page.tsx:19-27 | the tick updater never returns a negative value; it returns 0 exactly when prevTime <= 1, otherwise prevTime - 1 |
| `Timer.EnteredMinutes` | frontend/src/app/page.tsx:90 | a parsed integer is taken as is, a failed parse counts as 0 |
| `Timer.PlayAlarm` | frontend/src/app/page.tsx:56-61 | with an instance, it plays and the flag rises; without one, nothing changes; nothing else changes; the invariant is kept |
| `Timer.StopAlarm` | frontend/src/app/page.tsx:63-68 | with an instance, it stops and the flag falls; without one, nothing changes; nothing else changes; the invariant is kept |
| `Timer.Tick` | frontend/src/app/page.tsx:16-40 | allowed only while the interval runs; above 1 s only time drops by one; at <= 1 s time becomes 0, the timer stops, the interval is cleared and the alarm plays with its flag up; time is never negative afterwards |
| `Timer.ToggleTimer` | frontend/src/app/page.tsx:70-75 | isRunning flips and the interval follows it; time is unchanged; afterwards the flag is down, and the instance is stopped only if the flag was up |
| `Timer.ResetTimer` | frontend/src/app/page.tsx:77-81 | from any state: stopped, no interval, 1500 s, flag down and instance stopped |
| `Timer.HandleTimeChange` | frontend/src/app/page.tsx:89-92 | time becomes the entered minutes times 60, unclamped and even while running; the input then shows exactly those minutes; nothing else changes |
| `Timer.ChangeAlarmSound` | frontend/src/app/page.tsx:42-54 | the latest choice owns the slot; a different choice unloads the old instance into the retired list before a fresh silent one is made; the same choice changes nothing; the flag, time and running state are untouched |
| `Timer.TestAlarm` | frontend/src/app/page.tsx:172-177 | the current instance ends up playing; the flag and everything else are unchanged |
| `Timer.Mount` | frontend/src/app/page.tsx:16-54 | the first effect runs schedule no interval and load the selected sound into the slot |
| `Timer.Unmount` | frontend/src/app/page.tsx:35-53 | teardown clears the interval and unloads the instance, leaving time and the retired list as they were |
| `Timer.Apply` | frontend/src/app/page.tsx:133-186 | every event the page can receive keeps the invariant; teardown is final |
| `Timer.Replay` | frontend/src/app/page.tsx:133-186 | any sequence of events keeps the invariant, and unloaded instances are never brought back |
| `Timer.TimeStaysNonNegative` | frontend/src/app/page.tsx:19-27 | from a non-negative time, no sequence of events without a negative entry makes the time negative |
| `Timer.NegativeTimeReachable` | frontend/src/app/page.tsx:89-92 | typing -1 right after mount leaves -60 s on the clock (nothing clamps) |
| `Timer.AtMostOneLoaded` | frontend/src/app/page.tsx:42-54 | of all instances ever created at most one is loaded, and exactly one while mounted |
| `Timer.AtMostOneLoadedEver` | frontend/src/app/page.tsx:42-54 | from the first render, after any sequence of events at most one instance is loaded |
| `Timer.RunCountsDown` | frontend/src/app/page.tsx:19-27 | while more than n seconds are left, n ticks take exactly n seconds off, change nothing else and never sound the alarm |
| `Timer.RunExpiresOnce` | frontend/src/app/page.tsx:19-32 | a running timer with t seconds left stops after max(t, 1) ticks with 0 left and the flag up, and exactly one tick started the alarm |
| `Timer.AlarmStartsAtMostOnce` | frontend/src/app/page.tsx:19-24 | any number of ticks starts the alarm at most once, and exactly once iff the timer runs and there are at least max(t, 1) ticks |
| `Timer.RestartFromZeroRefires` | frontend/src/app/page.tsx:19-32 | starting the timer again at 0 or 1 s sounds the alarm again on the next tick |
| `Timer.ResetForgetsEnteredDuration` | frontend/src/app/page.tsx:77-81 | reset gives the same state whether or not a duration was typed just before it |
| `Timer.EntryWhileRunning` | frontend/src/app/page.tsx:89-92 | a duration typed while running is counted down from on the next tick |
| `Timer.PlayAlarmIdempotent` | frontend/src/app/page.tsx:56-61 | playing the alarm twice is the same as playing it once |
| `Timer.StopAlarmIdempotent` | frontend/src/app/page.tsx:63-68 | stopping the alarm twice is the same as stopping it once |
| `Timer.SoundChangeSilencesAlarm` | frontend/src/app/page.tsx:42-54 | changing the sound while the alarm sounds leaves no instance playing, while the flag stays up |
| `Timer.TestSoundSurvivesToggle` | frontend/src/app/page.tsx:172-177 | a test sound started with the flag down keeps playing through a toggle, and reset stops it |
| `TimerPage.Page.constructor` | frontend/src/app/page.tsx:8-14 | the fields hold the initial state |
| `TimerPage.Page.RunTimerEffect` | frontend/src/app/page.tsx:16-40 | the interval is scheduled exactly when the timer runs; nothing else changes |
| `TimerPage.Page.RunAlarmEffect` | frontend/src/app/page.tsx:42-54 | the cleanup retires the old instance unloaded, then the slot holds a fresh instance of the selected sound; nothing else changes |
| `TimerPage.Page.Mount` | frontend/src/app/page.tsx:16-54 | the new fields are `Timer.Mount` of the old ones |
| `TimerPage.Page.PlayAlarm` | frontend/src/app/page.tsx:56-61 | the new fields are `Timer.PlayAlarm` of the old ones |
| `TimerPage.Page.StopAlarm` | frontend/src/app/page.tsx:63-68 | the new fields are `Timer.StopAlarm` of the old ones |
| `TimerPage.Page.Tick` | frontend/src/app/page.tsx:19-27 | the new fields are `Timer.Tick` of the old ones |
| `TimerPage.Page.ToggleTimer` | frontend/src/app/page.tsx:70-75 | the new fields are `Timer.ToggleTimer` of the old ones |
| `TimerPage.Page.ResetTimer` | frontend/src/app/page.tsx:77-81 | the new fields are `Timer.ResetTimer` of the old ones |
| `TimerPage.Page.HandleTimeChange` | frontend/src/app/page.tsx:89-92 | the new fields are `Timer.HandleTimeChange` of the old ones and the parse result |
| `TimerPage.Page.ChangeAlarmSound` | frontend/src/app/page.tsx:186 | the new fields are `Timer.ChangeAlarmSound` of the old ones and the choice |
| `TimerPage.Page.TestAlarm` | frontend/src/app/page.tsx:172-177 | the new fields are `Timer.TestAlarm` of the old ones |
| `TimerPage.Page.Unmount` | frontend/src/app/page.tsx:35-53 | the new fields are `Timer.Unmount` of the old ones |
| `TimerPage.Page.ClockText` | frontend/src/app/page.tsx:130 | the clock shows `formatTime(time)`, which reads back as `time` whenever time >= 0 |
| `TimerPage.Page.MinutesValue` | frontend/src/app/page.tsx:160 | the duration input shows m with m*60 <= time < m*60 + 60 |
| `TimerPage.OneMinuteSession` | frontend/src/app/page.tsx:16-28 | mount, type 1, start: after exactly 60 ticks the timer stops at 0 with the alarm sounding; reset then leaves 1500 s, stopped and silent |

## Left out

- Layout, styling, icons and the instructions list (lines 114-224). They are presentation only.
- Fullscreen handling (`toggleFullscreen`, `handleFullscreenChange` and their listener effect, lines 94-112). These are calls into the browser `document` API.
- Howler itself is not modelled. A Howl is a record of its sound, whether it plays and whether it was unloaded. Its volume (0.5), its loop flag and real audio output are not modelled. Calling `play` on an instance that already plays starts a second overlapping sound in Howler; the model keeps a single playing bit. Load or playback failures are not modelled either.
- Howl instances are values in the `alarmRef` slot, not shared objects. Nothing else holds a reference to them, so no aliasing is lost.
- Real time is not modelled. This covers `setInterval`/`clearInterval`, the 1000 ms period and React's scheduling, batching and effect timing. The interval is the `intervalActive` flag. A tick is an explicit event allowed only while that flag is set. Each handler is one atomic step.
- React's development-mode double invocation of state updaters is not modelled. The tick updater calls `playAlarm` from inside `setTime`, so a double call would play twice.
- `parseInt` is not modelled on strings (whitespace, signs, prefixes, trailing text). Its result is an `Option<int>`, and `None` stands for `NaN`.
- JavaScript numbers are modelled as unbounded integers. Floating-point effects on huge entries are not modelled, for example `toString` switching to exponent notation.
- Clock.FormatTime: carries no ensures of its own. Its properties are the lemmas `FormatTimeFields`, `FormatTimeRoundTrip` and `FormatTimeInjective`, which hold for non-negative counts. Negative counts render as the code does but are not readable back, because the seconds field then carries its own minus sign.
