# Clattering keyboard debouncer, modelled in Dafny

Clattering is a macOS menu-bar utility that hides "chattering" keyboard
switches. It installs a system-wide event tap, and for every key-down and
key-up event it asks one object, `KeyboardDebouncer`, whether to drop it. The
debouncer keeps, per key code and per direction (press, release), the time of
the last event it let through. An event that comes strictly less than the
threshold (100 ms by default) after that time is dropped and counted;
otherwise it passes and becomes the new reference. Around that rule sit the
run state (event tap, run-loop source, running flag), the user's enabled flag,
the threshold and the suppressed-event counter.

The model has three modules:

- `Debounce` (debounce.dfy) holds the rule on values. `Evaluate` decides one
  event on a `Tracker` (both timestamp tables and the counter). `Run` drives a
  stream of events through it. `Timeline` is an independent reference for one
  (key, direction) timeline on its own. The lemmas relate the two: timelines
  do not influence each other, the counter counts the drops, and recorded
  times only move forward.
- `Lifecycle` (lifecycle.dfy) holds the run state on values: `StartStep`,
  `StopStep`, the enabled setter `SetEnabledStep` and the delayed retry
  `RetryStep`. It also holds lemmas over arbitrary sequences of these
  operations.
- `Clattering` (keyboard_debouncer.dfy) holds the class `KeyboardDebouncer`.
  It has the source's fields and imperative methods, and each method is proved
  against the functions above. A few client methods replay scenarios: a
  restart forgets history, re-enabling starts empty, and the menu's retry
  cannot undo a run-loop-source failure.

Inputs the source takes from the system are parameters here:
- the wall-clock time of an event is `now`, in milliseconds;
- the outcome of creating the event tap and its run-loop source is a
  `HookupOutcome` (`TapCreationFailed`, `RunLoopSourceFailed`, `Armed`);
- the stored settings are `Option` values given to the constructor.

Points where the code behaves in a way a reader may not expect:
- A timestamp earlier than the recorded one gives a negative elapsed time.
  That is below any positive threshold, so the event is suppressed
  (`Debounce.EarlierTimestampSuppressed`).
- `start` does not clear the history; only `stop` does. The tables are
  nevertheless empty whenever the debouncer starts running. Events reach the
  debouncer only through the tap callback, which fires only while running,
  and `stop` empties both tables. So "not running implies no history" is part
  of the class invariant, and `Start`, `SetEnabled` and `RetryFires` each
  promise empty tables when they start the debouncer.
- `start` does nothing when an event tap exists, even if the debouncer is not
  running. After a run-loop-source failure the two differ, and the debouncer
  can never run again without a direct `stop`
  (`Lifecycle.SourceFailureIsPermanent`).
- A failed tap creation schedules its own retry after one second. The model
  returns that as `retryScheduled`.

## Model

| member | source | states |
|---|---|---|
| Debounce.Evaluate | Sources/Clattering/KeyboardDebouncer.swift:152-177 | suppress exactly when the event's own (key, direction) has a recorded time and `now - last < threshold`; a suppression raises the counter by one and changes no table; an acceptance keeps the counter, records `now` for its key in its own direction's table and leaves the other table unchanged |
| Debounce.FirstEventAccepted | Sources/Clattering/KeyboardDebouncer.swift:158-173 | with no recorded time for (key, direction) the event is accepted and its time becomes the record |
| Debounce.BoundaryAccepted | Sources/Clattering/KeyboardDebouncer.swift:159-173 | when elapsed equals the threshold the event is accepted and becomes the new reference |
| Debounce.EarlierTimestampSuppressed | Sources/Clattering/KeyboardDebouncer.swift:160-163 | with a positive threshold, an event stamped before its recorded time is suppressed and counted |
| Debounce.OtherTimelinesUnchanged | Sources/Clattering/KeyboardDebouncer.swift:158-172 | an event leaves the record of every other key and of the other direction unchanged |
| Debounce.Forget | Sources/Clattering/KeyboardDebouncer.swift:146-147 | emptying both tables leaves no record for any (key, direction) and keeps the counter |
| Debounce.Run | Sources/Clattering/KeyboardDebouncer.swift:152-177 | a stream of events gives one verdict per event |
| Debounce.Timeline | Sources/Clattering/KeyboardDebouncer.swift:159-173 | the reference rule for one timeline gives one verdict per event time |
| Debounce.TimelinesAreIndependent | Sources/Clattering/KeyboardDebouncer.swift:158-172 | in any stream, the verdicts on one (key, direction) and its final record equal those of that timeline run alone from its own record: presses, releases and other keys never influence it |
| Debounce.CountMatchesVerdicts | Sources/Clattering/KeyboardDebouncer.swift:161-164 | after any stream the counter has grown by exactly the number of suppress verdicts |
| Debounce.RecordsOnlyAdvance | Sources/Clattering/KeyboardDebouncer.swift:159-172 | with a positive threshold, a recorded time is never lost and never moves backwards over any stream |
| Debounce.FirstEventAfterForgetAccepted | Sources/Clattering/KeyboardDebouncer.swift:146-173 | after the history is emptied, in any stream, the first event of every (key, direction) timeline is accepted |
| Debounce.ExampleTimeline | Sources/Clattering/KeyboardDebouncer.swift:159-173 | threshold 100 ms: presses at 0, 50, 150, 170 ms are accepted, suppressed, accepted, suppressed, and 150 is the final record |
| Debounce.ExampleRun | Sources/Clattering/KeyboardDebouncer.swift:152-177 | the same presses through the rule from an empty tracker give the same verdicts, a counter of 2, 150 as the only press record and no release record |
| Lifecycle.StartStep | Sources/Clattering/KeyboardDebouncer.swift:64-132 | a no-op while a tap exists; a failed tap creation changes nothing and schedules a retry; only full success sets running; a failed run-loop source leaves a tap that is not running; the enabled flag is untouched |
| Lifecycle.StopStep | Sources/Clattering/KeyboardDebouncer.swift:134-150 | no tap, no source, not running, enabled flag untouched |
| Lifecycle.StopIsIdempotent | Sources/Clattering/KeyboardDebouncer.swift:134-150 | stopping twice gives the state of stopping once |
| Lifecycle.SetEnabledStep | Sources/Clattering/KeyboardDebouncer.swift:32-43 | always stores the flag; starts only when enabling while not running, stops only when disabling while running, otherwise changes nothing else; a failed enable leaves enabled true and running false |
| Lifecycle.RetryStep | Sources/Clattering/KeyboardDebouncer.swift:114-117 | the delayed retry starts again only if still enabled and not running; a disable in between cancels it |
| Lifecycle.SourceFailureIsPermanent | Sources/Clattering/KeyboardDebouncer.swift:65-131 | from a tap without a running source, no sequence of setter calls, retries and starts makes the debouncer run again |
| Lifecycle.RunningOnlyWhenEnabled | Sources/Clattering/KeyboardDebouncer.swift:32-43 | driven only through the setter and its retries, the debouncer is running only while enabled |
| Lifecycle.EnabledIsLastSetting | Sources/Clattering/KeyboardDebouncer.swift:32-43 | the enabled flag equals the value of the last setter call, whatever starts, stops and retries followed |
| Lifecycle.KeepsEnabled | Sources/Clattering/KeyboardDebouncer.swift:32-43 | starts, stops and retries never change the enabled flag |
| Clattering.KeyboardDebouncer.constructor | Sources/Clattering/KeyboardDebouncer.swift:8-21 | a new debouncer has no tap, is not running, has empty tables and a zero counter, and has the loaded settings |
| Clattering.KeyboardDebouncer.LoadSettings | Sources/Clattering/KeyboardDebouncer.swift:53-62 | a stored threshold replaces the default of 100; the enabled flag is the stored one, or true when none was stored |
| Clattering.KeyboardDebouncer.Threshold | Sources/Clattering/KeyboardDebouncer.swift:23-24 | the getter returns the threshold |
| Clattering.KeyboardDebouncer.SetThreshold | Sources/Clattering/KeyboardDebouncer.swift:25-29 | the setter stores any value and changes nothing else |
| Clattering.KeyboardDebouncer.Enabled | Sources/Clattering/KeyboardDebouncer.swift:32-33 | the getter returns the requested flag, not the running state |
| Clattering.KeyboardDebouncer.SuppressedKeyCount | Sources/Clattering/KeyboardDebouncer.swift:45-47 | returns the counter |
| Clattering.KeyboardDebouncer.IsActuallyRunning | Sources/Clattering/KeyboardDebouncer.swift:184-186 | returns the running flag; when it is true a tap and a run-loop source exist |
| Clattering.KeyboardDebouncer.ResetSuppressedCount | Sources/Clattering/KeyboardDebouncer.swift:49-51 | the counter becomes 0; the tables, threshold and run state are unchanged; the invariant is kept |
| Clattering.KeyboardDebouncer.SetEnabled | Sources/Clattering/KeyboardDebouncer.swift:32-43 | the new run state and retry flag are those of `SetEnabledStep`; the history is forgotten exactly when a running debouncer is disabled; a debouncer it starts running has empty tables; counter and threshold are unchanged; the invariant is kept |
| Clattering.KeyboardDebouncer.Start | Sources/Clattering/KeyboardDebouncer.swift:64-132 | the new run state and retry flag are those of `StartStep`; the tables, counter and threshold are unchanged, and the tables are empty whenever it starts running; the invariant is kept |
| Clattering.KeyboardDebouncer.RetryFires | Sources/Clattering/KeyboardDebouncer.swift:114-117 | the new run state and retry flag are those of `RetryStep`; the tables are unchanged, and empty whenever it starts running |
| Clattering.KeyboardDebouncer.Stop | Sources/Clattering/KeyboardDebouncer.swift:134-150 | the run state is that of `StopStep`; both tables are emptied; counter, threshold and enabled flag are unchanged |
| Clattering.KeyboardDebouncer.ShouldSuppressKey | Sources/Clattering/KeyboardDebouncer.swift:152-177 | called only from the tap callback, so only while running; the verdict and the new tables and counter are those of `Evaluate` for the event at `now` under the current threshold; nothing else changes |
| Clattering.KeyboardDebouncer.HandleTapEvent | Sources/Clattering/KeyboardDebouncer.swift:82-109 | invoked only while running (so the tap unwrapped at line 92 exists); tap-disabled notifications and non-key events pass and change nothing; a key-down or key-up is dropped exactly when `Evaluate` suppresses it, with the state `Evaluate` gives |
| Clattering.StopThenStartForgetsHistory | Sources/Clattering/KeyboardDebouncer.swift:64-177 | on a running debouncer, an event accepted before a stop, repeated at any time after a successful start, is accepted |
| Clattering.ReEnableStartsEmpty | Sources/Clattering/KeyboardDebouncer.swift:32-43 | enable, any stream of key events, disable, enable: the debouncer runs with empty tables and the counter holds the stream's suppressions |
| Clattering.RunExtends | Sources/Clattering/KeyboardDebouncer.swift:152-177 | running a stream one event longer is running the prefix and then deciding that event |
| Clattering.MenuRetryAfterSourceFailure | Sources/Clattering/ClatteringApp.swift:191-194 | after a run-loop-source failure, the menu's retry (disable, then enable) leaves the debouncer enabled, not running, with its tap still there |

## Left out

- Creating, enabling and removing the event tap and its run-loop source are calls into the operating system. They appear only as a `HookupOutcome` passed to `Start`, or as nothing, for the tap re-enable in `HandleTapEvent` and the disable and removal in `Stop`.
- The null `refcon` guard in the callback (lines 83-85) is left out: the tap is always created with the debouncer as its user info.
- Persisting the threshold and the enabled flag to `UserDefaults` is I/O. Reading them becomes the constructor's `Option` parameters; writing them in the setters is left out.
- The `Date()` read of the current time is left out: the time is the `now` parameter.
- The serial dispatch queue around the decision is not modelled. Every call is one atomic step and calls run one after another.
- Times and the threshold are `int` milliseconds. The source's `Double` arithmetic, with its fractions and rounding, is not modelled.
- The one-second delay of the retry is not modelled. `Start` returns whether a retry was scheduled, and `RetryFires` is the retry running whenever it runs.
- Clattering.KeyboardDebouncer.ShouldSuppressKey: the counter is a `nat`. The trap on 64-bit `Int` overflow is not modelled.
- Clattering.KeyboardDebouncer.HandleTapEvent: the conversion of the event's 64-bit key-code field to the 16-bit `CGKeyCode` is not modelled; the key code arrives already in range.
- Logging with `print` and the accessibility-permission check (lines 179-182) are calls with no state of the debouncer in them.
- The menu, icon, slider and alerts of `ClatteringApp.swift` are user interface. Only its retry action (lines 191-194) is replayed, as `Clattering.MenuRetryAfterSourceFailure`.
- `Package.swift` is a build manifest and is not part of this model.
