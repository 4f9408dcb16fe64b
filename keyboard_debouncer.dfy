/** The debouncer object itself: the state the event-tap callback and the
    menu share, with start, stop, the threshold and enabled properties, the
    counter, the callback dispatch and the debounce decision. Each method is
    proved against the functions of Debounce and Lifecycle. */
module Clattering {
  import opened Debounce
  import opened Lifecycle

  /** The kinds of event the tap callback is handed. */
  datatype TapEventType =
    | KeyDown
    | KeyUp
    | TapDisabledByTimeout
    | TapDisabledByUserInput
    | OtherEvent

  /** What the callback hands back to the system: the event, or nothing
      (the event is dropped). */
  datatype CallbackResult = PassEvent | DropEvent

  const DefaultThresholdMs: int := 100

  class KeyboardDebouncer {
    // the event tap and its run-loop source exist (their handles are foreign)
    var hasEventTap: bool
    var hasRunLoopSource: bool
    var lastKeyDownTimes: map<KeyCode, int>
    var lastKeyUpTimes: map<KeyCode, int>
    var thresholdMs: int
    var isEnabled: bool
    var suppressedCount: nat
    var isRunning: bool

    /** The state the debounce rule works on. */
    ghost function History(): Tracker
      reads this
    {
      Tracker(lastKeyDownTimes, lastKeyUpTimes, suppressedCount)
    }

    /** The run state start and stop work on. */
    ghost function State(): RunState
      reads this
    {
      RunState(hasEventTap, hasRunLoopSource, isRunning, isEnabled)
    }

    /** The object invariant: a consistent run state, and no history while
        not running. Events reach the debouncer only through the tap callback,
        which fires only while the run-loop source is installed, and stop
        empties both tables. */
    ghost predicate Valid()
      reads this
    {
      && Lifecycle.Valid(State())
      && (!isRunning ==> lastKeyDownTimes == map[] && lastKeyUpTimes == map[])
    }

    /** A new debouncer with no tap and no history, its settings loaded from
        what was stored before (None when nothing was stored). */
    constructor (storedThreshold: Option<int>, storedEnabled: Option<bool>)
      ensures Valid()
      ensures !hasEventTap && !hasRunLoopSource && !isRunning
      ensures lastKeyDownTimes == map[] && lastKeyUpTimes == map[] && suppressedCount == 0
      ensures thresholdMs == if storedThreshold.Some? then storedThreshold.value else DefaultThresholdMs
      ensures isEnabled == if storedEnabled.Some? then storedEnabled.value else true
    {
      hasEventTap, hasRunLoopSource := false, false;
      lastKeyDownTimes, lastKeyUpTimes := map[], map[];
      thresholdMs := DefaultThresholdMs;
      isEnabled := false;
      suppressedCount := 0;
      isRunning := false;
      new;
      LoadSettings(storedThreshold, storedEnabled);
    }

    /** Take the stored threshold if there is one; take the stored enabled
        flag, or enable when none was ever stored. */
    method LoadSettings(storedThreshold: Option<int>, storedEnabled: Option<bool>)
      modifies this`thresholdMs, this`isEnabled
      ensures thresholdMs == if storedThreshold.Some? then storedThreshold.value else old(thresholdMs)
      ensures isEnabled == if storedEnabled.Some? then storedEnabled.value else true
    {
      if storedThreshold.Some? {
        thresholdMs := storedThreshold.value;
      }
      if storedEnabled.Some? {
        isEnabled := storedEnabled.value;
      } else {
        isEnabled := true;
      }
    }

    function Threshold(): (ms: int)
      reads this
      ensures ms == thresholdMs
    {
      thresholdMs
    }

    /** The threshold setter stores any value; the range is the menu's
        business. */
    method SetThreshold(newValue: int)
      requires Valid()
      modifies this`thresholdMs
      ensures Valid()
      ensures thresholdMs == newValue
    {
      thresholdMs := newValue;
    }

    function Enabled(): (e: bool)
      reads this
      ensures e == isEnabled
    {
      isEnabled
    }

    function SuppressedKeyCount(): (n: nat)
      reads this
      ensures n == suppressedCount
    {
      suppressedCount
    }

    function IsActuallyRunning(): (running: bool)
      reads this
      ensures running == isRunning
      ensures Valid() && running ==> hasEventTap && hasRunLoopSource
    {
      isRunning
    }

    /** The counter goes back to zero; the history stays. */
    method ResetSuppressedCount()
      requires Valid()
      modifies this`suppressedCount
      ensures Valid()
      ensures suppressedCount == 0
    {
      suppressedCount := 0;
    }

    /** The enabled setter: stores the flag, then starts a stopped debouncer
        being enabled or stops a running one being disabled. */
    method SetEnabled(newValue: bool, outcome: HookupOutcome) returns (retryScheduled: bool)
      requires Valid()
      modifies this`isEnabled, this`hasEventTap, this`hasRunLoopSource, this`isRunning
      modifies this`lastKeyDownTimes, this`lastKeyUpTimes
      ensures Valid()
      ensures State() == SetEnabledStep(old(State()), newValue, outcome).0
      ensures retryScheduled == SetEnabledStep(old(State()), newValue, outcome).1
      // stop runs, and forgets the history, exactly when a running debouncer is disabled
      ensures !newValue && old(isRunning) ==> History() == Forget(old(History()))
      ensures newValue || !old(isRunning) ==> History() == old(History())
      // a debouncer that starts running here starts with no history
      ensures !old(isRunning) && isRunning ==> lastKeyDownTimes == map[] && lastKeyUpTimes == map[]
    {
      isEnabled := newValue;
      retryScheduled := false;
      if newValue && !isRunning {
        retryScheduled := Start(outcome);
      } else if !newValue && isRunning {
        Stop();
      }
    }

    /** start: a no-op while a tap exists; otherwise ask for a tap and a
        run-loop source, and run only when both were obtained. A failed tap
        creation schedules one retry. The history is not touched. */
    method Start(outcome: HookupOutcome) returns (retryScheduled: bool)
      requires Valid()
      modifies this`hasEventTap, this`hasRunLoopSource, this`isRunning
      ensures Valid()
      ensures State() == StartStep(old(State()), outcome).0
      ensures retryScheduled == StartStep(old(State()), outcome).1
      // start keeps the tables, which are empty whenever it starts running
      ensures History() == old(History())
      ensures !old(isRunning) && isRunning ==> lastKeyDownTimes == map[] && lastKeyUpTimes == map[]
    {
      if hasEventTap {
        return false;
      }
      if outcome == TapCreationFailed {
        return true;
      }
      hasEventTap := true;
      hasRunLoopSource := outcome == Armed;
      if hasRunLoopSource {
        isRunning := true;
      }
      retryScheduled := false;
    }

    /** The retry a failed start scheduled, when it fires: start again only
        if still enabled and still not running. */
    method RetryFires(outcome: HookupOutcome) returns (retryScheduled: bool)
      requires Valid()
      modifies this`hasEventTap, this`hasRunLoopSource, this`isRunning
      ensures Valid()
      ensures State() == RetryStep(old(State()), outcome).0
      ensures retryScheduled == RetryStep(old(State()), outcome).1
      ensures History() == old(History())
      ensures !old(isRunning) && isRunning ==> lastKeyDownTimes == map[] && lastKeyUpTimes == map[]
    {
      if !(isEnabled && !isRunning) {
        return false;
      }
      retryScheduled := Start(outcome);
    }

    /** stop: release the tap and its source, forget the history of every
        key, and mark not running. The counter and threshold are kept. */
    method Stop()
      modifies this`hasEventTap, this`hasRunLoopSource, this`isRunning
      modifies this`lastKeyDownTimes, this`lastKeyUpTimes
      ensures Valid()
      ensures State() == StopStep(old(State()))
      ensures History() == Forget(old(History()))
    {
      hasEventTap := false;
      hasRunLoopSource := false;
      lastKeyDownTimes := map[];
      lastKeyUpTimes := map[];
      isRunning := false;
    }

    /** The debounce decision for one key event at time `now` (ms): true
        means suppress. Only the tap callback calls it, so only while
        running. */
    method ShouldSuppressKey(keyCode: KeyCode, isKeyDown: bool, now: int) returns (shouldSuppress: bool)
      requires Valid() && isRunning
      modifies this`lastKeyDownTimes, this`lastKeyUpTimes, this`suppressedCount
      ensures Valid()
      ensures shouldSuppress == Evaluate(old(History()), KeyEvent(keyCode, isKeyDown, now), thresholdMs).0
      ensures History() == Evaluate(old(History()), KeyEvent(keyCode, isKeyDown, now), thresholdMs).1
    {
      shouldSuppress := false;
      var lastTimes := if isKeyDown then lastKeyDownTimes else lastKeyUpTimes;
      if keyCode in lastTimes {
        var elapsed := now - lastTimes[keyCode];
        if elapsed < thresholdMs {
          shouldSuppress := true;
          suppressedCount := suppressedCount + 1;
        }
      }
      if !shouldSuppress {
        if isKeyDown {
          lastKeyDownTimes := lastKeyDownTimes[keyCode := now];
        } else {
          lastKeyUpTimes := lastKeyUpTimes[keyCode := now];
        }
      }
    }

    /** The event-tap callback, which the system calls only while the tap's
        run-loop source is installed, that is while running: a tap-disabled
        notification re-enables the tap and passes; events other than
        key-down and key-up pass untouched; a key event passes unless the
        debounce rule suppresses it. */
    method HandleTapEvent(eventType: TapEventType, keyCode: KeyCode, now: int) returns (result: CallbackResult)
      requires Valid() && isRunning
      modifies this`lastKeyDownTimes, this`lastKeyUpTimes, this`suppressedCount
      ensures Valid()
      ensures !(eventType.KeyDown? || eventType.KeyUp?) ==> result == PassEvent && History() == old(History())
      ensures eventType.KeyDown? || eventType.KeyUp? ==>
        var step := Evaluate(old(History()), KeyEvent(keyCode, eventType.KeyDown?, now), thresholdMs);
        (result == DropEvent <==> step.0) && History() == step.1
    {
      if eventType.TapDisabledByTimeout? || eventType.TapDisabledByUserInput? {
        // re-enabling the tap is a call into the system; no state of ours changes
        return PassEvent;
      }
      if !(eventType.KeyDown? || eventType.KeyUp?) {
        return PassEvent;
      }
      var isKeyDown := eventType.KeyDown?;
      var suppress := ShouldSuppressKey(keyCode, isKeyDown, now);
      if suppress {
        return DropEvent;
      }
      return PassEvent;
    }
  }

  /** A key accepted just before a stop is accepted again after the restart,
      however soon: stop forgets the history and start does not bring it back. */
  method StopThenStartForgetsHistory(d: KeyboardDebouncer, keyCode: KeyCode, isKeyDown: bool, t0: int, t: int)
    returns (suppressed: bool)
    requires d.Valid() && d.isRunning
    modifies d
    ensures d.Valid() && d.isRunning
    ensures !suppressed
  {
    var _ := d.ShouldSuppressKey(keyCode, isKeyDown, t0);
    d.Stop();
    var _ := d.Start(Armed);
    suppressed := d.ShouldSuppressKey(keyCode, isKeyDown, t);
  }

  /** Enabling, disabling and enabling again runs with an empty history on
      the third step, and the counter survives. */
  method ReEnableStartsEmpty(events: seq<KeyEvent>) returns (d: KeyboardDebouncer)
    ensures d.Valid() && d.isRunning && d.isEnabled
    ensures d.lastKeyDownTimes == map[] && d.lastKeyUpTimes == map[]
    ensures d.suppressedCount == CountSuppressed(Run(Tracker(map[], map[], 0), events, DefaultThresholdMs).0)
  {
    d := new KeyboardDebouncer(None, None);
    var _ := d.SetEnabled(true, Armed);
    var i := 0;
    while i < |events|
      invariant 0 <= i <= |events|
      invariant d.Valid() && d.isRunning && d.thresholdMs == DefaultThresholdMs
      invariant d.History() == Run(Tracker(map[], map[], 0), events[..i], DefaultThresholdMs).1
    {
      var e := events[i];
      RunExtends(Tracker(map[], map[], 0), events, i, DefaultThresholdMs);
      var _ := d.ShouldSuppressKey(e.keyCode, e.isKeyDown, e.now);
      i := i + 1;
    }
    assert events[..i] == events;
    CountMatchesVerdicts(Tracker(map[], map[], 0), events, DefaultThresholdMs);
    var _ := d.SetEnabled(false, Armed);
    var _ := d.SetEnabled(true, Armed);
  }

  /** Running a stream one more event is running the prefix, then the event. */
  lemma {:induction false} RunExtends(t: Tracker, es: seq<KeyEvent>, i: nat, thresholdMs: int)
    requires i < |es|
    ensures Run(t, es[..i + 1], thresholdMs).1 == Evaluate(Run(t, es[..i], thresholdMs).1, es[i], thresholdMs).1
    decreases i
  {
    if i > 0 {
      var step := Evaluate(t, es[0], thresholdMs);
      assert es[..i + 1][1..] == es[1..][..i];
      assert es[..i][1..] == es[1..][..i - 1];
      RunExtends(step.1, es[1..], i - 1, thresholdMs);
    } else {
      assert es[..1][1..] == [];
    }
  }

  /** The menu's "retry" (disable, then enable) cannot recover a debouncer
      whose run-loop source failed after its tap was created: the tap is
      still there, so start does nothing. */
  method MenuRetryAfterSourceFailure(d: KeyboardDebouncer)
    requires d.Valid() && !d.hasEventTap && d.isEnabled
    modifies d
    ensures d.Valid() && d.isEnabled && !d.isRunning && d.hasEventTap
  {
    var _ := d.Start(RunLoopSourceFailed);
    var _ := d.SetEnabled(false, Armed);
    var _ := d.SetEnabled(true, Armed);
  }
}
