/** The run state of the keyboard debouncer on values: whether an event tap
    and a run-loop source exist, whether the tap is armed, and whether the
    user asked for debouncing; start, stop, the enabled setter and the
    delayed retry of a failed start. */
module Lifecycle {

  /** What the operating system does when start asks it for an event tap and
      then for a run-loop source for it. */
  datatype HookupOutcome = TapCreationFailed | RunLoopSourceFailed | Armed

  datatype RunState = RunState(
    hasEventTap: bool,
    hasRunLoopSource: bool,
    isRunning: bool,
    isEnabled: bool)

  /** The combinations start and stop can produce: running exactly when a
      run-loop source exists, and a source only beside a tap. */
  predicate Valid(s: RunState) {
    && (s.isRunning <==> s.hasRunLoopSource)
    && (s.hasRunLoopSource ==> s.hasEventTap)
  }

  /** start: the new run state and whether a retry was scheduled. */
  function StartStep(s: RunState, outcome: HookupOutcome): (r: (RunState, bool))
    requires Valid(s)
    ensures Valid(r.0)
    ensures r.0.isEnabled == s.isEnabled
    // a tap that already exists makes start a no-op
    ensures s.hasEventTap ==> r == (s, false)
    // a failed tap creation changes nothing and schedules a retry
    ensures !s.hasEventTap && outcome == TapCreationFailed ==> r == (s, true)
    // only full success arms the tap
    ensures r.0.isRunning <==> s.isRunning || (!s.hasEventTap && outcome == Armed)
    // a failed run-loop source leaves a tap behind that is not running
    ensures !s.hasEventTap && outcome == RunLoopSourceFailed ==> r.0.hasEventTap && !r.0.isRunning && !r.1
    // a retry is scheduled only when nothing changed
    ensures r.1 ==> r.0 == s
  {
    if s.hasEventTap then (s, false)
    else match outcome
      case TapCreationFailed => (s, true)
      case RunLoopSourceFailed => (s.(hasEventTap := true, hasRunLoopSource := false), false)
      case Armed => (s.(hasEventTap := true, hasRunLoopSource := true, isRunning := true), false)
  }

  /** stop: release the tap and the source and mark not running. */
  function StopStep(s: RunState): (r: RunState)
    ensures Valid(r)
    ensures !r.isRunning && !r.hasEventTap && !r.hasRunLoopSource
    ensures r.isEnabled == s.isEnabled
  {
    s.(hasEventTap := false, hasRunLoopSource := false, isRunning := false)
  }

  /** Stopping twice is stopping once. */
  lemma StopIsIdempotent(s: RunState)
    ensures StopStep(StopStep(s)) == StopStep(s)
  {
  }

  /** The enabled setter: store the flag, then start when enabling a stopped
      debouncer or stop when disabling a running one. The results are the
      new run state, whether a retry was scheduled, and whether stop ran. */
  function SetEnabledStep(s: RunState, newValue: bool, outcome: HookupOutcome): (r: (RunState, bool, bool))
    requires Valid(s)
    ensures Valid(r.0)
    ensures r.0.isEnabled == newValue
    ensures r.2 <==> !newValue && s.isRunning
    ensures r.2 ==> !r.0.isRunning && !r.0.hasEventTap
    // disabling a debouncer that is not running calls neither start nor stop
    ensures !newValue && !s.isRunning ==> r.0 == s.(isEnabled := false) && !r.1
    // enabling a running debouncer only stores the flag
    ensures newValue && s.isRunning ==> r.0 == s.(isEnabled := true) && !r.1
    // enabling a stopped debouncer is a start with the flag stored
    ensures newValue && !s.isRunning ==> (r.0, r.1) == StartStep(s.(isEnabled := true), outcome)
    // enabled and running disagree after a failed enable
    ensures newValue && !s.isRunning && outcome != Armed ==> r.0.isEnabled && !r.0.isRunning
  {
    var s1 := s.(isEnabled := newValue);
    if newValue && !s.isRunning then
      var st := StartStep(s1, outcome);
      (st.0, st.1, false)
    else if !newValue && s.isRunning then
      (StopStep(s1), false, true)
    else
      (s1, false, false)
  }

  /** The delayed retry after a failed tap creation: start again only if the
      debouncer is still enabled and still not running. */
  function RetryStep(s: RunState, outcome: HookupOutcome): (r: (RunState, bool))
    requires Valid(s)
    ensures Valid(r.0)
    ensures r.0.isEnabled == s.isEnabled
    // a disable in the meantime cancels the retry
    ensures !s.isEnabled ==> r == (s, false)
    ensures s.isRunning ==> r == (s, false)
    ensures s.isEnabled && !s.isRunning ==> r == StartStep(s, outcome)
  {
    if s.isEnabled && !s.isRunning then StartStep(s, outcome) else (s, false)
  }

  /** The operations that drive the run state from outside. */
  datatype Control =
    | SetEnabled(newValue: bool, outcome: HookupOutcome)
    | Start(outcome: HookupOutcome)
    | Stop
    | RetryFires(outcome: HookupOutcome)

  function Apply(s: RunState, c: Control): (r: RunState)
    requires Valid(s)
    ensures Valid(r)
    ensures !c.SetEnabled? ==> r.isEnabled == s.isEnabled
  {
    match c
    case SetEnabled(v, o) => SetEnabledStep(s, v, o).0
    case Start(o) => StartStep(s, o).0
    case Stop => StopStep(s)
    case RetryFires(o) => RetryStep(s, o).0
  }

  function ApplyAll(s: RunState, cs: seq<Control>): (r: RunState)
    requires Valid(s)
    ensures Valid(r)
    decreases |cs|
  {
    if cs == [] then s else ApplyAll(Apply(s, cs[0]), cs[1..])
  }

  /** The application only ever calls the enabled setter, and the retries
      that start schedules fire on their own; it never calls start or stop
      directly. */
  predicate ThroughSetter(cs: seq<Control>) {
    forall i :: 0 <= i < |cs| ==> cs[i].SetEnabled? || cs[i].RetryFires?
  }

  /** Once a run-loop source has failed after its tap was created, the tap
      stays and the debouncer never runs again through the setter, the retry
      or start: only a direct stop clears the tap, and the setter calls stop
      only while running. */
  lemma {:induction false} SourceFailureIsPermanent(s: RunState, cs: seq<Control>)
    requires Valid(s)
    requires s.hasEventTap && !s.isRunning
    requires forall i :: 0 <= i < |cs| ==> !cs[i].Stop?
    ensures ApplyAll(s, cs).hasEventTap && !ApplyAll(s, cs).isRunning
    decreases |cs|
  {
    if cs != [] {
      assert !cs[0].Stop?;
      var s1 := Apply(s, cs[0]);
      assert s1.hasEventTap && !s1.isRunning;
      SourceFailureIsPermanent(s1, cs[1..]);
    }
  }

  /** Driven only through the setter and its retries, the debouncer runs
      only while it is enabled. */
  lemma {:induction false} RunningOnlyWhenEnabled(s: RunState, cs: seq<Control>)
    requires Valid(s)
    requires s.isRunning ==> s.isEnabled
    requires ThroughSetter(cs)
    ensures ApplyAll(s, cs).isRunning ==> ApplyAll(s, cs).isEnabled
    decreases |cs|
  {
    if cs != [] {
      assert cs[0].SetEnabled? || cs[0].RetryFires?;
      var s1 := Apply(s, cs[0]);
      assert s1.isRunning ==> s1.isEnabled;
      assert ThroughSetter(cs[1..]) by {
        forall i | 0 <= i < |cs[1..]| ensures cs[1..][i].SetEnabled? || cs[1..][i].RetryFires? {
          assert cs[1..][i] == cs[i + 1];
        }
      }
      RunningOnlyWhenEnabled(s1, cs[1..]);
    }
  }

  /** The enabled flag is whatever the setter was last given: start, stop
      and the retry never touch it. */
  lemma {:induction false} EnabledIsLastSetting(s: RunState, cs: seq<Control>, i: nat)
    requires Valid(s)
    requires i < |cs| && cs[i].SetEnabled?
    requires forall j :: i < j < |cs| ==> !cs[j].SetEnabled?
    ensures ApplyAll(s, cs).isEnabled == cs[i].newValue
    decreases |cs|
  {
    var s1 := Apply(s, cs[0]);
    assert ApplyAll(s, cs) == ApplyAll(s1, cs[1..]);
    if i == 0 {
      KeepsEnabled(s1, cs[1..]);
    } else {
      EnabledIsLastSetting(s1, cs[1..], i - 1);
    }
  }

  /** Without a setter call the enabled flag does not change. */
  lemma {:induction false} KeepsEnabled(s: RunState, cs: seq<Control>)
    requires Valid(s)
    requires forall j :: 0 <= j < |cs| ==> !cs[j].SetEnabled?
    ensures ApplyAll(s, cs).isEnabled == s.isEnabled
    decreases |cs|
  {
    if cs != [] {
      assert !cs[0].SetEnabled?;
      KeepsEnabled(Apply(s, cs[0]), cs[1..]);
    }
  }
}
