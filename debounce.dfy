/** The debounce rule of the keyboard debouncer, on values: the per-key
    timestamp tables, the decision for one event, and what the rule does to a
    whole stream of events. The class in keyboard_debouncer.dfy is proved
    against these functions. */
module Debounce {

  datatype Option<T> = None | Some(value: T)

  /** A hardware key code (CGKeyCode, an unsigned 16-bit integer). */
  type KeyCode = k: int | 0 <= k < 0x1_0000

  /** One key event as the debouncer sees it: the key, whether it is a press
      (key-down) or a release (key-up), and its time in milliseconds. */
  datatype KeyEvent = KeyEvent(keyCode: KeyCode, isKeyDown: bool, now: int)

  /** The state the rule reads and writes: the time of the last ACCEPTED
      press and release of each key, and the number of suppressed events. */
  datatype Tracker = Tracker(
    lastKeyDownTimes: map<KeyCode, int>,
    lastKeyUpTimes: map<KeyCode, int>,
    suppressedCount: nat)

  /** The table an event of the given direction is compared against. */
  function LastTimes(t: Tracker, isKeyDown: bool): map<KeyCode, int> {
    if isKeyDown then t.lastKeyDownTimes else t.lastKeyUpTimes
  }

  /** The last accepted time of one (key, direction) timeline, if any. */
  function LastAccepted(t: Tracker, keyCode: KeyCode, isKeyDown: bool): Option<int> {
    var lastTimes := LastTimes(t, isKeyDown);
    if keyCode in lastTimes then Some(lastTimes[keyCode]) else None
  }

  /** The suppression window: an event comes too soon when its timeline has
      an accepted event and strictly less than the threshold has elapsed since. */
  predicate TooSoon(last: Option<int>, now: int, thresholdMs: int) {
    last.Some? && now - last.value < thresholdMs
  }

  /** The tracker with no history, keeping the counter. */
  function Forget(t: Tracker): (r: Tracker)
    ensures r.suppressedCount == t.suppressedCount
    ensures forall k: KeyCode, d: bool :: LastAccepted(r, k, d) == None
  {
    Tracker(map[], map[], t.suppressedCount)
  }

  /** One event through the rule: the verdict (true = suppress) and the new
      tracker. */
  function Evaluate(t: Tracker, e: KeyEvent, thresholdMs: int): (r: (bool, Tracker))
    // suppressed exactly when the event falls inside its own timeline's window
    ensures r.0 <==> TooSoon(LastAccepted(t, e.keyCode, e.isKeyDown), e.now, thresholdMs)
    // a suppressed event bumps the counter by one and changes no table
    ensures r.0 ==> r.1 == t.(suppressedCount := t.suppressedCount + 1)
    // an accepted event keeps the counter, records its time in its own table
    // and leaves the other direction's table alone
    ensures !r.0 ==> r.1.suppressedCount == t.suppressedCount
    ensures !r.0 ==> LastTimes(r.1, e.isKeyDown) == LastTimes(t, e.isKeyDown)[e.keyCode := e.now]
    ensures !r.0 ==> LastTimes(r.1, !e.isKeyDown) == LastTimes(t, !e.isKeyDown)
  {
    var lastTimes := LastTimes(t, e.isKeyDown);
    var shouldSuppress := e.keyCode in lastTimes && e.now - lastTimes[e.keyCode] < thresholdMs;
    if shouldSuppress then
      (true, t.(suppressedCount := t.suppressedCount + 1))
    else if e.isKeyDown then
      (false, t.(lastKeyDownTimes := t.lastKeyDownTimes[e.keyCode := e.now]))
    else
      (false, t.(lastKeyUpTimes := t.lastKeyUpTimes[e.keyCode := e.now]))
  }

  /** With no recorded time the event is accepted and becomes the record. */
  lemma FirstEventAccepted(t: Tracker, e: KeyEvent, thresholdMs: int)
    requires LastAccepted(t, e.keyCode, e.isKeyDown) == None
    ensures !Evaluate(t, e, thresholdMs).0
    ensures LastAccepted(Evaluate(t, e, thresholdMs).1, e.keyCode, e.isKeyDown) == Some(e.now)
  {
  }

  /** Exactly at the threshold the event is accepted and becomes the new
      reference. */
  lemma BoundaryAccepted(t: Tracker, e: KeyEvent, thresholdMs: int)
    requires LastAccepted(t, e.keyCode, e.isKeyDown).Some?
    requires e.now - LastAccepted(t, e.keyCode, e.isKeyDown).value == thresholdMs
    ensures !Evaluate(t, e, thresholdMs).0
    ensures LastAccepted(Evaluate(t, e, thresholdMs).1, e.keyCode, e.isKeyDown) == Some(e.now)
  {
  }

  /** An event stamped earlier than its timeline's record has a negative
      elapsed time, which is below any positive threshold: it is suppressed. */
  lemma EarlierTimestampSuppressed(t: Tracker, e: KeyEvent, thresholdMs: int)
    requires thresholdMs > 0
    requires LastAccepted(t, e.keyCode, e.isKeyDown).Some?
    requires e.now < LastAccepted(t, e.keyCode, e.isKeyDown).value
    ensures Evaluate(t, e, thresholdMs).0
    ensures Evaluate(t, e, thresholdMs).1.suppressedCount == t.suppressedCount + 1
  {
  }

  /** An event touches no timeline but its own: every other (key, direction)
      keeps its record. */
  lemma OtherTimelinesUnchanged(t: Tracker, e: KeyEvent, thresholdMs: int, k: KeyCode, d: bool)
    requires k != e.keyCode || d != e.isKeyDown
    ensures LastAccepted(Evaluate(t, e, thresholdMs).1, k, d) == LastAccepted(t, k, d)
  {
  }

  /** A stream of events through the rule, one at a time, in order: the
      verdicts and the final tracker. */
  function Run(t: Tracker, es: seq<KeyEvent>, thresholdMs: int): (r: (seq<bool>, Tracker))
    ensures |r.0| == |es|
    decreases |es|
  {
    if es == [] then ([], t)
    else
      var step := Evaluate(t, es[0], thresholdMs);
      var rest := Run(step.1, es[1..], thresholdMs);
      ([step.0] + rest.0, rest.1)
  }

  /** Reference definition of one (key, direction) timeline on its own: the
      verdicts for successive event times and the last accepted time at the
      end, given the last accepted time before them. */
  function Timeline(last: Option<int>, times: seq<int>, thresholdMs: int): (r: (seq<bool>, Option<int>))
    ensures |r.0| == |times|
    decreases |times|
  {
    if times == [] then ([], last)
    else if TooSoon(last, times[0], thresholdMs) then
      var rest := Timeline(last, times[1..], thresholdMs);
      ([true] + rest.0, rest.1)
    else
      var rest := Timeline(Some(times[0]), times[1..], thresholdMs);
      ([false] + rest.0, rest.1)
  }

  predicate IsOn(e: KeyEvent, k: KeyCode, d: bool) {
    e.keyCode == k && e.isKeyDown == d
  }

  /** The times of the events of one timeline, in stream order. */
  function TimesOf(es: seq<KeyEvent>, k: KeyCode, d: bool): seq<int>
    decreases |es|
  {
    if es == [] then []
    else (if IsOn(es[0], k, d) then [es[0].now] else []) + TimesOf(es[1..], k, d)
  }

  /** The verdicts given to the events of one timeline, in stream order. */
  function VerdictsOf(es: seq<KeyEvent>, vs: seq<bool>, k: KeyCode, d: bool): seq<bool>
    requires |vs| == |es|
    decreases |es|
  {
    if es == [] then []
    else (if IsOn(es[0], k, d) then [vs[0]] else []) + VerdictsOf(es[1..], vs[1..], k, d)
  }

  /** The number of suppress verdicts. */
  function CountSuppressed(vs: seq<bool>): nat
    decreases |vs|
  {
    if vs == [] then 0 else (if vs[0] then 1 else 0) + CountSuppressed(vs[1..])
  }

  /** Press and release timelines, and the timelines of different keys, do
      not influence each other: in any stream, the verdicts on one (key,
      direction) and its final record are those of that timeline run alone. */
  lemma {:induction false} TimelinesAreIndependent(t: Tracker, es: seq<KeyEvent>, thresholdMs: int, k: KeyCode, d: bool)
    ensures VerdictsOf(es, Run(t, es, thresholdMs).0, k, d)
         == Timeline(LastAccepted(t, k, d), TimesOf(es, k, d), thresholdMs).0
    ensures LastAccepted(Run(t, es, thresholdMs).1, k, d)
         == Timeline(LastAccepted(t, k, d), TimesOf(es, k, d), thresholdMs).1
    decreases |es|
  {
    if es != [] {
      var e := es[0];
      var step := Evaluate(t, e, thresholdMs);
      var rest := Run(step.1, es[1..], thresholdMs);
      assert Run(t, es, thresholdMs) == ([step.0] + rest.0, rest.1);
      TimelinesAreIndependent(step.1, es[1..], thresholdMs, k, d);
      if IsOn(e, k, d) {
        assert TimesOf(es, k, d) == [e.now] + TimesOf(es[1..], k, d);
        assert LastAccepted(step.1, k, d)
            == if step.0 then LastAccepted(t, k, d) else Some(e.now);
      } else {
        assert TimesOf(es, k, d) == TimesOf(es[1..], k, d);
        OtherTimelinesUnchanged(t, e, thresholdMs, k, d);
      }
    }
  }

  /** The counter grows by exactly the number of suppressed events. */
  lemma {:induction false} CountMatchesVerdicts(t: Tracker, es: seq<KeyEvent>, thresholdMs: int)
    ensures Run(t, es, thresholdMs).1.suppressedCount
         == t.suppressedCount + CountSuppressed(Run(t, es, thresholdMs).0)
    decreases |es|
  {
    if es != [] {
      var step := Evaluate(t, es[0], thresholdMs);
      var rest := Run(step.1, es[1..], thresholdMs);
      CountMatchesVerdicts(step.1, es[1..], thresholdMs);
      assert ([step.0] + rest.0)[1..] == rest.0;
    }
  }

  /** With a positive threshold a recorded time only moves forward: a
      timeline that has a record keeps one, never earlier than before. */
  lemma {:induction false} RecordsOnlyAdvance(t: Tracker, es: seq<KeyEvent>, thresholdMs: int, k: KeyCode, d: bool)
    requires thresholdMs > 0
    requires LastAccepted(t, k, d).Some?
    ensures LastAccepted(Run(t, es, thresholdMs).1, k, d).Some?
    ensures LastAccepted(Run(t, es, thresholdMs).1, k, d).value >= LastAccepted(t, k, d).value
    decreases |es|
  {
    if es != [] {
      var step := Evaluate(t, es[0], thresholdMs);
      if !IsOn(es[0], k, d) {
        OtherTimelinesUnchanged(t, es[0], thresholdMs, k, d);
      }
      assert LastAccepted(step.1, k, d).value >= LastAccepted(t, k, d).value;
      RecordsOnlyAdvance(step.1, es[1..], thresholdMs, k, d);
    }
  }

  /** After the history is forgotten, the first event of every timeline is
      accepted, whatever came before. */
  lemma {:induction false} FirstEventAfterForgetAccepted(t: Tracker, es: seq<KeyEvent>, thresholdMs: int, k: KeyCode, d: bool)
    requires |TimesOf(es, k, d)| > 0
    ensures var v := VerdictsOf(es, Run(Forget(t), es, thresholdMs).0, k, d);
            |v| > 0 && !v[0]
  {
    TimelinesAreIndependent(Forget(t), es, thresholdMs, k, d);
    var ts := TimesOf(es, k, d);
    assert Timeline(None, ts, thresholdMs).0 == [false] + Timeline(Some(ts[0]), ts[1..], thresholdMs).0;
  }

  /** The worked example: threshold 100 ms, presses of one key at 0, 50, 150
      and 170 ms are accepted, suppressed, accepted, suppressed. */
  lemma ExampleTimeline()
    ensures Timeline(None, [0, 50, 150, 170], 100) == ([false, true, false, true], Some(150))
  {
    var ts: seq<int> := [0, 50, 150, 170];
    assert ts[1..] == [50, 150, 170] && ts[2..] == [150, 170] && ts[3..] == [170] && ts[4..] == [];
    var r4 := Timeline(Some(150), ts[4..], 100);
    var r3 := Timeline(Some(150), ts[3..], 100);
    var r2 := Timeline(Some(0), ts[2..], 100);
    var r1 := Timeline(Some(0), ts[1..], 100);
    var r0 := Timeline(None, ts, 100);
    assert r4.0 == [] && r4.1 == Some(150);
    assert r3.0 == [true] + r4.0 && r3.1 == r4.1;
    assert r2.0 == [false] + r3.0 && r2.1 == r3.1;
    assert r1.0 == [true] + r2.0 && r1.1 == r2.1;
    assert r0.0 == [false] + r1.0 && r0.1 == r1.1;
    assert r0.0 == [false, true, false, true];
  }

  /** The same example through the rule itself, from an empty tracker: the
      verdicts, the counter at 2, and 150 as the only record. */
  lemma ExampleRun(k: KeyCode)
    ensures Run(Tracker(map[], map[], 0),
                [KeyEvent(k, true, 0), KeyEvent(k, true, 50), KeyEvent(k, true, 150), KeyEvent(k, true, 170)],
                100)
         == ([false, true, false, true], Tracker(map[k := 150], map[], 2))
  {
    var es := [KeyEvent(k, true, 0), KeyEvent(k, true, 50), KeyEvent(k, true, 150), KeyEvent(k, true, 170)];
    assert es[4..] == [];
    var t0 := Tracker(map[], map[], 0);
    var s0 := Evaluate(t0, es[0], 100);
    assert s0 == (false, Tracker(map[k := 0], map[], 0));
    var s1 := Evaluate(s0.1, es[1], 100);
    assert s1 == (true, Tracker(map[k := 0], map[], 1));
    var s2 := Evaluate(s1.1, es[2], 100);
    assert map[k := 0][k := 150] == map[k := 150];
    assert s2 == (false, Tracker(map[k := 150], map[], 1));
    var s3 := Evaluate(s2.1, es[3], 100);
    assert s3 == (true, Tracker(map[k := 150], map[], 2));
    var r4 := Run(s3.1, es[4..], 100);
    var r3 := Run(s2.1, es[3..], 100);
    var r2 := Run(s1.1, es[2..], 100);
    var r1 := Run(s0.1, es[1..], 100);
    var r0 := Run(t0, es, 100);
    assert es[2..][1..] == es[3..] && es[1..][1..] == es[2..] && es[3..][1..] == es[4..];
    assert r4.0 == [] && r4.1 == s3.1;
    assert r3.0 == [true] + r4.0 && r3.1 == r4.1;
    assert r2.0 == [false] + r3.0 && r2.1 == r3.1;
    assert r1.0 == [true] + r2.0 && r1.1 == r2.1;
    assert r0.0 == [false] + r1.0 && r0.1 == r1.1;
    assert r0.0 == [false, true, false, true];
  }
}
