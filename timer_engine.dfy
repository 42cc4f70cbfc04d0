/** The countdown state machine of the timer store, as functions on `TimerState` values,
    and what follows from running it tick after tick. */
module TimerEngine {
  import opened Options
  import opened TimerTypes

  /** Seconds a segment starts with: its minutes times 60, converted on entry only. */
  function SegmentSeconds(seg: Segment): (seconds: int)
    ensures seg.duration >= 0 ==> seconds >= 0 && seconds % 60 == 0
  {
    seg.duration * 60
  }

  predicate NonNegativeDurations(p: Preset)
  {
    forall i :: 0 <= i < |p.segments| ==> p.segments[i].duration >= 0
  }

  /** The shape every operation keeps and `tick`/`resetTimer` rely on: an active preset has
      segments and the index points into them; without one the index is 0. */
  predicate Consistent(s: TimerState)
  {
    match s.activePreset
    case None => s.currentSegmentIndex == 0
    case Some(p) => |p.segments| > 0 && 0 <= s.currentSegmentIndex < |p.segments|
  }

  /** `Consistent` plus a non-negative countdown, given non-negative durations. */
  predicate Inv(s: TimerState)
  {
    && Consistent(s)
    && s.timeRemaining >= 0
    && match s.activePreset
       case None => s.timeRemaining == 0
       case Some(p) => NonNegativeDurations(p)
  }

  /** The store's state before any operation. */
  const Initial := TimerState(false, 0, 0, None)

  lemma InitialInv()
    ensures Inv(Initial) && !Initial.isRunning && Initial.activePreset.None?
  {
  }

  /** `setActivePreset`: whatever the previous state, bind `p`, go to the start of its
      first segment (or to zero without a preset) and stop. */
  function Activate(p: Option<Preset>): (r: TimerState)
    requires p.Some? ==> |p.value.segments| > 0
    ensures Consistent(r)
    ensures r.activePreset == p && r.currentSegmentIndex == 0 && !r.isRunning
    ensures p.None? ==> r == Initial
    ensures p.Some? ==> r.timeRemaining == p.value.segments[0].duration * 60
    ensures (p.None? || NonNegativeDurations(p.value)) ==> Inv(r)
  {
    TimerState(false, 0, if p.Some? then SegmentSeconds(p.value.segments[0]) else 0, p)
  }

  /** `resetTimer`: nothing without an active preset, otherwise the very state
      `setActivePreset` gives for the same preset. */
  function Reset(s: TimerState): (r: TimerState)
    requires Consistent(s)
    ensures s.activePreset.None? ==> r == s
    ensures s.activePreset.Some? ==> r == Activate(s.activePreset)
    ensures Inv(s) ==> Inv(r)
  {
    match s.activePreset
    case None => s
    case Some(p) =>
      s.(isRunning := false, currentSegmentIndex := 0, timeRemaining := SegmentSeconds(p.segments[0]))
  }

  /** `startTimer`: only `isRunning` changes, to true (also without an active preset). */
  function Start(s: TimerState): (r: TimerState)
    ensures r.isRunning && r.(isRunning := s.isRunning) == s
    ensures Inv(s) ==> Inv(r)
  {
    s.(isRunning := true)
  }

  /** `pauseTimer`: only `isRunning` changes, to false. */
  function Pause(s: TimerState): (r: TimerState)
    ensures !r.isRunning && r.(isRunning := s.isRunning) == s
    ensures Inv(s) ==> Inv(r)
  {
    s.(isRunning := false)
  }

  /** `tick`: one second of the countdown. */
  function Step(s: TimerState): (r: TimerState)
    requires Consistent(s)
    ensures Consistent(r)
    ensures Inv(s) ==> Inv(r)
    ensures r.activePreset == s.activePreset
  {
    if !s.isRunning || s.activePreset.None? then s
    else if s.timeRemaining > 0 then s.(timeRemaining := s.timeRemaining - 1)
    else
      var p := s.activePreset.value;
      var next := s.currentSegmentIndex + 1;
      if next < |p.segments| then
        s.(currentSegmentIndex := next, timeRemaining := SegmentSeconds(p.segments[next]))
      else if p.loop then
        s.(currentSegmentIndex := 0, timeRemaining := SegmentSeconds(p.segments[0]))
      else
        s.(isRunning := false)
  }

  /** `n` successive ticks. */
  function Run(s: TimerState, n: nat): (r: TimerState)
    requires Consistent(s)
    ensures Consistent(r)
    ensures Inv(s) ==> Inv(r)
    ensures r.activePreset == s.activePreset
    decreases n
  {
    if n == 0 then s else Run(Step(s), n - 1)
  }

  /** Ticks spent from entering segment `i` until the preset has run out: each segment of
      `d` minutes takes `d * 60` ticks to reach zero and one more tick to be left. */
  function SegmentTicks(p: Preset, i: nat): (n: nat)
    requires i <= |p.segments|
    requires NonNegativeDurations(p)
    ensures n >= |p.segments| - i
    ensures i < |p.segments| ==> n > SegmentSeconds(p.segments[i])
    decreases |p.segments| - i
  {
    if i == |p.segments| then 0
    else SegmentSeconds(p.segments[i]) + 1 + SegmentTicks(p, i + 1)
  }

  /** Ticks from a freshly started preset to its end (or to its first wrap). */
  function CycleTicks(p: Preset): (n: nat)
    requires NonNegativeDurations(p)
    ensures n >= |p.segments|
  {
    SegmentTicks(p, 0)
  }

  /** The state right after `setActivePreset(p)` and `startTimer()`. */
  function Started(p: Preset): (s: TimerState)
    requires |p.segments| > 0
    ensures s.isRunning && s.activePreset == Some(p) && s.currentSegmentIndex == 0
    ensures s.timeRemaining == p.segments[0].duration * 60
  {
    Start(Activate(Some(p)))
  }

  // ---------------------------------------------------------------------------------
  // Many ticks

  lemma {:induction false} RunAdd(s: TimerState, a: nat, b: nat)
    requires Consistent(s)
    ensures Run(s, a + b) == Run(Run(s, a), b)
    decreases a
  {
    if a > 0 {
      RunAdd(Step(s), a - 1, b);
    }
  }

  /** A stopped timer, or one without a preset, never changes however often it ticks. */
  lemma {:induction false} StoppedStaysPut(s: TimerState, n: nat)
    requires Consistent(s)
    requires !s.isRunning || s.activePreset.None?
    ensures Run(s, n) == s
    decreases n
  {
    if n > 0 {
      StoppedStaysPut(Step(s), n - 1);
    }
  }

  /** While seconds remain, `k` ticks take exactly `k` seconds off and change nothing else. */
  lemma {:induction false} Countdown(s: TimerState, k: nat)
    requires Consistent(s) && s.isRunning && s.activePreset.Some?
    requires s.timeRemaining >= k
    ensures Run(s, k) == s.(timeRemaining := s.timeRemaining - k)
    decreases k
  {
    if k > 0 {
      Countdown(Step(s), k - 1);
    }
  }

  /** Entering segment `i` of a running preset, `SegmentTicks(p, i)` ticks later the timer
      has either wrapped to the start of segment 0 (looping preset) or stopped at the last
      segment with 0 seconds left (non-looping preset). */
  lemma {:induction false} FromSegment(s: TimerState, p: Preset, i: nat)
    requires s.activePreset == Some(p) && NonNegativeDurations(p)
    requires i < |p.segments| && s.currentSegmentIndex == i
    requires s.isRunning && s.timeRemaining == SegmentSeconds(p.segments[i])
    ensures p.loop ==>
      Run(s, SegmentTicks(p, i)) == s.(currentSegmentIndex := 0, timeRemaining := SegmentSeconds(p.segments[0]))
    ensures !p.loop ==>
      Run(s, SegmentTicks(p, i)) == s.(currentSegmentIndex := |p.segments| - 1, timeRemaining := 0, isRunning := false)
    decreases |p.segments| - i
  {
    var t := SegmentSeconds(p.segments[i]);
    var rest := SegmentTicks(p, i + 1);
    var expired := s.(timeRemaining := 0);
    Countdown(s, t);
    RunAdd(s, t, 1 + rest);
    assert Run(expired, 1 + rest) == Run(Step(expired), rest);
    if i + 1 < |p.segments| {
      var entered := s.(currentSegmentIndex := i + 1, timeRemaining := SegmentSeconds(p.segments[i + 1]));
      assert Step(expired) == entered;
      FromSegment(entered, p, i + 1);
    }
  }

  /** Before those `SegmentTicks(p, i)` ticks are used up the timer is still running. */
  lemma {:induction false} RunningWithinSegments(s: TimerState, p: Preset, i: nat, k: nat)
    requires s.activePreset == Some(p) && NonNegativeDurations(p)
    requires i < |p.segments| && s.currentSegmentIndex == i
    requires s.isRunning && s.timeRemaining == SegmentSeconds(p.segments[i])
    requires k < SegmentTicks(p, i)
    ensures Run(s, k).isRunning
    decreases |p.segments| - i
  {
    var t := SegmentSeconds(p.segments[i]);
    if k <= t {
      Countdown(s, k);
    } else {
      var expired := s.(timeRemaining := 0);
      Countdown(s, t);
      RunAdd(s, t, k - t);
      assert Run(expired, k - t) == Run(Step(expired), k - t - 1);
      var entered := s.(currentSegmentIndex := i + 1, timeRemaining := SegmentSeconds(p.segments[i + 1]));
      assert Step(expired) == entered;
      RunningWithinSegments(entered, p, i + 1, k - t - 1);
    }
  }

  /** A non-looping preset started from its first segment runs for exactly `CycleTicks(p)`
      ticks, ends stopped on its last segment at 0 seconds, and stays there. */
  lemma RunToCompletion(p: Preset, n: nat)
    requires |p.segments| > 0 && NonNegativeDurations(p) && !p.loop
    ensures forall k :: 0 <= k < CycleTicks(p) ==> Run(Started(p), k).isRunning
    ensures Run(Started(p), CycleTicks(p)) == TimerState(false, |p.segments| - 1, 0, Some(p))
    ensures Run(Started(p), CycleTicks(p) + n) == Run(Started(p), CycleTicks(p))
  {
    var s := Started(p);
    FromSegment(s, p, 0);
    forall k | 0 <= k < CycleTicks(p) ensures Run(s, k).isRunning {
      RunningWithinSegments(s, p, 0, k);
    }
    RunAdd(s, CycleTicks(p), n);
    StoppedStaysPut(Run(s, CycleTicks(p)), n);
  }

  /** A looping preset never stops by itself. */
  lemma {:induction false} LoopNeverStops(s: TimerState, n: nat)
    requires Consistent(s) && s.isRunning && s.activePreset.Some? && s.activePreset.value.loop
    ensures Run(s, n).isRunning
    decreases n
  {
    if n > 0 {
      LoopNeverStops(Step(s), n - 1);
    }
  }

  /** A started looping preset is back at its start after one cycle. */
  lemma LoopCycle(p: Preset)
    requires |p.segments| > 0 && NonNegativeDurations(p) && p.loop
    ensures Run(Started(p), CycleTicks(p)) == Started(p)
  {
    FromSegment(Started(p), p, 0);
  }

  lemma MulSucc(a: nat, c: nat)
    ensures (a + 1) * c == c + a * c
  {
  }

  /** A state that `c` ticks bring back to itself repeats with period `c`. */
  lemma {:induction false} RunPeriodic(s: TimerState, c: nat, cycles: nat, j: nat)
    requires Consistent(s) && Run(s, c) == s
    ensures Run(s, cycles * c + j) == Run(s, j)
    decreases cycles
  {
    if cycles > 0 {
      var rest := (cycles - 1) * c + j;
      assert cycles * c + j == c + rest by {
        MulSucc(cycles - 1, c);
      }
      RunAdd(s, c, rest);
      RunPeriodic(s, c, cycles - 1, j);
    }
  }

  /** A looping preset is periodic: after any number of whole cycles it is back at its
      start, so its position depends only on the elapsed ticks modulo the cycle length. */
  lemma LoopPeriodic(p: Preset, cycles: nat, j: nat)
    requires |p.segments| > 0 && NonNegativeDurations(p) && p.loop
    ensures Run(Started(p), cycles * CycleTicks(p)) == Started(p)
    ensures Run(Started(p), cycles * CycleTicks(p) + j) == Run(Started(p), j)
  {
    var s, c := Started(p), CycleTicks(p);
    LoopCycle(p);
    RunPeriodic(s, c, cycles, 0);
    RunPeriodic(s, c, cycles, j);
  }

  lemma ModSmall(n: nat, c: nat)
    requires n < c
    ensures n % c == n
  {
  }

  lemma ModMinus(n: nat, c: nat)
    requires 0 < c <= n
    ensures (n - c) % c == n % c
  {
    var q, r := (n - c) / c, (n - c) % c;
    assert n - c == q * c + r && 0 <= r < c;
    assert n == (q + 1) * c + r;
    ModUnique(n, c, q + 1, r);
  }

  lemma ModUnique(m: nat, c: nat, a: nat, r: nat)
    requires 0 <= r < c && m == a * c + r
    ensures m % c == r
  {
    var q, s := m / c, m % c;
    assert m == q * c + s && 0 <= s < c;
    if q > a {
      assert q * c >= (a + 1) * c by { MulMono(a + 1, q, c); }
      assert false;
    } else if q < a {
      assert a * c >= (q + 1) * c by { MulMono(q + 1, a, c); }
      assert false;
    }
  }

  lemma MulMono(x: nat, y: nat, c: nat)
    requires x <= y
    ensures x * c <= y * c
  {
  }

  /** For such a state, only the elapsed ticks modulo `c` matter. */
  lemma {:induction false} RunModulo(s: TimerState, c: nat, n: nat)
    requires Consistent(s) && c > 0 && Run(s, c) == s
    ensures Run(s, n) == Run(s, n % c)
    decreases n
  {
    if n < c {
      ModSmall(n, c);
    } else {
      var rest := n - c;
      RunAdd(s, c, rest);
      RunModulo(s, c, rest);
      ModMinus(n, c);
    }
  }

  lemma LoopPosition(p: Preset, n: nat)
    requires |p.segments| > 0 && NonNegativeDurations(p) && p.loop
    ensures Run(Started(p), n) == Run(Started(p), n % CycleTicks(p))
  {
    LoopCycle(p);
    RunModulo(Started(p), CycleTicks(p), n);
  }

  // ---------------------------------------------------------------------------------
  // Two concrete runs

  const OneMinute := Preset("one", "One minute", [Segment("focus", "Focus", 1, "#4A90E2")], false)

  /** One one-minute segment, no loop: still running at 0 after 60 ticks; stopped after 61;
      unchanged after that. */
  lemma OneMinuteRun()
    ensures Run(Started(OneMinute), 59) == TimerState(true, 0, 1, Some(OneMinute))
    ensures Run(Started(OneMinute), 60) == TimerState(true, 0, 0, Some(OneMinute))
    ensures Run(Started(OneMinute), 61) == TimerState(false, 0, 0, Some(OneMinute))
    ensures Run(Started(OneMinute), 62) == Run(Started(OneMinute), 61)
  {
    var s := Started(OneMinute);
    Countdown(s, 59);
    Countdown(s, 60);
    RunToCompletion(OneMinute, 1);
  }

  const TwoMinuteLoop := Preset("two", "Two segments", [
    Segment("focus", "Focus", 1, "#4A90E2"), Segment("break", "Break", 1, "#50E3C2")], true)

  /** Two one-minute segments, looping: 121 ticks reach the end of the second segment,
      and the 122nd tick wraps to the start of the first. */
  lemma TwoMinuteLoopRun()
    ensures Run(Started(TwoMinuteLoop), 121) == TimerState(true, 1, 0, Some(TwoMinuteLoop))
    ensures Run(Started(TwoMinuteLoop), 122) == Started(TwoMinuteLoop)
  {
    var s := Started(TwoMinuteLoop);
    var second := TimerState(true, 1, 60, Some(TwoMinuteLoop));
    Countdown(s, 60);
    RunAdd(s, 60, 1);
    assert Run(s, 61) == second;
    Countdown(second, 60);
    RunAdd(s, 61, 60);
    assert CycleTicks(TwoMinuteLoop) == 122;
    LoopPeriodic(TwoMinuteLoop, 1, 0);
  }
}
