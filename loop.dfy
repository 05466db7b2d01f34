/** The loop driver `run_loop`: sleep through the quiet window, otherwise
    run one cycle and sleep the interval; leave with the stop's exit code,
    or with 0 on Ctrl-C. The unbounded `while True` is driven by a finite
    sequence of ticks, one per turn of the loop. */
module PollLoop {
  import opened Common
  import opened Schedule
  import opened Cycle

  /** One turn of the loop: the Shanghai wall-clock reading taken at its
      start, whether Ctrl-C arrived since the previous turn, and what the
      outside world contributes if a cycle runs. */
  datatype Tick = Tick(clock: ClockTime, interrupted: bool, input: CycleInput)

  /** The loop's settings; the quiet-window bounds are minutes of the day
      as `hhmm_to_minutes` returns them. */
  datatype LoopConfig = LoopConfig(intervalMinutes: int, quietStart: int, quietEnd: int, settings: Settings)

  predicate ValidConfig(cfg: LoopConfig) {
    0 <= cfg.quietStart < MinutesPerDay && 0 <= cfg.quietEnd < MinutesPerDay
  }

  predicate ValidTicks(ticks: seq<Tick>) {
    forall i :: 0 <= i < |ticks| ==> ticks[i].clock.Valid()
  }

  /** How the run ended: `run_loop` returned this code, or the ticks ran
      out while the loop was still going. */
  datatype LoopEnd = Exit(code: int) | Running

  /** `max(1, interval_minutes) * 60`. */
  function IntervalSeconds(minutes: int): (s: int)
    ensures s >= 60 && s % 60 == 0
    ensures minutes >= 1 ==> s == minutes * 60
  {
    Max(1, minutes) * 60
  }

  /** What a run produced: how it ended, the result of every cycle and
      every sleep in order, and the in-memory and saved state at the end. */
  datatype Run = Run(end: LoopEnd, results: seq<CycleResult>, sleeps: seq<int>, state: StateRecord, persisted: StateRecord)

  /** What one cycle does to a state, as the loop sees it. */
  type CycleFunction = (StateRecord, Settings, CycleInput) -> Outcome

  /** `run_loop` over `ticks`, from in-memory state `s` and saved state `p`,
      for any cycle. */
  function Drive(cycle: CycleFunction, s: StateRecord, p: StateRecord, cfg: LoopConfig, ticks: seq<Tick>): Run
    requires ValidConfig(cfg) && ValidTicks(ticks)
    decreases |ticks|
  {
    if ticks == [] then Run(Running, [], [], s, p)
    else
      var t := ticks[0];
      if t.interrupted then Run(Exit(0), [], [], s, p)
      else if InQuietWindow(t.clock, cfg.quietStart, cfg.quietEnd) then
        var rest := Drive(cycle, s, p, cfg, ticks[1..]);
        rest.(sleeps := [SecondsUntilQuietEnd(t.clock, cfg.quietStart, cfg.quietEnd)] + rest.sleeps)
      else
        var o := cycle(s, cfg.settings, t.input);
        var p' := if o.saved then o.state else p;
        if o.result.Stop? then Run(Exit(o.result.code), [o.result], [], o.state, p')
        else
          var rest := Drive(cycle, o.state, p', cfg, ticks[1..]);
          rest.(results := [o.result] + rest.results, sleeps := [IntervalSeconds(cfg.intervalMinutes)] + rest.sleeps)
  }

  /** `run_loop` with `run_once` as its cycle. */
  function Loop(s: StateRecord, p: StateRecord, cfg: LoopConfig, ticks: seq<Tick>): Run
    requires ValidConfig(cfg) && ValidTicks(ticks)
  {
    Drive(Step, s, p, cfg, ticks)
  }

  /** Every stop a cycle reports carries exit code 1. */
  ghost predicate StopsWithOne(cycle: CycleFunction) {
    forall s, settings, input :: cycle(s, settings, input).result.Stop? ==> cycle(s, settings, input).result.code == 1
  }

  /** A cycle that does not save leaves the state as it was. */
  ghost predicate SavesEveryChange(cycle: CycleFunction) {
    forall s, settings, input :: !cycle(s, settings, input).saved ==> cycle(s, settings, input).state == s
  }

  /** `run_once` has both properties the loop relies on. */
  lemma StepIsWellBehaved()
    ensures StopsWithOne(Step) && SavesEveryChange(Step)
  {
    forall s, settings, input
      ensures Step(s, settings, input).result.Stop? ==> Step(s, settings, input).result.code == 1
    {
      StopSavesFirst(s, settings, input);
    }
    forall s, settings, input
      ensures !Step(s, settings, input).saved ==> Step(s, settings, input).state == s
    {
      UnsavedMeansUnchanged(s, settings, input);
    }
  }

  // ---------------------------------------------------------------------
  // properties of the loop

  predicate StopIsLast(run: Run) {
    forall i :: 0 <= i < |run.results| && run.results[i].Stop? ==>
      i == |run.results| - 1 && run.end == Exit(run.results[i].code)
  }

  lemma StopAfterFirst(first: CycleResult, rest: Run, run: Run)
    requires !first.Stop? && run.results == [first] + rest.results && run.end == rest.end
    requires StopIsLast(rest)
    ensures StopIsLast(run)
  {
    forall i | 0 <= i < |run.results| && run.results[i].Stop?
      ensures i == |run.results| - 1 && run.end == Exit(run.results[i].code)
    {
      assert run.results[i] == rest.results[i - 1];
    }
  }

  /** A stop is always the last cycle, and its code is the loop's exit
      code: no cycle runs after a stop. */
  lemma {:induction false} StopEndsTheLoop(cycle: CycleFunction, s: StateRecord, p: StateRecord, cfg: LoopConfig, ticks: seq<Tick>)
    requires ValidConfig(cfg) && ValidTicks(ticks)
    ensures StopIsLast(Drive(cycle, s, p, cfg, ticks))
    decreases |ticks|
  {
    if ticks != [] && !ticks[0].interrupted {
      var t := ticks[0];
      var run := Drive(cycle, s, p, cfg, ticks);
      if InQuietWindow(t.clock, cfg.quietStart, cfg.quietEnd) {
        StopEndsTheLoop(cycle, s, p, cfg, ticks[1..]);
        var rest := Drive(cycle, s, p, cfg, ticks[1..]);
        assert run.results == rest.results && run.end == rest.end;
      } else {
        var o := cycle(s, cfg.settings, t.input);
        var p' := if o.saved then o.state else p;
        if !o.result.Stop? {
          StopEndsTheLoop(cycle, o.state, p', cfg, ticks[1..]);
          var rest := Drive(cycle, o.state, p', cfg, ticks[1..]);
          assert run.results == [o.result] + rest.results && run.end == rest.end;
          StopAfterFirst(o.result, rest, run);
        }
      }
    }
  }

  /** The loop exits with 1 right after a stop and with 0 otherwise (on
      Ctrl-C), when every stop carries code 1 as `run_once`'s do. */
  lemma {:induction false} ExitCodes(cycle: CycleFunction, s: StateRecord, p: StateRecord, cfg: LoopConfig, ticks: seq<Tick>)
    requires ValidConfig(cfg) && ValidTicks(ticks) && StopsWithOne(cycle)
    ensures var run := Drive(cycle, s, p, cfg, ticks);
      run.end.Exit? ==>
        if run.results != [] && run.results[|run.results| - 1].Stop? then run.end.code == 1
        else run.end.code == 0
    decreases |ticks|
  {
    if ticks != [] && !ticks[0].interrupted {
      var t := ticks[0];
      if InQuietWindow(t.clock, cfg.quietStart, cfg.quietEnd) {
        ExitCodes(cycle, s, p, cfg, ticks[1..]);
      } else {
        var o := cycle(s, cfg.settings, t.input);
        var p' := if o.saved then o.state else p;
        if !o.result.Stop? {
          ExitCodes(cycle, o.state, p', cfg, ticks[1..]);
          var run := Drive(cycle, s, p, cfg, ticks);
          var rest := Drive(cycle, o.state, p', cfg, ticks[1..]);
          assert run.results == [o.result] + rest.results;
          assert rest.results != [] ==> run.results[|run.results| - 1] == rest.results[|rest.results| - 1];
        }
      }
    }
  }

  /** While the loop keeps running, no interrupt has arrived. */
  lemma {:induction false} RunningMeansNoInterrupt(cycle: CycleFunction, s: StateRecord, p: StateRecord, cfg: LoopConfig, ticks: seq<Tick>)
    requires ValidConfig(cfg) && ValidTicks(ticks)
    requires Drive(cycle, s, p, cfg, ticks).end.Running?
    ensures forall i :: 0 <= i < |ticks| ==> !ticks[i].interrupted
    decreases |ticks|
  {
    if ticks != [] {
      var t := ticks[0];
      assert !t.interrupted;
      if InQuietWindow(t.clock, cfg.quietStart, cfg.quietEnd) {
        RunningMeansNoInterrupt(cycle, s, p, cfg, ticks[1..]);
      } else {
        var o := cycle(s, cfg.settings, t.input);
        var p' := if o.saved then o.state else p;
        RunningMeansNoInterrupt(cycle, o.state, p', cfg, ticks[1..]);
      }
      forall i | 0 <= i < |ticks| ensures !ticks[i].interrupted {
        if i > 0 { assert ticks[i] == ticks[1..][i - 1]; }
      }
    }
  }

  /** Every sleep is either the interval or a quiet-window sleep shorter
      than a day, and there is one sleep after each cycle that did not
      stop. */
  lemma {:induction false} SleepsAreBounded(cycle: CycleFunction, s: StateRecord, p: StateRecord, cfg: LoopConfig, ticks: seq<Tick>)
    requires ValidConfig(cfg) && ValidTicks(ticks)
    ensures var run := Drive(cycle, s, p, cfg, ticks);
      forall i :: 0 <= i < |run.sleeps| ==>
        run.sleeps[i] == IntervalSeconds(cfg.intervalMinutes) || 0 <= run.sleeps[i] < SecondsPerDay
    ensures var run := Drive(cycle, s, p, cfg, ticks);
      |run.results| <= |ticks| && |run.sleeps| <= |ticks|
    decreases |ticks|
  {
    if ticks != [] && !ticks[0].interrupted {
      var t := ticks[0];
      var run := Drive(cycle, s, p, cfg, ticks);
      if InQuietWindow(t.clock, cfg.quietStart, cfg.quietEnd) {
        SleepsAreBounded(cycle, s, p, cfg, ticks[1..]);
        var rest := Drive(cycle, s, p, cfg, ticks[1..]);
        assert run.sleeps == [SecondsUntilQuietEnd(t.clock, cfg.quietStart, cfg.quietEnd)] + rest.sleeps;
        assert run.results == rest.results;
      } else {
        var o := cycle(s, cfg.settings, t.input);
        var p' := if o.saved then o.state else p;
        if !o.result.Stop? {
          SleepsAreBounded(cycle, o.state, p', cfg, ticks[1..]);
          var rest := Drive(cycle, o.state, p', cfg, ticks[1..]);
          assert run.sleeps == [IntervalSeconds(cfg.intervalMinutes)] + rest.sleeps;
          assert run.results == [o.result] + rest.results;
        }
      }
    }
  }

  predicate AllQuiet(cfg: LoopConfig, ticks: seq<Tick>) {
    forall i :: 0 <= i < |ticks| ==> InQuietWindow(ticks[i].clock, cfg.quietStart, cfg.quietEnd)
  }

  /** Inside the quiet window no cycle runs: nothing is fetched, sent or
      saved. */
  lemma {:induction false} QuietWindowRunsNothing(cycle: CycleFunction, s: StateRecord, p: StateRecord, cfg: LoopConfig, ticks: seq<Tick>)
    requires ValidConfig(cfg) && ValidTicks(ticks) && AllQuiet(cfg, ticks)
    ensures var run := Drive(cycle, s, p, cfg, ticks);
      run.results == [] && run.state == s && run.persisted == p
    decreases |ticks|
  {
    if ticks != [] {
      assert AllQuiet(cfg, ticks[1..]) by {
        forall i | 0 <= i < |ticks[1..]| ensures InQuietWindow(ticks[1..][i].clock, cfg.quietStart, cfg.quietEnd) {
          assert ticks[1..][i] == ticks[i + 1];
        }
      }
      QuietWindowRunsNothing(cycle, s, p, cfg, ticks[1..]);
    }
  }

  /** A loop that starts with the state in step with its file ends with it
      in step, when the cycle never changes the state without saving it,
      as `run_once` never does. */
  lemma {:induction false} LoopKeepsStateSaved(cycle: CycleFunction, s: StateRecord, cfg: LoopConfig, ticks: seq<Tick>)
    requires ValidConfig(cfg) && ValidTicks(ticks) && SavesEveryChange(cycle)
    ensures Drive(cycle, s, s, cfg, ticks).persisted == Drive(cycle, s, s, cfg, ticks).state
    decreases |ticks|
  {
    if ticks != [] && !ticks[0].interrupted {
      var t := ticks[0];
      if InQuietWindow(t.clock, cfg.quietStart, cfg.quietEnd) {
        LoopKeepsStateSaved(cycle, s, cfg, ticks[1..]);
      } else {
        var o := cycle(s, cfg.settings, t.input);
        var p' := if o.saved then o.state else s;
        assert p' == o.state;
        LoopKeepsStateSaved(cycle, o.state, cfg, ticks[1..]);
      }
    }
  }

  /** The properties above, for `run_loop` itself. */
  lemma LoopProperties(s: StateRecord, cfg: LoopConfig, ticks: seq<Tick>)
    requires ValidConfig(cfg) && ValidTicks(ticks)
    ensures var run := Loop(s, s, cfg, ticks);
      && StopIsLast(run)
      && (run.end.Exit? ==> run.end.code == if run.results != [] && run.results[|run.results| - 1].Stop? then 1 else 0)
      && (run.end.Running? ==> forall i :: 0 <= i < |ticks| ==> !ticks[i].interrupted)
      && |run.results| <= |ticks| && |run.sleeps| <= |ticks|
      && run.persisted == run.state
  {
    StepIsWellBehaved();
    StopEndsTheLoop(Step, s, s, cfg, ticks);
    ExitCodes(Step, s, s, cfg, ticks);
    if Loop(s, s, cfg, ticks).end.Running? {
      RunningMeansNoInterrupt(Step, s, s, cfg, ticks);
    }
    SleepsAreBounded(Step, s, s, cfg, ticks);
    LoopKeepsStateSaved(Step, s, cfg, ticks);
  }

  // ---------------------------------------------------------------------
  // run_loop

  /** The run `Loop` describes, after `results` and `sleeps` have already
      happened. */
  function After(results: seq<CycleResult>, sleeps: seq<int>, run: Run): Run {
    run.(results := results + run.results, sleeps := sleeps + run.sleeps)
  }

  lemma AfterAfter(r1: seq<CycleResult>, s1: seq<int>, r2: seq<CycleResult>, s2: seq<int>, run: Run)
    ensures After(r1, s1, After(r2, s2, run)) == After(r1 + r2, s1 + s2, run)
  {
    assert r1 + (r2 + run.results) == (r1 + r2) + run.results;
    assert s1 + (s2 + run.sleeps) == (s1 + s2) + run.sleeps;
  }

  /** One turn of the loop, unfolded: a quiet tick adds a sleep; a cycle
      that does not stop adds its result and the interval sleep. */
  lemma LoopUnfold(s: StateRecord, p: StateRecord, cfg: LoopConfig, ticks: seq<Tick>, k: nat)
    requires ValidConfig(cfg) && ValidTicks(ticks) && k < |ticks| && !ticks[k].interrupted
    ensures var t := ticks[k];
      InQuietWindow(t.clock, cfg.quietStart, cfg.quietEnd) ==>
        Loop(s, p, cfg, ticks[k..])
        == After([], [SecondsUntilQuietEnd(t.clock, cfg.quietStart, cfg.quietEnd)], Loop(s, p, cfg, ticks[k + 1..]))
    ensures var t := ticks[k];
      var o := Step(s, cfg.settings, t.input);
      !InQuietWindow(t.clock, cfg.quietStart, cfg.quietEnd) && !o.result.Stop? ==>
        Loop(s, p, cfg, ticks[k..])
        == After([o.result], [IntervalSeconds(cfg.intervalMinutes)],
                 Loop(o.state, if o.saved then o.state else p, cfg, ticks[k + 1..]))
  {
    assert ticks[k..][0] == ticks[k] && ticks[k..][1..] == ticks[k + 1..];
  }

  /** `run_loop`, driven by `ticks`. */
  method RunLoop(state: MonitorState, cfg: LoopConfig, ticks: seq<Tick>)
    returns (end: LoopEnd, results: seq<CycleResult>, sleeps: seq<int>)
    requires ValidConfig(cfg) && ValidTicks(ticks)
    modifies state
    ensures var run := Loop(old(state.Snapshot()), old(state.persisted), cfg, ticks);
      && end == run.end && results == run.results && sleeps == run.sleeps
      && state.Snapshot() == run.state && state.persisted == run.persisted
  {
    ghost var whole := Loop(state.Snapshot(), state.persisted, cfg, ticks);
    var interval := IntervalSeconds(cfg.intervalMinutes);
    results, sleeps := [], [];
    var k := 0;
    assert ticks[k..] == ticks;
    assert whole == After(results, sleeps, whole);
    while k < |ticks|
      invariant k <= |ticks|
      invariant whole == After(results, sleeps, Loop(state.Snapshot(), state.persisted, cfg, ticks[k..]))
      decreases |ticks| - k
    {
      var t := ticks[k];
      ghost var s0, p0 := state.Snapshot(), state.persisted;
      if t.interrupted {
        assert ticks[k..][0] == t;
        end := Exit(0);
        assert results + [] == results && sleeps + [] == sleeps;
        return;
      }
      LoopUnfold(s0, p0, cfg, ticks, k);
      if InQuietWindow(t.clock, cfg.quietStart, cfg.quietEnd) {
        var nap := SecondsUntilQuietEnd(t.clock, cfg.quietStart, cfg.quietEnd);
        AfterAfter(results, sleeps, [], [nap], Loop(s0, p0, cfg, ticks[k + 1..]));
        assert results + [] == results;
        sleeps := sleeps + [nap];
        k := k + 1;
        continue;
      }
      var r, message := state.RunOnce(cfg.settings, t.input);
      if r.Stop? {
        assert ticks[k..][0] == t;
        results := results + [r];
        end := Exit(r.code);
        assert sleeps + [] == sleeps;
        return;
      }
      AfterAfter(results, sleeps, [r], [interval], Loop(state.Snapshot(), state.persisted, cfg, ticks[k + 1..]));
      results := results + [r];
      sleeps := sleeps + [interval];
      k := k + 1;
    }
    end := Running;
    assert ticks[k..] == [];
    assert results + [] == results && sleeps + [] == sleeps;
  }
}
