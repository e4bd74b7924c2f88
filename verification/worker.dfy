/**
 The worker process as a transition system.

 The main flow (`main` in the worker) is a program counter over the
 statements of its sampling loop; preemption is a nondeterministic choice of
 the next event: the main flow executes one statement, the one-shot timer
 fires and the SIGALRM handler runs to completion, or a control signal
 arrives and its handler runs. Whether `setitimer` succeeds is an input of
 the main-flow step.

 Two loop layouts are modelled. `AsWritten` is the worker's loop: the timer
 is re-armed at the bottom of the outer loop and `g_alarm_flag` is cleared at
 its top. `ClearBeforeArm` clears the flag before re-arming, so no firing can
 fall between the arm and the clear.
 */
module Worker {
  import opened Histogram

  /** Linux signal numbers. */
  const SIGUSR1: int := 10
  const SIGUSR2: int := 12
  const SIGALRM: int := 14

  /** The statement the main flow executes next. */
  datatype Pc =
    | Setup       // the first setup_timer() before the loop
    | OuterTest   // while (g_repetitions_done < NUM_REPETITIONS)
    | ClearFlag   // g_alarm_flag = 0
    | InnerTest   // while (!g_alarm_flag)
    | WriteV1     // g_shared_pair.v1 = ...
    | WriteV2     // g_shared_pair.v2 = ...; current_state flips
    | RearmCheck  // if (g_repetitions_done < NUM_REPETITIONS) setup_timer()
    | Arm         // setup_timer() right after the flag is cleared (ClearBeforeArm only)
    | GateRead    // if (g_output_enabled)
    | Done        // the result line or the suppression notice has been written
    | SetupFailed // the first setup_timer() failed; exit with EXIT_FAILURE

  datatype Layout = AsWritten | ClearBeforeArm

  /** What the worker reported at the end of its run. */
  datatype Report = NotYet | Stats(counts: Counters) | Suppressed

  /**
   The worker's globals, plus `phase` (`current_state`), `armed` (a one-shot
   timer is pending), `pc`, and `early` (the loop stopped on a re-arm failure).
   */
  datatype State = State(
    pair: Pair,
    counts: Counters,
    reps: int,
    alarmFlag: bool,
    gate: bool,
    phase: int,
    armed: bool,
    pc: Pc,
    early: bool,
    report: Report)

  /** One interleaving step. */
  datatype Event =
    | Main(timerOk: bool)
    | TimerFires
    | Usr(sig: int)

  /** `initialize_globals`, with the main flow about to arm the first timer. */
  function InitializeGlobals(): (s: State)
    ensures Initial(s)
  {
    State(Pair(0, 0), ZeroCounters, 0, false, true, 0, false, Setup, false, NotYet)
  }

  /**
   A worker as `initialize_globals` leaves it: pair {0,0}, all four counters
   and the repetition count 0, the flag down, output enabled, no timer yet.
   */
  predicate Initial(s: State) {
    && s.pair.v1 == 0 && s.pair.v2 == 0
    && s.counts.c00 == 0 && s.counts.c01 == 0 && s.counts.c10 == 0 && s.counts.c11 == 0
    && s.reps == 0 && !s.alarmFlag && s.gate
    && s.phase == 0 && !s.armed && s.pc.Setup? && !s.early && s.report.NotYet?
  }

  /**
   `handle_alarm`: classify the pair, bump that bucket, count the repetition
   unless the budget is used up, raise the flag. Any other signal is ignored.
   */
  function HandleAlarm(s: State, sig: int): (r: State)
    ensures sig != SIGALRM ==> r == s
    ensures r == s.(counts := r.counts, reps := r.reps, alarmFlag := r.alarmFlag)
    ensures sig == SIGALRM ==>
              && r.alarmFlag
              && r.counts.Get(Classify(s.pair)) == s.counts.Get(Classify(s.pair)) + 1
              && (forall b: Bucket :: b != Classify(s.pair) ==> r.counts.Get(b) == s.counts.Get(b))
    ensures sig == SIGALRM ==> (r.reps == s.reps + 1 <==> s.reps < NUM_REPETITIONS)
    ensures r.reps == s.reps || r.reps == s.reps + 1
    ensures s.reps <= NUM_REPETITIONS ==> r.reps <= NUM_REPETITIONS
  {
    if sig == SIGALRM then
      s.(counts := Record(s.counts, Classify(s.pair)),
         reps := if s.reps < NUM_REPETITIONS then s.reps + 1 else s.reps,
         alarmFlag := true)
    else
      s
  }

  /** `handle_usr_signals`: SIGUSR1 enables output, SIGUSR2 disables it. */
  function HandleUsr(s: State, sig: int): (r: State)
    ensures r == s.(gate := r.gate)
    ensures sig == SIGUSR1 ==> r.gate
    ensures sig == SIGUSR2 ==> !r.gate
    ensures sig != SIGUSR1 && sig != SIGUSR2 ==> r == s
  {
    if sig == SIGUSR1 then s.(gate := true)
    else if sig == SIGUSR2 then s.(gate := false)
    else s
  }

  /** The value the alternation loop writes into both fields in this phase. */
  function Written(phase: int): int {
    if phase == 0 then 0 else 1
  }

  /** `setup_timer()` inside the loop: arm and go round again, or stop early. */
  function Rearm(s: State, timerOk: bool): State {
    if timerOk then s.(armed := true, pc := OuterTest) else s.(early := true, pc := GateRead)
  }

  /** The main flow executes the statement at `pc`. */
  function MainStep(layout: Layout, s: State, timerOk: bool): (r: State)
    // the main flow never touches the histogram, the repetition counter or the gate
    ensures r.counts == s.counts && r.reps == s.reps && r.gate == s.gate
    // it writes the pair only at the two write statements, one field at a time
    ensures r.pair.v1 != s.pair.v1 ==> s.pc == WriteV1
    ensures r.pair.v2 != s.pair.v2 ==> s.pc == WriteV2
    // the first write stores the phase's value in v1, the second stores it in v2 and flips the phase
    ensures s.pc == WriteV1 ==> r.pair.v1 == Written(s.phase) && r.pair.v2 == s.pair.v2 && r.phase == s.phase
    ensures s.pc == WriteV2 ==>
              && r.pair.v1 == s.pair.v1 && r.pair.v2 == Written(s.phase)
              && (r.phase == 0 <==> s.phase != 0)
    ensures s.pc != WriteV2 ==> r.phase == s.phase
    // the gate is read once, and the report follows it
    ensures s.pc == GateRead ==> r.pc == Done
    ensures s.pc == GateRead ==> (r.report.Stats? <==> s.gate) && (r.report.Suppressed? <==> !s.gate)
    ensures s.pc != GateRead ==> r.report == s.report
    // the flag is cleared only at the clearing statement; a timer is armed only by setup_timer
    ensures r.alarmFlag != s.alarmFlag ==> s.pc == ClearFlag && !r.alarmFlag
    ensures r.armed && !s.armed ==> (s.pc == Setup || s.pc == RearmCheck || s.pc == Arm) && timerOk
  {
    match s.pc
    case Setup =>
      if timerOk then s.(armed := true, pc := OuterTest) else s.(pc := SetupFailed)
    case OuterTest =>
      if s.reps < NUM_REPETITIONS then
        s.(pc := if layout == AsWritten then ClearFlag else InnerTest)
      else
        s.(pc := GateRead)
    case ClearFlag =>
      s.(alarmFlag := false, pc := if layout == AsWritten then InnerTest else Arm)
    case InnerTest =>
      s.(pc := if s.alarmFlag then RearmCheck else WriteV1)
    case WriteV1 =>
      s.(pair := s.pair.(v1 := Written(s.phase)), pc := WriteV2)
    case WriteV2 =>
      s.(pair := s.pair.(v2 := Written(s.phase)), phase := if s.phase == 0 then 1 else 0, pc := InnerTest)
    case RearmCheck =>
      if s.reps >= NUM_REPETITIONS then s.(pc := OuterTest)
      else if layout == ClearBeforeArm then s.(pc := ClearFlag)
      else Rearm(s, timerOk)
    case Arm =>
      Rearm(s, timerOk)
    case GateRead =>
      s.(report := if s.gate then Stats(s.counts) else Suppressed, pc := Done)
    case Done => s
    case SetupFailed => s
  }

  /**
   One event. A firing needs a pending one-shot timer and consumes it; an
   event that cannot happen in `s` leaves it unchanged.
   */
  function Step(layout: Layout, s: State, e: Event): State {
    match e
    case Main(timerOk) => MainStep(layout, s, timerOk)
    case TimerFires => if s.armed then HandleAlarm(s.(armed := false), SIGALRM) else s
    case Usr(sig) => HandleUsr(s, sig)
  }

  /** The state after an interleaving of events. */
  function Run(layout: Layout, s: State, es: seq<Event>): State
    decreases |es|
  {
    if |es| == 0 then s else Run(layout, Step(layout, s, es[0]), es[1..])
  }

  /** The main flow is inside `while (!g_alarm_flag)`. */
  predicate Spinning(s: State) {
    s.pc == InnerTest || s.pc == WriteV1 || s.pc == WriteV2
  }

  /** The invariant of every reachable state. */
  predicate Inv(layout: Layout, s: State) {
    && IsBit(s.pair.v1) && IsBit(s.pair.v2) && IsBit(s.phase)
    && (s.pc == WriteV2 ==> s.pair.v1 == Written(s.phase))
    && (s.pc != WriteV2 ==> s.pair.v1 == s.pair.v2)
    && 0 <= s.reps <= NUM_REPETITIONS
    && s.counts.c00 + s.counts.c01 + s.counts.c10 + s.counts.c11 == s.reps
    && (s.armed ==> s.reps < NUM_REPETITIONS)
    && (s.pc == Setup || s.pc == SetupFailed ==> s.reps == 0 && !s.armed && !s.alarmFlag)
    && (s.pc == GateRead || s.pc == Done ==> !s.armed && (s.early || s.reps == NUM_REPETITIONS))
    && (s.early ==> (s.pc == GateRead || s.pc == Done) && s.reps < NUM_REPETITIONS)
    && (s.pc == Done <==> !s.report.NotYet?)
    && (s.report.Stats? ==> s.report.counts == s.counts)
    && (s.pc == RearmCheck ==> s.alarmFlag && !s.armed)
    && (Spinning(s) && s.alarmFlag ==> !s.armed)
    && (layout == AsWritten ==> s.pc != Arm)
    && (layout == ClearBeforeArm ==>
          && (s.alarmFlag ==> !s.armed)
          && (s.pc == ClearFlag || s.pc == Arm ==> !s.armed && s.reps < NUM_REPETITIONS)
          && (s.pc == Arm ==> !s.alarmFlag)
          && (Spinning(s) || s.pc == OuterTest ==> s.armed || s.alarmFlag))
  }

  /** A worker that has just run `initialize_globals` satisfies the invariant. */
  lemma InitialInv(layout: Layout, s: State)
    requires Initial(s)
    ensures Inv(layout, s)
  {
  }

  lemma MainStepInv(layout: Layout, s: State, timerOk: bool)
    requires Inv(layout, s)
    ensures Inv(layout, MainStep(layout, s, timerOk))
  {
  }

  lemma StepInv(layout: Layout, s: State, e: Event)
    requires Inv(layout, s)
    ensures Inv(layout, Step(layout, s, e))
  {
    if e.Main? {
      MainStepInv(layout, s, e.timerOk);
    }
  }

  lemma {:induction false} RunInv(layout: Layout, s: State, es: seq<Event>)
    requires Inv(layout, s)
    ensures Inv(layout, Run(layout, s, es))
    decreases |es|
  {
    if |es| > 0 {
      StepInv(layout, s, es[0]);
      RunInv(layout, Step(layout, s, es[0]), es[1..]);
    }
  }

  /**
   Under every interleaving: both fields stay 0 or 1, the repetition counter
   stays within the budget, and the four counters always add up to it.
   */
  lemma SamplingInvariants(layout: Layout, s0: State, es: seq<Event>)
    requires Initial(s0)
    ensures var r := Run(layout, s0, es);
            && IsBit(r.pair.v1) && IsBit(r.pair.v2)
            && (r.pc != WriteV2 ==> r.pair.v1 == r.pair.v2)
            && 0 <= r.reps <= NUM_REPETITIONS
            && r.counts.Total() == r.reps
  {
    InitialInv(layout, s0);
    RunInv(layout, s0, es);
  }

  /**
   A finished run reports its histogram iff the gate was on at the read, and
   the reported counters add up to the budget, or to less only when a re-arm
   failed.
   */
  lemma FinishedRunReport(layout: Layout, s0: State, es: seq<Event>)
    requires Initial(s0)
    requires Run(layout, s0, es).pc == Done
    ensures var r := Run(layout, s0, es);
            && (r.report.Stats? || r.report.Suppressed?)
            && (r.report.Stats? ==> r.report.counts.Total() == r.reps)
            && (r.early <==> r.reps < NUM_REPETITIONS)
            && (!r.early ==> r.reps == NUM_REPETITIONS)
  {
    InitialInv(layout, s0);
    RunInv(layout, s0, es);
  }

  /** After the single read of the gate, nothing changes the report or the histogram. */
  lemma {:induction false} DoneIsFinal(layout: Layout, s: State, es: seq<Event>)
    requires Inv(layout, s) && s.pc == Done
    ensures var r := Run(layout, s, es);
            r.pc == Done && r.report == s.report && r.counts == s.counts && r.reps == s.reps
    decreases |es|
  {
    if |es| > 0 {
      StepInv(layout, s, es[0]);
      DoneIsFinal(layout, Step(layout, s, es[0]), es[1..]);
    }
  }

  /** Running one more event at the end of an interleaving. */
  lemma {:induction false} RunSnoc(layout: Layout, s: State, es: seq<Event>, e: Event)
    ensures Run(layout, s, es + [e]) == Step(layout, Run(layout, s, es), e)
    decreases |es|
  {
    if |es| == 0 {
      assert es + [e] == [e] && [e][1..] == [];
    } else {
      assert (es + [e])[0] == es[0];
      assert (es + [e])[1..] == es[1..] + [e];
      RunSnoc(layout, Step(layout, s, es[0]), es[1..], e);
    }
  }

  /** Extends an interleaving that reaches `s` by one event. */
  lemma Extend(layout: Layout, s0: State, es: seq<Event>, s: State, e: Event) returns (es': seq<Event>)
    requires Run(layout, s0, es) == s
    ensures es' == es + [e]
    ensures Run(layout, s0, es') == Step(layout, s, e)
  {
    es' := es + [e];
    RunSnoc(layout, s0, es, e);
  }

  /** From a fresh worker to the first write of a new pair, with the first timer pending. */
  lemma ToFirstWrite(layout: Layout, s0: State) returns (es: seq<Event>, s: State)
    requires Initial(s0)
    ensures Run(layout, s0, es) == s
    ensures s.pc == WriteV1 && s.armed && !s.alarmFlag && s.phase == 0
    ensures s.pair == s0.pair && s.counts == s0.counts && s.reps == 0
  {
    s := s0;
    es := [];
    var t := Step(layout, s, Main(true));
    es := Extend(layout, s0, es, s, Main(true));
    s := t;
    assert s.pc == OuterTest && s.armed && !s.alarmFlag;
    if layout == AsWritten {
      t := Step(layout, s, Main(true));
      es := Extend(layout, s0, es, s, Main(true));
      s := t;
      assert s.pc == ClearFlag;
    }
    t := Step(layout, s, Main(true));
    es := Extend(layout, s0, es, s, Main(true));
    s := t;
    assert s.pc == InnerTest && !s.alarmFlag;
    t := Step(layout, s, Main(true));
    es := Extend(layout, s0, es, s, Main(true));
    s := t;
  }

  /** The main flow executes its next statement, with any re-arm succeeding. */
  lemma Advance(layout: Layout, s0: State, es: seq<Event>, s: State) returns (es': seq<Event>, s': State)
    requires Run(layout, s0, es) == s
    ensures s' == MainStep(layout, s, true)
    ensures Run(layout, s0, es') == s'
  {
    s' := MainStep(layout, s, true);
    es' := Extend(layout, s0, es, s, Main(true));
  }

  /** The pending timer fires; the handler counts a sample and raises the flag. */
  lemma Fire(layout: Layout, s0: State, es: seq<Event>, s: State) returns (es': seq<Event>, s': State)
    requires Run(layout, s0, es) == s
    requires s.armed && 0 <= s.reps < NUM_REPETITIONS
    ensures Run(layout, s0, es') == s'
    ensures s'.alarmFlag && !s'.armed && s'.reps == s.reps + 1
    ensures s'.pc == s.pc && s'.pair == s.pair && s'.early == s.early
    ensures s'.counts.Get(Classify(s.pair)) > 0
  {
    s' := Step(layout, s, TimerFires);
    es' := Extend(layout, s0, es, s, TimerFires);
  }

  /** Every one of the four combinations can be sampled. */
  lemma AllFourReachable(layout: Layout, s0: State, b: Bucket)
    requires Initial(s0)
    ensures exists es :: Run(layout, s0, es).counts.Get(b) > 0
  {
    var es, s := ToFirstWrite(layout, s0);
    assert s.pair.v1 == 0 && s.pair.v2 == 0;
    if b != B00 {
      es, s := Advance(layout, s0, es, s);
      es, s := Advance(layout, s0, es, s);
      assert s.pc == InnerTest && s.phase == 1 && !s.alarmFlag;
      es, s := Advance(layout, s0, es, s);
      es, s := Advance(layout, s0, es, s);
      assert s.pair.v1 == 1 && s.pair.v2 == 0 && s.pc == WriteV2 && s.armed;
      if b != B10 {
        es, s := Advance(layout, s0, es, s);
        assert s.pair.v1 == 1 && s.pair.v2 == 1 && s.pc == InnerTest && s.phase == 0 && s.armed && !s.alarmFlag;
        if b != B11 {
          es, s := Advance(layout, s0, es, s);
          es, s := Advance(layout, s0, es, s);
          assert s.pair.v1 == 0 && s.pair.v2 == 1;
        }
      }
    }
    assert s.armed && Classify(s.pair) == b;
    var es', s' := Fire(layout, s0, es, s);
  }

  /** Delivering control signals in order. */
  function ApplyControlSignals(s: State, sigs: seq<int>): State
    decreases |sigs|
  {
    if |sigs| == 0 then s else ApplyControlSignals(HandleUsr(s, sigs[0]), sigs[1..])
  }

  /** The gate after `sigs`: the meaning of the last SIGUSR1/SIGUSR2 among them, else `initial`. */
  function LastControl(sigs: seq<int>, initial: bool): bool
    decreases |sigs|
  {
    if |sigs| == 0 then initial
    else if sigs[|sigs| - 1] == SIGUSR1 then true
    else if sigs[|sigs| - 1] == SIGUSR2 then false
    else LastControl(sigs[..|sigs| - 1], initial)
  }

  lemma {:induction false} ApplyControlSignalsSnoc(s: State, sigs: seq<int>, sig: int)
    ensures ApplyControlSignals(s, sigs + [sig]) == HandleUsr(ApplyControlSignals(s, sigs), sig)
    decreases |sigs|
  {
    if |sigs| == 0 {
      assert ([] + [sig])[1..] == [];
    } else {
      assert (sigs + [sig])[0] == sigs[0];
      assert (sigs + [sig])[1..] == sigs[1..] + [sig];
      ApplyControlSignalsSnoc(HandleUsr(s, sigs[0]), sigs[1..], sig);
    }
  }

  /** Last write wins: only the final SIGUSR1/SIGUSR2 decides the gate, and nothing else changes. */
  lemma {:induction false} LastWriteWins(s: State, sigs: seq<int>)
    ensures ApplyControlSignals(s, sigs) == s.(gate := LastControl(sigs, s.gate))
    decreases |sigs|
  {
    if |sigs| > 0 {
      var init := sigs[..|sigs| - 1];
      assert sigs == init + [sigs[|sigs| - 1]];
      LastWriteWins(s, init);
      ApplyControlSignalsSnoc(s, init, sigs[|sigs| - 1]);
    }
  }

  /**
   Spinning with the flag down and no timer pending: only a firing could
   raise the flag, and none can come.
   */
  predicate Stuck(s: State) {
    Spinning(s) && !s.alarmFlag && !s.armed
  }

  /** A stuck worker stays stuck whatever happens: it never samples again and never reports. */
  lemma {:induction false} StuckIsForever(layout: Layout, s: State, es: seq<Event>)
    requires Stuck(s)
    ensures var r := Run(layout, s, es);
            Stuck(r) && r.reps == s.reps && r.counts == s.counts && r.report == s.report
    decreases |es|
  {
    if |es| > 0 {
      StuckIsForever(layout, Step(layout, s, es[0]), es[1..]);
    }
  }

  /**
   The worker's loop as written loses a wakeup: a firing between arming the
   timer (here the first arm) and the flag clear at the top of the loop is
   wiped out, and the worker is stuck with one sample out of NUM_REPETITIONS.
   */
  lemma LostWakeupAsWritten(s0: State) returns (es: seq<Event>)
    requires Initial(s0)
    ensures var r := Run(AsWritten, s0, es);
            Stuck(r) && r.reps == 1 < NUM_REPETITIONS
  {
    var s1 := Step(AsWritten, s0, Main(true));       // setup_timer()
    es := Extend(AsWritten, s0, [], s0, Main(true));
    var s2;
    es, s2 := Fire(AsWritten, s0, es, s1);           // fires before the loop clears the flag
    es, s2 := Advance(AsWritten, s0, es, s2);        // g_repetitions_done < NUM_REPETITIONS
    es, s2 := Advance(AsWritten, s0, es, s2);        // g_alarm_flag = 0
  }

  /** With the flag cleared before every arm, no reachable state is stuck. */
  lemma NoLostWakeup(s0: State, es: seq<Event>)
    requires Initial(s0)
    ensures !Stuck(Run(ClearBeforeArm, s0, es))
  {
    InitialInv(ClearBeforeArm, s0);
    RunInv(ClearBeforeArm, s0, es);
  }
}
