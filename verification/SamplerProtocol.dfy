/**
The sampler, the driver script and the timed launcher as one interleaved step system. They meet
only through a ready file, a stop file and a shared monotonic clock; whatever the interleaving,
the trace brackets the launch.
 */
module SamplerProtocol {

  datatype SamplerAt = NotStarted | CheckingStop | ReadingClock | ReadingSensors | Publishing | Sleeping | SamplerExited

  datatype DriverAt = Prepared | AwaitingReady | Launching | AwaitingSampler | Collected | GaveUp

  datatype LauncherAt = NotLaunched | ReadingBefore | ChildRunning | ReadingAfter | LauncherExited

  datatype State = State(
    clock: int,
    readyFile: bool,
    stopFile: bool,
    driver: DriverAt,
    launcher: LauncherAt,
    before: int,
    after: int,
    sampler: SamplerAt,
    finalSample: bool,
    stamp: int,            // the timestamp of the sweep being read
    partial: seq<int>,     // the sensor values read so far in it
    stamps: seq<int>,      // the timestamps of the sweeps written
    readings: seq<seq<int>>)

  datatype Step =
    | Tick(elapsed: nat)
    | StartSampler | SeeReady | GiveUp | CreateStop | Collect
    | TakeBefore | ReapChild | TakeAfter
    | CheckStop | TakeStamp | ReadSensor(powerUw: int) | EndSweep | Publish | Wake

  ghost predicate Init(s: State) {
    && !s.readyFile && !s.stopFile
    && s.driver == Prepared && s.launcher == NotLaunched && s.sampler == NotStarted
    && s.stamps == [] && s.readings == []
  }

  /** What one process does in one step, for a board with `sensors` sensors. */
  ghost predicate NextStep(s: State, t: State, step: Step, sensors: nat) {
    match step
    case Tick(elapsed) => t == s.(clock := s.clock + elapsed)

    // the driver script
    case StartSampler => s.driver == Prepared && t == s.(driver := AwaitingReady, sampler := CheckingStop)
    case SeeReady =>
      s.driver == AwaitingReady && s.readyFile && t == s.(driver := Launching, launcher := ReadingBefore)
    case GiveUp => s.driver == AwaitingReady && t == s.(driver := GaveUp)
    case CreateStop =>
      s.driver == Launching && s.launcher == LauncherExited && t == s.(driver := AwaitingSampler, stopFile := true)
    case Collect => s.driver == AwaitingSampler && s.sampler == SamplerExited && t == s.(driver := Collected)

    // the launcher
    case TakeBefore => s.launcher == ReadingBefore && t == s.(launcher := ChildRunning, before := s.clock)
    case ReapChild => s.launcher == ChildRunning && t == s.(launcher := ReadingAfter)
    case TakeAfter => s.launcher == ReadingAfter && t == s.(launcher := LauncherExited, after := s.clock)

    // the sampler
    case CheckStop =>
      s.sampler == CheckingStop && t == s.(sampler := ReadingClock, finalSample := s.stamps != [] && s.stopFile)
    case TakeStamp => s.sampler == ReadingClock && t == s.(sampler := ReadingSensors, stamp := s.clock, partial := [])
    case ReadSensor(powerUw) =>
      s.sampler == ReadingSensors && |s.partial| < sensors && t == s.(partial := s.partial + [powerUw])
    case EndSweep =>
      && s.sampler == ReadingSensors && |s.partial| == sensors
      && t == s.(sampler := Publishing, stamps := s.stamps + [s.stamp], readings := s.readings + [s.partial])
    case Publish =>
      && s.sampler == Publishing
      && t == s.(readyFile := s.readyFile || |s.stamps| == 1,
                 sampler := if s.finalSample then SamplerExited else Sleeping)
    case Wake => s.sampler == Sleeping && t == s.(sampler := CheckingStop)
  }

  ghost predicate Next(s: State, t: State, sensors: nat) {
    exists step :: NextStep(s, t, step, sensors)
  }

  ghost predicate IsRun(run: seq<State>, sensors: nat) {
    && run != [] && Init(run[0])
    && forall i | 0 <= i < |run| - 1 :: Next(run[i], run[i + 1], sensors)
  }

  // ----- the invariant -----

  predicate NonDecreasing(stamps: seq<int>) {
    forall i, j | 0 <= i < j < |stamps| :: stamps[i] <= stamps[j]
  }

  predicate SamplerInvariant(s: State, sensors: nat) {
    && |s.readings| == |s.stamps| && (forall i | 0 <= i < |s.readings| :: |s.readings[i]| == sensors)
    && NonDecreasing(s.stamps)
    && (s.stamps != [] ==> s.stamps[|s.stamps| - 1] <= s.clock)
    && (s.sampler == ReadingSensors ==>
          && s.stamp <= s.clock && |s.partial| <= sensors
          && (s.stamps != [] ==> s.stamps[|s.stamps| - 1] <= s.stamp))
    && (s.sampler == NotStarted ==> s.stamps == [])
    && (s.sampler == Publishing ==> s.stamps != [])
    && (s.readyFile ==> s.stamps != [])
  }

  predicate LauncherInvariant(s: State) {
    && (s.launcher != NotLaunched ==> s.readyFile)
    && (s.launcher in {ChildRunning, ReadingAfter, LauncherExited} ==>
          s.stamps != [] && s.stamps[0] <= s.before <= s.clock)
    && (s.launcher == LauncherExited ==> s.before <= s.after <= s.clock)
    && (s.driver in {AwaitingSampler, Collected} ==> s.launcher == LauncherExited)
    && (s.stopFile ==> s.driver in {AwaitingSampler, Collected})
  }

  /** Once the sampler has seen the stop file, the sweep it is taking ends after the launch. */
  predicate StopInvariant(s: State) {
    && (s.sampler in {ReadingClock, ReadingSensors, Publishing, SamplerExited} && s.finalSample ==>
          s.stopFile && s.stamps != [])
    && (s.sampler == ReadingSensors && s.finalSample ==> s.after <= s.stamp)
    && (s.sampler in {Publishing, SamplerExited} && s.finalSample ==>
          |s.stamps| >= 2 && s.after <= s.stamps[|s.stamps| - 1])
    && (s.sampler == SamplerExited ==> s.finalSample)
    && (s.driver == Collected ==> s.sampler == SamplerExited)
  }

  predicate Invariant(s: State, sensors: nat) {
    SamplerInvariant(s, sensors) && LauncherInvariant(s) && StopInvariant(s)
  }

  lemma StepKeepsSampler(s: State, t: State, step: Step, sensors: nat)
    requires Invariant(s, sensors) && NextStep(s, t, step, sensors)
    ensures SamplerInvariant(t, sensors)
  {
  }

  lemma StepKeepsLauncher(s: State, t: State, step: Step, sensors: nat)
    requires Invariant(s, sensors) && NextStep(s, t, step, sensors)
    ensures LauncherInvariant(t)
  {
  }

  lemma StepKeepsStop(s: State, t: State, step: Step, sensors: nat)
    requires Invariant(s, sensors) && NextStep(s, t, step, sensors)
    ensures StopInvariant(t)
  {
  }

  /** Every step of every process keeps the invariant. */
  lemma StepKeepsInvariant(s: State, t: State, sensors: nat)
    requires Invariant(s, sensors) && Next(s, t, sensors)
    ensures Invariant(t, sensors)
  {
    var step :| NextStep(s, t, step, sensors);
    StepKeepsSampler(s, t, step, sensors);
    StepKeepsLauncher(s, t, step, sensors);
    StepKeepsStop(s, t, step, sensors);
  }

  lemma {:induction false} RunKeepsInvariant(run: seq<State>, sensors: nat, i: nat)
    requires IsRun(run, sensors) && i < |run|
    ensures Invariant(run[i], sensors)
  {
    if i > 0 {
      RunKeepsInvariant(run, sensors, i - 1);
      assert Next(run[i - 1], run[i - 1 + 1], sensors);
      StepKeepsInvariant(run[i - 1], run[i], sensors);
    }
  }

  /**
  In every run, once the driver has collected the trace it has at least two complete sweeps, in time
  order, the first not after the launcher's start and the last not before its end.
   */
  lemma TraceBracketsLaunch(run: seq<State>, sensors: nat, i: nat)
    requires IsRun(run, sensors) && i < |run| && run[i].driver == Collected
    ensures var s := run[i];
            && |s.stamps| == |s.readings| >= 2
            && (forall k | 0 <= k < |s.readings| :: |s.readings[k]| == sensors)
            && NonDecreasing(s.stamps)
            && s.stamps[0] <= s.before <= s.after <= s.stamps[|s.stamps| - 1]
  {
    RunKeepsInvariant(run, sensors, i);
  }

  // ----- the protocol can finish -----

  ghost predicate Reaches(sensors: nat, s: State) {
    exists run :: IsRun(run, sensors) && run[|run| - 1] == s
  }

  lemma Extend(sensors: nat, s: State, step: Step, t: State)
    requires Reaches(sensors, s) && NextStep(s, t, step, sensors)
    ensures Reaches(sensors, t)
  {
    var run :| IsRun(run, sensors) && run[|run| - 1] == s;
    var longer := run + [t];
    forall i | 0 <= i < |longer| - 1
      ensures Next(longer[i], longer[i + 1], sensors)
    {
      if i < |run| - 1 {
        assert Next(run[i], run[i + 1], sensors);
      }
    }
    assert IsRun(longer, sensors) && longer[|longer| - 1] == t;
  }

  function WithPartial(s: State, partial: seq<int>): State {
    s.(partial := partial)
  }

  lemma {:induction false} ReadAll(sensors: nat, s: State, left: nat) returns (t: State)
    requires Reaches(sensors, s) && s.sampler == ReadingSensors && |s.partial| + left == sensors
    ensures Reaches(sensors, t) && |t.partial| == sensors && t == WithPartial(s, t.partial)
    decreases left
  {
    t := s;
    if left > 0 {
      var next := s.(partial := s.partial + [0]);
      Extend(sensors, s, ReadSensor(0), next);
      t := ReadAll(sensors, next, left - 1);
    }
  }

  /** A sampler that checks for the stop file can go on to publish a sweep. */
  lemma Sweep(sensors: nat, s: State) returns (t: State)
    requires Reaches(sensors, s) && s.sampler == CheckingStop
    ensures Reaches(sensors, t) && t.sampler == if s.stamps != [] && s.stopFile then SamplerExited else Sleeping
    ensures t.driver == s.driver && t.launcher == s.launcher && t.stopFile == s.stopFile && t.stamps != []
    ensures s.stamps == [] ==> t.readyFile
  {
    var checked := s.(sampler := ReadingClock, finalSample := s.stamps != [] && s.stopFile);
    Extend(sensors, s, CheckStop, checked);
    var stamped := checked.(sampler := ReadingSensors, stamp := s.clock, partial := []);
    Extend(sensors, checked, TakeStamp, stamped);
    var read := ReadAll(sensors, stamped, sensors);
    var ended := read.(sampler := Publishing,
                       stamps := read.stamps + [read.stamp], readings := read.readings + [read.partial]);
    Extend(sensors, read, EndSweep, ended);
    t := ended.(readyFile := ended.readyFile || |ended.stamps| == 1,
                sampler := if ended.finalSample then SamplerExited else Sleeping);
    Extend(sensors, ended, Publish, t);
  }

  /** With any number of sensors there is a run in which the trace is collected. */
  lemma SomeRunCollects(sensors: nat) returns (s: State)
    ensures Reaches(sensors, s) && s.driver == Collected
  {
    var start := State(0, false, false, Prepared, NotLaunched, 0, 0, NotStarted, false, 0, [], [], []);
    assert IsRun([start], sensors) && [start][|[start]| - 1] == start;
    var started := start.(driver := AwaitingReady, sampler := CheckingStop);
    Extend(sensors, start, StartSampler, started);
    var swept := Sweep(sensors, started);
    var stopped := Launch(sensors, swept);
    var woken := stopped.(sampler := CheckingStop);
    Extend(sensors, stopped, Wake, woken);
    var done := Sweep(sensors, woken);
    s := done.(driver := Collected);
    Extend(sensors, done, Collect, s);
  }

  lemma Launch(sensors: nat, s: State) returns (t: State)
    requires Reaches(sensors, s) && s.driver == AwaitingReady && s.readyFile
    ensures Reaches(sensors, t) && t.driver == AwaitingSampler && t.stopFile
    ensures t.sampler == s.sampler && t.stamps == s.stamps
  {
    var seen := s.(driver := Launching, launcher := ReadingBefore);
    Extend(sensors, s, SeeReady, seen);
    var running := seen.(launcher := ChildRunning, before := s.clock);
    Extend(sensors, seen, TakeBefore, running);
    var reaped := running.(launcher := ReadingAfter);
    Extend(sensors, running, ReapChild, reaped);
    var exited := reaped.(launcher := LauncherExited, after := s.clock);
    Extend(sensors, reaped, TakeAfter, exited);
    t := exited.(driver := AwaitingSampler, stopFile := true);
    Extend(sensors, exited, CreateStop, t);
  }

  // ----- the sampler's sleep deadlines -----

  datatype Timespec = Timespec(sec: int, nsec: int)

  const NANOS := 1_000_000_000

  function Nanoseconds(t: Timespec): int {
    t.sec * NANOS + t.nsec
  }

  predicate Normal(t: Timespec) {
    0 <= t.nsec < NANOS
  }

  method AdvanceDeadline(deadline: Timespec, intervalMs: nat) returns (next: Timespec)
    requires Normal(deadline)
    ensures Normal(next) && Nanoseconds(next) == Nanoseconds(deadline) + intervalMs * 1_000_000
  {
    var nsec := deadline.nsec + intervalMs % 1000 * 1_000_000;
    var sec := deadline.sec + intervalMs / 1000 + nsec / NANOS;
    nsec := nsec % NANOS;
    next := Timespec(sec, nsec);
  }

  /** The deadlines of successive sweeps never drift: the k-th is k intervals after the start. */
  method Deadlines(start: Timespec, intervalMs: nat, sweeps: nat) returns (deadlines: seq<Timespec>)
    requires Normal(start)
    ensures |deadlines| == sweeps
    ensures forall k | 0 <= k < sweeps ::
              && Normal(deadlines[k])
              && Nanoseconds(deadlines[k]) == Nanoseconds(start) + (k + 1) * (intervalMs * 1_000_000)
  {
    deadlines := [];
    var deadline := start;
    for k := 0 to sweeps
      invariant Normal(deadline) && Nanoseconds(deadline) == Nanoseconds(start) + k * (intervalMs * 1_000_000)
      invariant |deadlines| == k
      invariant forall j | 0 <= j < k ::
          Normal(deadlines[j]) && Nanoseconds(deadlines[j]) == Nanoseconds(start) + (j + 1) * (intervalMs * 1_000_000)
    {
      deadline := AdvanceDeadline(deadline, intervalMs);
      deadlines := deadlines + [deadline];
    }
  }
}
