/** The per-iteration sample-building loop of `main`: for each index `i` it
    reads the three counters, runs the slow workload when `i % 6 == 0` and
    the fast one otherwise, reads the counters again, and stores the slow
    flag, the elapsed microseconds and the three counter deltas in
    `samples[i]`.

    The counter reads and the timer are scripted: iteration `i` sees the
    bracket `script[i]`, which holds the kernel's counts at each of the six
    `read` calls (three before the workload, three after), the byte count
    each of those calls returns, and the elapsed nanoseconds. */
module Sampling {
  import opened CppArith
  import opened PerfEvent
  import Workloads

  /** One row of the results: `Sample` in the harness. */
  datatype Sample = Sample(slow: bool, delta: int, inst: int, cpu: int, miss: int)

  /** Every `SlowPeriod`-th iteration, starting at 0, runs the slow workload. */
  const SlowPeriod: nat := 6
  /** Divisor applied to the instruction and task-clock deltas and to the elapsed nanoseconds. */
  const Scale: nat := 1000
  /** `sizeof(qint64)`: the byte count of a complete counter read. */
  const CounterBytes: int := 8
  /** Arguments of the slow and the fast workload, `factorial(1000)` and `factorial(3)`. */
  const SlowArg: nat := 1000
  const FastArg: nat := 3

  /** What iteration `i` observes: the instants at which each of the three
      pre-reads and each of the three post-reads is taken, the return values
      of those six reads, and the elapsed time. */
  datatype Bracket = Bracket(
    before: PerCounter<Snapshot>, preReads: PerCounter<int>,
    after: PerCounter<Snapshot>, postReads: PerCounter<int>,
    elapsedNs: int)

  /** Iteration `i` runs the slow workload. */
  predicate IsSlow(i: nat)
  {
    i % SlowPeriod == 0
  }

  /** The sample iteration `i` stores, for counters bound to `fds`. */
  function MakeSample(i: nat, fds: PerCounter<EventAttr>, b: Bracket): Sample
  {
    var v0 := ReadAll(fds, b.before);
    var v1 := ReadAll(fds, b.after);
    Sample(IsSlow(i),
           TruncDiv(b.elapsedNs, Scale),
           TruncDiv(v1.inst - v0.inst, Scale),
           TruncDiv(v1.cpu - v0.cpu, Scale),
           v1.miss - v0.miss)
  }

  /** The scaled fields truncate toward zero; the miss field is the raw delta. */
  lemma SampleScaling(i: nat, fds: PerCounter<EventAttr>, b: Bracket)
    ensures var s, d := MakeSample(i, fds, b), b.after.inst(fds.inst) - b.before.inst(fds.inst);
      (d >= 0 ==> 0 <= s.inst * Scale <= d < s.inst * Scale + Scale) &&
      (d < 0 ==> s.inst * Scale - Scale < d <= s.inst * Scale <= 0)
    ensures var s, d := MakeSample(i, fds, b), b.after.cpu(fds.cpu) - b.before.cpu(fds.cpu);
      (d >= 0 ==> 0 <= s.cpu * Scale <= d < s.cpu * Scale + Scale) &&
      (d < 0 ==> s.cpu * Scale - Scale < d <= s.cpu * Scale <= 0)
    ensures MakeSample(i, fds, b).miss == b.after.miss(fds.miss) - b.before.miss(fds.miss)
    ensures var s, t := MakeSample(i, fds, b), b.elapsedNs;
      (t >= 0 ==> 0 <= s.delta * Scale <= t < s.delta * Scale + Scale) &&
      (t < 0 ==> s.delta * Scale - Scale < t <= s.delta * Scale <= 0)
    ensures MakeSample(i, fds, b).slow <==> i % SlowPeriod == 0
  {
  }

  /** With non-decreasing counters and a non-negative elapsed time every field
      is non-negative, and each scaled field is at most its raw delta. */
  lemma SampleNonNegative(i: nat, fds: PerCounter<EventAttr>, b: Bracket)
    requires b.before.inst(fds.inst) <= b.after.inst(fds.inst)
    requires b.before.cpu(fds.cpu) <= b.after.cpu(fds.cpu)
    requires b.before.miss(fds.miss) <= b.after.miss(fds.miss)
    requires b.elapsedNs >= 0
    ensures var s := MakeSample(i, fds, b);
      && 0 <= s.inst <= b.after.inst(fds.inst) - b.before.inst(fds.inst)
      && 0 <= s.cpu <= b.after.cpu(fds.cpu) - b.before.cpu(fds.cpu)
      && 0 <= s.miss
      && 0 <= s.delta <= b.elapsedNs
  {
  }

  /** A counter that went backwards is stored, not flagged: each scaled field
      whose raw value is negative lies between that value and zero, and a
      negative miss delta is stored as it is. */
  lemma SampleKeepsNegativeDelta(i: nat, fds: PerCounter<EventAttr>, b: Bracket)
    ensures var s, d := MakeSample(i, fds, b), b.after.inst(fds.inst) - b.before.inst(fds.inst);
      d < 0 ==> d <= s.inst <= 0
    ensures var s, d := MakeSample(i, fds, b), b.after.cpu(fds.cpu) - b.before.cpu(fds.cpu);
      d < 0 ==> d <= s.cpu <= 0
    ensures var s, d := MakeSample(i, fds, b), b.after.miss(fds.miss) - b.before.miss(fds.miss);
      d < 0 ==> s.miss == d
    ensures var s := MakeSample(i, fds, b);
      b.elapsedNs < 0 ==> b.elapsedNs <= s.delta <= 0
  {
  }

  /** Brackets whose three reads on each side are taken at one instant each. */
  function AtOnce(before: Snapshot, after: Snapshot, status: PerCounter<int>, elapsedNs: int): Bracket
  {
    Bracket(PerCounter(before, before, before), status, PerCounter(after, after, after), status, elapsedNs)
  }

  /** The worked example: instructions 100 -> 140, task clock 50 -> 70 and
      misses 10 -> 15 give `inst == 0`, `cpu == 0` (truncated) and `miss == 5`. */
  lemma SampleExample(fds: PerCounter<EventAttr>)
    requires fds == Opened()
    ensures var before := (e: EventAttr) => if e == InstAttr then 100 else if e == CpuAttr then 50 else 10;
      var after := (e: EventAttr) => if e == InstAttr then 140 else if e == CpuAttr then 70 else 15;
      MakeSample(12, fds, AtOnce(before, after, PerCounter(8, 8, 8), 4000)) == Sample(true, 4, 0, 0, 5)
  {
  }

  /** As written, the `miss` field is a task-clock delta: `fd_miss` is bound
      to `attr_cpu`, so the L1 data-cache read misses are never counted. The
      two task-clock counters are read by separate calls; when they advance
      by the same amount across the workload, `cpu` is exactly the `miss`
      value scaled by 1000. */
  lemma MissAsWrittenIsTaskClock(i: nat, b: Bracket)
    ensures MakeSample(i, OpenedAsWritten(), b).miss == b.after.miss(CpuAttr) - b.before.miss(CpuAttr)
    ensures b.after.cpu(CpuAttr) - b.before.cpu(CpuAttr) == b.after.miss(CpuAttr) - b.before.miss(CpuAttr) ==>
      MakeSample(i, OpenedAsWritten(), b).cpu == TruncDiv(MakeSample(i, OpenedAsWritten(), b).miss, Scale)
  {
  }

  /** The task clock moves between the `fd_cpu` and the `fd_miss` read: 0 and
      700 before the workload, 40000 and 40300 after it. As written the
      sample holds `cpu == 40` and `miss == 39600`, whose scaled value is 39. */
  lemma MissAsWrittenDrift()
    ensures var b := Bracket(
        PerCounter((e: EventAttr) => 0, (e: EventAttr) => 0, (e: EventAttr) => 700), PerCounter(8, 8, 8),
        PerCounter((e: EventAttr) => 40000, (e: EventAttr) => 40000, (e: EventAttr) => 40300), PerCounter(8, 8, 8),
        0);
      var s := MakeSample(1, OpenedAsWritten(), b);
      s.cpu == 40 && s.miss == 39600 && TruncDiv(s.miss, Scale) == 39
  {
  }

  /** `fd_cpu`, opened first, reads 300 more than `fd_miss` throughout: 1300
      and 1000 before the workload, 41300 and 41000 after it. The offset
      cancels in the deltas, and `cpu` is the scaled `miss`. */
  lemma MissAsWrittenOffset()
    ensures var b := Bracket(
        PerCounter((e: EventAttr) => 0, (e: EventAttr) => 1300, (e: EventAttr) => 1000), PerCounter(8, 8, 8),
        PerCounter((e: EventAttr) => 0, (e: EventAttr) => 41300, (e: EventAttr) => 41000), PerCounter(8, 8, 8),
        0);
      var s := MakeSample(1, OpenedAsWritten(), b);
      s.cpu == 40 && s.miss == 40000 && s.cpu == TruncDiv(s.miss, Scale)
  {
  }

  /** A bracket in which 5 cache misses and 40000 ns of task clock occur: the
      counters as written report 40000 misses, the corrected ones report 5. */
  lemma MissAsWrittenExample()
    ensures var before := (e: EventAttr) => if e == MissAttr then 10 else 50;
      var after := (e: EventAttr) => if e == MissAttr then 15 else 40050;
      var b := AtOnce(before, after, PerCounter(8, 8, 8), 0);
      MakeSample(1, OpenedAsWritten(), b).miss == 40000 && MakeSample(1, Opened(), b).miss == 5
  {
  }

  /** With the counters bound as intended, `miss` is the delta of the level-1
      data-cache read-miss event and `cpu` the scaled task-clock delta. */
  lemma MissCountsCacheMisses(i: nat, b: Bracket)
    ensures MakeSample(i, Opened(), b).miss == b.after.miss(MissAttr) - b.before.miss(MissAttr)
    ensures MakeSample(i, Opened(), b).inst == TruncDiv(b.after.inst(InstAttr) - b.before.inst(InstAttr), Scale)
    ensures MakeSample(i, Opened(), b).cpu == TruncDiv(b.after.cpu(CpuAttr) - b.before.cpu(CpuAttr), Scale)
  {
  }

  /** Every read of the bracket returned a whole counter value. */
  predicate FullRead(r: PerCounter<int>)
  {
    r.inst == CounterBytes && r.cpu == CounterBytes && r.miss == CounterBytes
  }

  /** The check the iteration needs: all six reads of the bracket succeeded. */
  predicate BracketRead(b: Bracket)
  {
    FullRead(b.preReads) && FullRead(b.postReads)
  }

  /** The check the harness performs, as written: `ret` is or-ed with the first
      two pre-reads and then overwritten by the third, so `assert(ret > 0)`
      tests the `fd_miss` pre-read only, and the post-reads are never tested. */
  predicate PreReadAssertAsWritten(b: Bracket)
  {
    b.preReads.miss > 0
  }

  /** As written, the assertion lets a failed instruction read (and any failed
      post-read) through; the corrected check rejects it and implies the written one. */
  lemma PreReadAssertMissesFailures(before: PerCounter<Snapshot>, after: PerCounter<Snapshot>)
    ensures var failed := Bracket(before, PerCounter(-1, 8, 8), after, PerCounter(-1, -1, -1), 0);
      PreReadAssertAsWritten(failed) && !BracketRead(failed)
    ensures forall b :: BracketRead(b) ==> PreReadAssertAsWritten(b)
  {
  }

  /** Runs the sampling loop over the pre-sized `samples` with the counters
      bound to `fds`. Iteration `i` overwrites `samples[i]` and nothing else.
      A bracket whose reads fail aborts the run: `completed` is the number
      of iterations that finished, and later entries keep their old values. */
  method CollectSamples(samples: array<Sample>, fds: PerCounter<EventAttr>, script: seq<Bracket>)
    returns (completed: nat)
    requires |script| == samples.Length
    modifies samples
    ensures completed <= samples.Length
    ensures forall j :: 0 <= j < completed ==> BracketRead(script[j])
    ensures completed < samples.Length ==> !BracketRead(script[completed])
    ensures forall j :: 0 <= j < completed ==> samples[j] == MakeSample(j, fds, script[j])
    ensures forall j :: completed <= j < samples.Length ==> samples[j] == old(samples[j])
  {
    var n := samples.Length;
    var i := 0;
    while i < n
      invariant 0 <= i <= n
      invariant forall j :: 0 <= j < i ==> BracketRead(script[j])
      invariant forall j :: 0 <= j < i ==> samples[j] == MakeSample(j, fds, script[j])
      invariant forall j :: i <= j < n ==> samples[j] == old(samples[j])
    {
      var b := script[i];
      var v0 := ReadAll(fds, b.before);
      if !FullRead(b.preReads) {
        return i;
      }
      var slow := i % SlowPeriod == 0;
      var _ := Workloads.Factorial(if slow then SlowArg else FastArg);
      var v1 := ReadAll(fds, b.after);
      if !FullRead(b.postReads) {
        return i;
      }
      var delta := TruncDiv(b.elapsedNs, Scale);
      samples[i] := Sample(slow, delta,
                           TruncDiv(v1.inst - v0.inst, Scale),
                           TruncDiv(v1.cpu - v0.cpu, Scale),
                           v1.miss - v0.miss);
      i := i + 1;
    }
    return n;
  }

  /** The samples a run over `script` produces when every bracket reads cleanly. */
  function ExpectedSamples(fds: PerCounter<EventAttr>, script: seq<Bracket>): seq<Sample>
  {
    seq(|script|, j requires 0 <= j < |script| => MakeSample(j, fds, script[j]))
  }

  /** Number of samples taken on the slow workload. */
  function SlowCount(s: seq<Sample>): nat
  {
    if s == [] then 0 else SlowCount(s[..|s| - 1]) + (if s[|s| - 1].slow then 1 else 0)
  }

  /** A sequence whose slow flags follow the period has exactly `ceil(n / 6)`
      slow entries; for the harness's 50 iterations that is 9 (indices 0, 6, ..., 48). */
  lemma {:induction false} SlowCountPeriodic(s: seq<Sample>)
    requires forall j :: 0 <= j < |s| ==> (s[j].slow <==> IsSlow(j))
    ensures SlowCount(s) == (|s| + SlowPeriod - 1) / SlowPeriod
  {
    if s != [] {
      var n := |s| - 1;
      SlowCountPeriodic(s[..n]);
      assert IsSlow(n) <==> n % 6 == 0;
    }
  }
}
