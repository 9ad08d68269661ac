/** `main`: builds the three event descriptors, binds the counters, fills a
    vector of `n = 50` samples with the sampling loop and hands the vector
    to the writer. With the corrected read check an iteration whose reads
    fail stops the run before anything is written, as a failing `assert`
    stops the process. */
module Harness {
  import opened PerfEvent
  import opened Sampling
  import opened Wrappers
  import Writer

  /** `n`: the number of iterations, and of samples. */
  const N: nat := 50

  /** A default-constructed `Sample`: `QVector<Sample>(n)` value-initialises every entry. */
  const Blank := Sample(false, 0, 0, 0, 0)

  /** Runs the harness on the scripted brackets and returns the text written
      to the results file, or `None` when a bracket's reads failed. A full run
      writes 50 lines that read back as the samples of the script, 9 of them
      taken on the slow workload. */
  method Run(script: seq<Bracket>) returns (csv: Option<string>)
    requires |script| == N
    ensures csv.Some? <==> forall j :: 0 <= j < N ==> BracketRead(script[j])
    ensures csv.Some? ==> Writer.Parse(csv.value) == Some(ExpectedSamples(Opened(), script))
    ensures csv.Some? ==> Writer.CountChar(csv.value, '\n') == N
    ensures csv.Some? ==> SlowCount(ExpectedSamples(Opened(), script)) == 9
  {
    var fds := Opened();
    var samples := new Sample[N](_ => Blank);
    var completed := CollectSamples(samples, fds, script);
    if completed < N {
      return None;
    }
    assert samples[..] == ExpectedSamples(fds, script);
    SlowCountPeriodic(samples[..]);
    var text := Writer.Write(samples[..]);
    return Some(text);
  }
}
