# trouble: a verified model of the perf-counter micro-benchmark harness

The harness (`main.cpp`) builds three Linux performance-counter descriptors
for its own thread: retired instructions, task clock, and level-1 data-cache
read misses. It opens three counters, but opens `fd_miss` from `attr_cpu`,
so as written the third counter is a second task clock (see Findings).
It then runs 50 iterations. Iteration `i` reads the counters, runs a slow
workload (`factorial(1000)`) when `i % 6 == 0` and a fast one
(`factorial(3)`) otherwise, and reads the counters again. It stores one
`Sample` per iteration:

- `slow`: which workload ran;
- `delta`: elapsed nanoseconds / 1000;
- `inst`: instruction delta / 1000;
- `cpu`: task-clock delta / 1000;
- `miss`: the raw delta of the third counter, unscaled (as written, a task-clock delta).

`Writer::write` writes the samples as comma-separated lines.

This project models that in Dafny:

- `CppArith`: C++ signed `/` and `%`, which truncate toward zero. Dafny's
  own operators are Euclidean.
- `PerfEvent`: the event descriptors; the `PERF_TYPE_HW_CACHE` config
  packing (cache id in bits 0-7, operation in bits 8-15, result in bits
  16-23, as in the Linux `perf_event_open(2)` manual page); which descriptor
  each of `fd_inst`, `fd_cpu`, `fd_miss` is opened with; and what reading
  them yields. The kernel is a `Snapshot`: for every event, the value one
  read of a counter bound to it returns. Each of the six `read` calls of an
  iteration has its own snapshot, so two counters bound to one event may
  return different values, as counters opened at different times do.
- `Workloads`: `factorial` and the buffer scan `read_data`.
- `Sampling`: the `Sample` record and the per-iteration loop. It runs in
  place over an `array<Sample>`. Each iteration's counter reads, read
  return values and elapsed time are a scripted `Bracket`.
- `Writer`: the text `Writer::write` streams, a parser for it, and the
  round trip between them.
- `Wrappers`: the `Option` result of the parser and of the harness run.
- `Harness`: `main` with `n = 50`, from allocating the vector to writing
  the text.

The C++ `/` on `qint64` truncates toward zero. So a negative counter delta
gives a scaled field between the delta and 0. The code stores such a value
like any other: nothing flags it as an anomaly (`Sampling.SampleKeepsNegativeDelta`).

## Model

| member | source | states |
|---|---|---|
| `CppArith.TruncDiv` | main.cpp:272-273 | `a / d` for `d > 0` is the quotient truncated toward zero: `0 <= q*d <= a < q*d + d` for `a >= 0`, `q*d - d < a <= q*d <= 0` for `a < 0` |
| `CppArith.TruncDivUnique` | main.cpp:272-273 | those truncation bounds determine the quotient: any `q` meeting them is `TruncDiv(a, d)` |
| `CppArith.TruncDivNegate` | main.cpp:272-273 | truncating division is odd: `TruncDiv(-a, d) == -TruncDiv(a, d)` |
| `CppArith.TruncDivBelowDividend` | main.cpp:272-273 | for `a >= 0` the scaled value lies in `[0, a]` |
| `CppArith.TruncDivExamples` | main.cpp:268-273 | `40 / 1000 == 0`; `-1500 / 1000 == -1`, where Euclidean division gives -2; `-7 % 5 == -2`, where Euclidean gives 3 |
| `CppArith.TruncRem` | main.cpp:46 | C++ `a % m` has the sign of `a`, magnitude below `m`, and `a == m * (a / m) + a % m` |
| `CppArith.TruncRemIsIndex` | main.cpp:46 | `a % m` is an index in `[0, m)` if and only if `a >= 0` or `a` is a multiple of `m` |
| `PerfEvent.CacheConfig` | main.cpp:217 | no contract of its own: the packing `cache OR op << 8 OR result << 16`; `PerfEvent.CacheConfigRoundTrip` and `PerfEvent.CacheConfigInjective` state what it preserves |
| `PerfEvent.CacheIds` | main.cpp:217 | unpacking a cache config yields three byte-sized ids |
| `PerfEvent.CacheConfigRoundTrip` | main.cpp:217 | for ids < 256, shifting and masking the packed config (cache OR op << 8 OR result << 16) recovers `(cache, op, result)`; nothing is set above bit 23; the packing equals `cache + 256*op + 65536*result` |
| `PerfEvent.CacheConfigInjective` | main.cpp:217 | two byte-sized id triples with the same config are the same triple |
| `PerfEvent.DescriptorsDistinct` | main.cpp:204-217 | `attr_inst`, `attr_cpu` and `attr_miss` are pairwise different events; the L1D/READ/MISS config is `0x10000` |
| `PerfEvent.OpenedAsWritten` | main.cpp:220-222 | as written, `fd_miss` gets the same descriptor as `fd_cpu`, not `attr_miss` |
| `PerfEvent.Opened` | main.cpp:202-222 | as intended, the three counters are three different events, and `fd_miss` is the HW-cache event with ids (L1D, READ, MISS) |
| `PerfEvent.ReadAll` | main.cpp:248-266 | no contract of its own: models the pre-reads (248-250) and the post-reads (264-266); each slot returns its own snapshot's value for the event its descriptor is bound to; `Sampling.MissAsWrittenIsTaskClock` and `Sampling.MissCountsCacheMisses` state what that gives per binding |
| `Workloads.Factorial` | main.cpp:49-52 | `factorial(n)` is at least 1 and at least `n` |
| `Workloads.FactorialDivisible` | main.cpp:49-52 | every `k` in `1..n` divides `factorial(n)` |
| `Workloads.FactorialMonotone` | main.cpp:49-52 | `m <= n` implies `factorial(m) <= factorial(n)` |
| `Workloads.FactorialIntRange` | main.cpp:49-52 | `factorial(n)` fits a 32-bit `int` exactly for `n <= 12`, so `factorial(1000)` at line 256 overflows |
| `Workloads.ScanIndex` | main.cpp:44-46 | the index `idx[i % size] % v.size()` lies in `[0, v.size())` when both buffers are non-empty and no index entry gives a negative remainder |
| `Workloads.ScanIndexNeedsNonNegative` | main.cpp:46 | a negative index entry that is not a multiple of `v.size()` makes the computed index negative |
| `Workloads.ReadData` | main.cpp:40-48 | the scan visits `1 << 20` indices, step `i` the index `idx[i % size] % v.size()`, each in `[0, v.size())`; neither buffer is modified; `b` ends as the element the last step reads |
| `Sampling.IsSlow` | main.cpp:253 | no contract of its own: `i % 6 == 0`; `Sampling.SlowCountPeriodic` states how many slow iterations a run has |
| `Sampling.MakeSample` | main.cpp:248-274 | no contract of its own: the sample one iteration stores; `Sampling.SampleScaling`, `Sampling.SampleNonNegative` and `Sampling.SampleKeepsNegativeDelta` state its fields |
| `Sampling.SampleScaling` | main.cpp:253-274 | `inst`, `cpu` and `delta` are their raw value divided by 1000, truncated toward zero; `miss` is the unscaled delta; `slow` holds exactly when `i % 6 == 0` |
| `Sampling.SampleNonNegative` | main.cpp:268-274 | with non-decreasing counters and non-negative elapsed time, all fields are >= 0; each scaled field is at most its raw delta |
| `Sampling.SampleKeepsNegativeDelta` | main.cpp:268-274 | a negative raw value is stored, not flagged: each of `inst`, `cpu` and `delta` then lies between that value and 0, and `miss` equals its negative delta |
| `Sampling.SampleExample` | main.cpp:270-274 | counts 100->140, 50->70, 10->15 and 4000 ns at iteration 12 give `Sample(slow, 4, 0, 0, 5)` |
| `Sampling.MissAsWrittenIsTaskClock` | main.cpp:222 | as written, `miss` is the raw task-clock delta between the two `fd_miss` reads; when the `fd_cpu` counter advances by the same amount, `cpu` is that value divided by 1000 |
| `Sampling.MissAsWrittenDrift` | main.cpp:248-274 | the `fd_cpu` and `fd_miss` reads are separate calls: task-clock readings 0, 700 before and 40000, 40300 after give `cpu == 40` and `miss == 39600`, whose scaled value is 39 |
| `Sampling.MissAsWrittenOffset` | main.cpp:221-274 | `fd_cpu`, opened before `fd_miss`, reading a constant 300 more (1300/1000 before, 41300/41000 after) gives `cpu == 40` and `miss == 40000`: the offset cancels in the deltas |
| `Sampling.MissAsWrittenExample` | main.cpp:222 | with 5 cache misses and 40000 ns of task clock, the as-written counters report `miss == 40000`; the intended ones report 5 |
| `Sampling.MissCountsCacheMisses` | main.cpp:214-222 | with the intended counters, `miss` is the L1D read-miss delta; `inst` and `cpu` are the scaled instruction and task-clock deltas |
| `Sampling.PreReadAssertAsWritten` | main.cpp:248-251 | no contract of its own: the check as written, `ret` holding only the `fd_miss` pre-read's result; `Sampling.PreReadAssertMissesFailures` states what it lets through |
| `Sampling.BracketRead` | main.cpp:248-266 | no contract of its own: the corrected check, all six reads returning 8 bytes; `Sampling.CollectSamples` and `Harness.Run` stop on it |
| `Sampling.PreReadAssertMissesFailures` | main.cpp:248-251 | the `assert(ret > 0)` as written accepts a bracket whose instruction read and all post-reads failed; the all-reads check rejects it, and the all-reads check implies the written one |
| `Sampling.CollectSamples` | main.cpp:239-276 | iteration `i` writes `samples[i]` and only it; a finished run fills every entry with its bracket's sample in iteration order; the run stops at the first bracket whose reads fail, and the entries from there on keep their old values |
| `Sampling.ExpectedSamples` | main.cpp:239-276 | no contract of its own: the reference sequence of samples a clean run produces, entry `j` being `MakeSample(j, ...)`; `Sampling.CollectSamples` and `Harness.Run` are stated against it |
| `Sampling.SlowCountPeriodic` | main.cpp:224-253 | when slow flags follow `i % 6 == 0`, `n` samples contain `ceil(n / 6)` slow ones: 9 for `n = 50` (indices 0, 6, ..., 48) |
| `Writer.BoolToText` | main.cpp:188 | no contract of its own: `QTextStream` prints a `bool` as `1` or `0`; `Writer.LineRoundTrip` shows it reads back |
| `Writer.IntToText` | main.cpp:188 | no contract of its own: a `qint64` in decimal with `-` for negatives; `Writer.IntRoundTrip` states that it reads back |
| `Writer.Fields` | main.cpp:188 | no contract of its own: the five printed fields in file order; `Writer.LineSpelledOut` spells them out |
| `Writer.Line` | main.cpp:188 | no contract of its own: one sample's line; `Writer.LineSpelledOut` and `Writer.LineRoundTrip` state its text and that it parses back |
| `Writer.Text` | main.cpp:187-189 | no contract of its own: the lines of all samples in order; `Writer.TextRoundTrip` and `Writer.OneLinePerSample` state that it parses back and has one line per sample |
| `Writer.NatRoundTrip` | main.cpp:188 | reading back the decimal digits of a natural number gives that number |
| `Writer.IntRoundTrip` | main.cpp:188 | parsing how `QTextStream` prints a `qint64` (with `-` for negatives) gives back the value |
| `Writer.SplitJoin` | main.cpp:188 | splitting fields joined by `,` on `,` returns exactly those fields when none contains a `,` |
| `Writer.LineSpelledOut` | main.cpp:188 | a sample's line is `slow` (0/1), `delta`, `inst`, `cpu`, `miss`, separated by `,`, ended by `\n` |
| `Writer.LineRoundTrip` | main.cpp:188 | a line without its newline has no newline inside, and splitting it on `,` parses back to exactly the sample's five values |
| `Writer.TextRoundTrip` | main.cpp:187-189 | parsing the written text gives back exactly the samples, in vector order |
| `Writer.OneLinePerSample` | main.cpp:187-189 | the text has exactly one newline per sample |
| `Writer.Write` | main.cpp:183-192 | `Writer::write` streams one line per sample, in order; the text parses back to the samples and has one line per sample |
| `Harness.Run` | main.cpp:224-286 | with `n = 50` and the intended counters, the run writes text exactly when every bracket's reads succeed; that text parses back to the 50 samples of the script, has 50 lines, and holds 9 slow samples |

## Findings

| source | as written | input that shows it | evidently intended | confidence | as-written member | corrected member |
|---|---|---|---|---|---|---|
| main.cpp:222 | `fd_miss` is opened from `attr_cpu`, so the `miss` column repeats the task clock, unscaled; `attr_miss` is built but never used | a bracket in which the task clock advances by 40000 and the L1D read misses by 5: `miss` is 40000 | `fd_miss` opened from `attr_miss`, so `miss` counts L1D read misses | high (not executed) | `Sampling.MissAsWrittenExample` | `Sampling.MissCountsCacheMisses` |
| main.cpp:248-251 | `ret = read(...)` at line 250 overwrites the or-ed results of the first two pre-reads, so `assert(ret > 0)` checks only the `fd_miss` pre-read; the three post-reads (264-266) are never checked | the `fd_inst` pre-read returns -1, every other read returns 8: the assertion passes, and the sample is built from an unread value | every read checked to return a whole `qint64` (8 bytes) before the sample is stored | high (not executed) | `Sampling.PreReadAssertMissesFailures` | `Sampling.CollectSamples` |

The rest of the model uses the corrected forms. `Harness.Run` opens the
counters with `PerfEvent.Opened`. `Sampling.CollectSamples` stops at a
bracket unless all six reads returned 8 bytes.

## Left out

- The `perf_event_open` and `gettid` syscall wrappers and the `read()` calls (main.cpp:18-28, 220-222, 248-250, 264-266) are OS I/O. Counter values and read return values are scripted in each `Bracket`.
- A failed `perf_event_open` is not modelled. The code never checks the returned descriptor. A failed open shows up only as failing reads, which the scripted read return values cover.
- `QElapsedTimer` (main.cpp:241, 268) is wall-clock time; the elapsed nanoseconds are an input.
- `QFile` open and close (main.cpp:184-185, 190) are left out. If the file cannot be opened, the code silently writes nothing; that path is not modelled. `Writer.Write` returns the text the stream receives.
- The `qDebug` dumps (main.cpp:173-176, 279-282) are informational console output.
- The index buffers and `std::random_shuffle` (main.cpp:227-236) are left out. The shuffle is nondeterministic, and the active workload never uses the buffers.
- `tracepoint` (main.cpp:288) calls into `tp.h`, which is not part of this model.
- The `AbstractWorkload` hierarchy (main.cpp:57-163) is never instantiated. Its copies of `factorial` and `read_data` are the same code as `Tests::factorial` and `Tests::read_data`, which are modelled.
- `Tests::do_compute` (main.cpp:33-38) is left out: its only call (main.cpp:263) is commented out.
- `volatile` and the cost of the workloads are left out: only values are modelled, not timing.
- `Workloads.Factorial`: computed over mathematical integers. The C++ `int` overflow in `factorial(1000)` is undefined behaviour, and its result is discarded; `Workloads.FactorialIntRange` shows where overflow starts. A negative argument, which recurses without end in C++, is excluded by the `nat` parameter; the harness passes only 3, 10 and 1000.
- `Workloads.ReadData`: requires a non-negative remainder for every index entry, including entries past `1 << 20` that the scan never reaches, so it is slightly stronger than the code needs. The indices read are recorded in the ghost `visited`. Of the volatile `b`, only the last value is kept.
- `qint64` width is not modelled: deltas and quotients are unbounded integers. Counter values in `[0, 2^63)` cannot overflow the subtraction.
- Each iteration assigns the whole `Sample` at once. The code assigns the five fields in turn; no one observes the difference.
- The failing check is modelled as stopping the run with nothing written, as a failing `assert` aborts the process. In a build with `NDEBUG` the code has no check at all.
- Negative deltas: the code stores them unflagged, and the model follows the code. No anomaly marker exists in the source.
