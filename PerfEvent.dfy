/** The performance-counter side of the harness: the event descriptors that
    `main` fills in (the `type` and `config` fields of `perf_event_attr`),
    the `PERF_TYPE_HW_CACHE` config packing of the Linux `perf_event_open(2)`
    interface, which descriptor each of the three file descriptors is bound
    to, and what a read of such a descriptor yields.

    The kernel itself is not modelled: a `Snapshot` gives, for every event,
    the value a read of a counter bound to that event returns. Each read of
    an iteration has its own snapshot, so two counters bound to one event
    (each counting from its own opening) may return different values. */
module PerfEvent {

  /** The `type` field of `perf_event_attr` (PERF_TYPE_HARDWARE, PERF_TYPE_SOFTWARE, PERF_TYPE_HW_CACHE). */
  datatype EventType = Hardware | Software | HwCache

  /** The part of `perf_event_attr` that `main` sets besides `size`: every other field is zeroed by `memset`. */
  datatype EventAttr = EventAttr(kind: EventType, config: bv64)

  /** PERF_COUNT_HW_INSTRUCTIONS */
  const HwInstructions: bv64 := 1
  /** PERF_COUNT_SW_TASK_CLOCK */
  const SwTaskClock: bv64 := 1
  /** PERF_COUNT_HW_CACHE_L1D */
  const CacheL1d: bv64 := 0
  /** PERF_COUNT_HW_CACHE_OP_READ */
  const CacheOpRead: bv64 := 0
  /** PERF_COUNT_HW_CACHE_RESULT_MISS */
  const CacheResultMiss: bv64 := 1

  /** The `config` of a cache event: cache id in bits 0-7, operation id in
      bits 8-15, result id in bits 16-23. */
  function CacheConfig(cache: bv64, op: bv64, result: bv64): bv64
  {
    cache | (op << 8) | (result << 16)
  }

  /** Splits a cache-event `config` back into its (cache, operation, result) ids. */
  function CacheIds(config: bv64): (ids: (bv64, bv64, bv64))
    ensures ids.0 < 256 && ids.1 < 256 && ids.2 < 256
  {
    (config & 0xFF, (config >> 8) & 0xFF, (config >> 16) & 0xFF)
  }

  /** Packing ids that each fit in a byte loses nothing: masking and shifting
      gives the triple back, nothing lands above bit 23, and the packing is
      the same as the positional sum `cache + 256 * op + 65536 * result`. */
  lemma CacheConfigRoundTrip(cache: bv64, op: bv64, result: bv64)
    requires cache < 256 && op < 256 && result < 256
    ensures CacheIds(CacheConfig(cache, op, result)) == (cache, op, result)
    ensures CacheConfig(cache, op, result) >> 24 == 0
    ensures CacheConfig(cache, op, result) == cache + 256 * op + 65536 * result
  {
  }

  /** Two cache events with byte-sized ids share a config only if they are the same event. */
  lemma CacheConfigInjective(c1: bv64, o1: bv64, r1: bv64, c2: bv64, o2: bv64, r2: bv64)
    requires c1 < 256 && o1 < 256 && r1 < 256
    requires c2 < 256 && o2 < 256 && r2 < 256
    requires CacheConfig(c1, o1, r1) == CacheConfig(c2, o2, r2)
    ensures c1 == c2 && o1 == o2 && r1 == r2
  {
  }

  /** `attr_inst`: retired instructions. */
  const InstAttr := EventAttr(Hardware, HwInstructions)
  /** `attr_cpu`: the task clock. */
  const CpuAttr := EventAttr(Software, SwTaskClock)
  /** `attr_miss`: level-1 data-cache read misses. */
  const MissAttr := EventAttr(HwCache, CacheConfig(CacheL1d, CacheOpRead, CacheResultMiss))

  /** The three descriptors `main` builds are pairwise different events, and
      the cache-miss config is 0x10000 (L1D = 0, READ = 0, MISS = 1). */
  lemma DescriptorsDistinct()
    ensures MissAttr.config == 0x1_0000
    ensures InstAttr != CpuAttr && InstAttr != MissAttr && CpuAttr != MissAttr
  {
  }

  /** One value per counter slot of the harness, in the order `inst`, `cpu`, `miss`. */
  datatype PerCounter<T> = PerCounter(inst: T, cpu: T, miss: T)

  /** The descriptors `fd_inst`, `fd_cpu`, `fd_miss` are opened with, as the code is written:
      `fd_miss` is opened from `attr_cpu`, so it counts the task clock a second time. */
  function OpenedAsWritten(): (fds: PerCounter<EventAttr>)
    ensures fds.miss == fds.cpu && fds.miss != MissAttr
  {
    PerCounter(InstAttr, CpuAttr, CpuAttr)
  }

  /** The descriptors the three counters are meant to be opened with: each slot its own event. */
  function Opened(): (fds: PerCounter<EventAttr>)
    ensures fds.inst != fds.cpu && fds.inst != fds.miss && fds.cpu != fds.miss
    ensures fds.miss.kind == HwCache && CacheIds(fds.miss.config) == (CacheL1d, CacheOpRead, CacheResultMiss)
  {
    CacheConfigRoundTrip(CacheL1d, CacheOpRead, CacheResultMiss);
    PerCounter(InstAttr, CpuAttr, MissAttr)
  }

  /** For every event, the value one read of a counter bound to it returns. */
  type Snapshot = EventAttr -> int

  /** What `read(fd_inst)`, `read(fd_cpu)` and `read(fd_miss)` store. The
      three reads are separate calls with separate values: slot `k` returns
      what the snapshot `at.k` gives for the event its descriptor is bound to. */
  function ReadAll(fds: PerCounter<EventAttr>, at: PerCounter<Snapshot>): PerCounter<int>
  {
    PerCounter(at.inst(fds.inst), at.cpu(fds.cpu), at.miss(fds.miss))
  }
}
