/** The benchmark's settings as the measured part of the program uses them,
    and the role a process plays after the fork. */
module Settings {
  /** The process that called fork, or the one fork created. */
  datatype Role = Parent | Child

  function Other(r: Role): (o: Role)
    ensures o != r
  {
    if r == Parent then Child else Parent
  }

  /** struct settings, restricted to the fields the timed run reads. */
  datatype Config = Config(
    cacheLineSize: nat,
    memoryTotal: nat,
    accessPerCacheLine: nat,
    yieldCount: nat,
    concurrent: bool)

  /** Bytes in a size_t word of a memory block. */
  const WordSize: nat := 8

  /** What the timed run demands: the line size is non-zero (the working
      set is divided by it) and the words touched per line fit in one line. */
  predicate ValidConfig(cfg: Config)
  {
    cfg.cacheLineSize >= 1 && cfg.accessPerCacheLine * WordSize <= cfg.cacheLineSize
  }

  /** cache_line_count: how many cache-line blocks make up the working set. */
  function LineCount(cfg: Config): nat
    requires ValidConfig(cfg)
  {
    cfg.memoryTotal / cfg.cacheLineSize
  }

  /** Words in one block of cache_line_size bytes. */
  function BlockWords(cfg: Config): (n: nat)
    requires ValidConfig(cfg)
    ensures cfg.accessPerCacheLine <= n
  {
    cfg.cacheLineSize / WordSize
  }

  /** Only the child of a sequential (non-concurrent) run postpones its work
      until after the midpoint. */
  predicate Postpones(cfg: Config, role: Role)
  {
    role == Child && !cfg.concurrent
  }
}
