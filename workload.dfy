/** The timed part of the benchmark: the working set of cache-line blocks,
    the yield_count increment passes around the midpoint clock reading, and
    the two durations measured. sched_yield and the midpoint reading appear
    as events of a ghost trace; clock readings are inputs. */
module Workload {
  import opened Settings
  import opened Timing

  /** One increment pass over the working set, one sched_yield, or the
      reading of time_middle. */
  datatype Event = Pass | Yield | Midpoint

  function Repeat(unit: seq<Event>, n: nat): (r: seq<Event>)
  {
    if n == 0 then [] else Repeat(unit, n - 1) + unit
  }

  /** The unit of the first loop: a pass and a yield, or a yield alone for a
      child that postpones its passes. */
  function FirstLoopUnit(postpone: bool): seq<Event>
  {
    if postpone then [Yield] else [Pass, Yield]
  }

  /** The events of a run of n rounds: every run but a sequential child does n
      passes each followed by a yield, then reads the midpoint; a sequential
      child yields n times, reads the midpoint, then does n passes. */
  function ExpectedTrace(postpone: bool, n: nat): seq<Event>
  {
    Repeat(FirstLoopUnit(postpone), n) + [Midpoint] + (if postpone then Repeat([Pass], n) else [])
  }

  function Count(t: seq<Event>, e: Event): nat
  {
    if t == [] then 0 else Count(t[..|t| - 1], e) + (if t[|t| - 1] == e then 1 else 0)
  }

  lemma {:induction false} CountAppend(a: seq<Event>, b: seq<Event>, e: Event)
    ensures Count(a + b, e) == Count(a, e) + Count(b, e)
    decreases |b|
  {
    if b == [] {
      assert a + b == a;
    } else {
      assert (a + b)[..|a + b| - 1] == a + b[..|b| - 1];
      CountAppend(a, b[..|b| - 1], e);
    }
  }

  lemma {:induction false} RepeatLength(unit: seq<Event>, n: nat)
    ensures |Repeat(unit, n)| == n * |unit|
  {
    if n > 0 {
      RepeatLength(unit, n - 1);
      assert (n - 1) * |unit| + |unit| == n * |unit|;
    }
  }

  lemma {:induction false} RepeatCount(unit: seq<Event>, n: nat, e: Event)
    ensures Count(Repeat(unit, n), e) == n * Count(unit, e)
  {
    if n > 0 {
      RepeatCount(unit, n - 1, e);
      CountAppend(Repeat(unit, n - 1), unit, e);
      assert (n - 1) * Count(unit, e) + Count(unit, e) == n * Count(unit, e);
    }
  }

  /** Where the midpoint falls in the trace and what happens on either side:
      it occurs once; before it a sequential child only yields, n times, and
      every other run does its n passes and n yields; after it a sequential
      child does its n passes without yielding and every other run does
      nothing. Either way the run makes n passes. */
  lemma TraceShape(postpone: bool, n: nat)
    ensures var t := ExpectedTrace(postpone, n);
            var m := if postpone then n else 2 * n;
            && m < |t| && t[m] == Midpoint && Count(t, Midpoint) == 1
            && Count(t[..m], Pass) == (if postpone then 0 else n)
            && Count(t[..m], Yield) == n
            && Count(t[m + 1..], Pass) == (if postpone then n else 0)
            && Count(t[m + 1..], Yield) == 0
            && Count(t, Pass) == n
  {
    var before := Repeat(FirstLoopUnit(postpone), n);
    var after: seq<Event> := if postpone then Repeat([Pass], n) else [];
    var m := if postpone then n else 2 * n;
    assert |before| == m by {
      RepeatLength(FirstLoopUnit(postpone), n);
    }
    assert ExpectedTrace(postpone, n) == before + [Midpoint] + after;
    SideCounts(postpone, n);
    Around(before, after, Pass);
    Around(before, after, Midpoint);
  }

  /** A trace split at a midpoint: its parts and its counts. */
  lemma Around(before: seq<Event>, after: seq<Event>, e: Event)
    ensures var t := before + [Midpoint] + after;
            && t[|before|] == Midpoint && t[..|before|] == before && t[|before| + 1..] == after
            && Count(t, e) == Count(before, e) + (if e == Midpoint then 1 else 0) + Count(after, e)
  {
    var t := before + [Midpoint] + after;
    assert t[..|before|] == before;
    assert t[|before| + 1..] == after;
    CountAppend(before, [Midpoint], e);
    CountAppend(before + [Midpoint], after, e);
    assert [Midpoint][..0] == [];
  }

  /** The counts before and after the midpoint. */
  lemma SideCounts(postpone: bool, n: nat)
    ensures var before := Repeat(FirstLoopUnit(postpone), n);
            && Count(before, Pass) == (if postpone then 0 else n)
            && Count(before, Yield) == n
            && Count(before, Midpoint) == 0
    ensures var after: seq<Event> := if postpone then Repeat([Pass], n) else [];
            && Count(after, Pass) == (if postpone then n else 0)
            && Count(after, Yield) == 0
            && Count(after, Midpoint) == 0
  {
    var unit := FirstLoopUnit(postpone);
    UnitCounts(postpone);
    RepeatCount(unit, n, Pass);
    RepeatCount(unit, n, Yield);
    RepeatCount(unit, n, Midpoint);
    if postpone {
      assert [Pass][..0] == [];
      RepeatCount([Pass], n, Pass);
      RepeatCount([Pass], n, Yield);
      RepeatCount([Pass], n, Midpoint);
    }
  }

  lemma UnitCounts(postpone: bool)
    ensures Count(FirstLoopUnit(postpone), Pass) == (if postpone then 0 else 1)
    ensures Count(FirstLoopUnit(postpone), Yield) == 1
    ensures Count(FirstLoopUnit(postpone), Midpoint) == 0
  {
    assert [Yield][..0] == [];
    assert [Pass, Yield][..1] == [Pass];
    assert [Pass][..0] == [];
  }

  /** No array appears twice: malloc returns a new block each time. */
  predicate Distinct(blocks: seq<array<int>>)
  {
    forall i, j :: 0 <= i < j < |blocks| ==> blocks[i] != blocks[j]
  }

  /** The allocation loop: cache_line_count new blocks of cache_line_size
      bytes each, with the words that will be accessed set to 0 (the rest of
      a block is left as malloc returned it). */
  method AllocateWorkingSet(cfg: Config) returns (blocks: seq<array<int>>)
    requires ValidConfig(cfg)
    ensures |blocks| == LineCount(cfg) && Distinct(blocks)
    ensures forall j :: 0 <= j < |blocks| ==> fresh(blocks[j])
    ensures forall j :: 0 <= j < |blocks| ==> blocks[j].Length == BlockWords(cfg) && cfg.accessPerCacheLine <= blocks[j].Length
    ensures forall j, k :: 0 <= j < |blocks| && 0 <= k < cfg.accessPerCacheLine ==> blocks[j][k] == 0
  {
    blocks := [];
    for i := 0 to LineCount(cfg)
      invariant |blocks| == i && Distinct(blocks)
      invariant forall j :: 0 <= j < |blocks| ==> fresh(blocks[j])
      invariant forall j :: 0 <= j < |blocks| ==> blocks[j].Length == BlockWords(cfg) && cfg.accessPerCacheLine <= blocks[j].Length
      invariant forall j, k :: 0 <= j < |blocks| && 0 <= k < cfg.accessPerCacheLine ==> blocks[j][k] == 0
    {
      var block := new int[BlockWords(cfg)];
      ZeroWords(block, cfg.accessPerCacheLine);
      blocks := blocks + [block];
    }
  }

  /** The words of a new block that the run will access, set to 0 so the
      block is mapped before the measurement. */
  method ZeroWords(block: array<int>, access: nat)
    requires access <= block.Length
    modifies block
    ensures forall k :: 0 <= k < block.Length ==> block[k] == (if k < access then 0 else old(block[k]))
  {
    for k := 0 to access
      invariant forall k' :: 0 <= k' < block.Length ==> block[k'] == (if k' < k then 0 else old(block[k']))
    {
      block[k] := 0;
    }
  }

  /** The innermost loop: the first `access` words of one block incremented. */
  method IncrementBlock(block: array<int>, access: nat)
    requires access <= block.Length
    modifies block
    ensures forall k :: 0 <= k < block.Length ==> block[k] == old(block[k]) + (if k < access then 1 else 0)
  {
    for k := 0 to access
      invariant forall k' :: 0 <= k' < block.Length ==> block[k'] == old(block[k']) + (if k' < k then 1 else 0)
    {
      block[k] := block[k] + 1;
    }
  }

  /** Every array of the working set. */
  function Footprint(blocks: seq<array<int>>): set<array<int>>
  {
    set j | 0 <= j < |blocks| :: blocks[j]
  }

  /** One increment pass: the first `access` words of every block incremented
      once, nothing else written. */
  method IncrementPass(blocks: seq<array<int>>, access: nat)
    requires Distinct(blocks)
    requires forall j :: 0 <= j < |blocks| ==> access <= blocks[j].Length
    modifies Footprint(blocks)
    ensures forall j, k :: 0 <= j < |blocks| && 0 <= k < blocks[j].Length ==>
              blocks[j][k] == old(blocks[j][k]) + (if k < access then 1 else 0)
  {
    for j := 0 to |blocks|
      invariant forall i, k :: 0 <= i < |blocks| && 0 <= k < blocks[i].Length ==>
                  blocks[i][k] == old(blocks[i][k]) + (if i < j && k < access then 1 else 0)
    {
      IncrementBlock(blocks[j], access);
    }
  }

  /** The timed run after the start barrier: time_start is read, yield_count
      rounds run, time_middle is read, a sequential child then makes its
      passes, and time_finished is read. Each word touched ends up
      incremented yield_count times and no other word is written; the two
      durations are normalized and measure the time between the readings. */
  method TimedRun(cfg: Config, role: Role, blocks: seq<array<int>>, start: Timespec, middle: Timespec, finish: Timespec)
      returns (middleTime: Timespec, totalTime: Timespec, ghost trace: seq<Event>)
    requires ValidConfig(cfg) && |blocks| == LineCount(cfg) && Distinct(blocks)
    requires forall j :: 0 <= j < |blocks| ==> blocks[j].Length == BlockWords(cfg)
    requires ToNs(start) <= ToNs(middle) <= ToNs(finish)
    modifies Footprint(blocks)
    ensures forall j, k :: 0 <= j < |blocks| && 0 <= k < blocks[j].Length ==>
              blocks[j][k] == old(blocks[j][k]) + (if k < cfg.accessPerCacheLine then cfg.yieldCount else 0)
    ensures trace == ExpectedTrace(Postpones(cfg, role), cfg.yieldCount)
    ensures Normalized(middleTime) && ToNs(middleTime) == ToNs(middle) - ToNs(start)
    ensures Normalized(totalTime) && ToNs(totalTime) == ToNs(finish) - ToNs(start)
  {
    var access := cfg.accessPerCacheLine;
    var postpone := role == Child && !cfg.concurrent;
    trace := [];
    for i := 0 to cfg.yieldCount
      invariant trace == Repeat(FirstLoopUnit(postpone), i)
      invariant forall j, k :: 0 <= j < |blocks| && 0 <= k < blocks[j].Length ==>
                  blocks[j][k] == old(blocks[j][k]) + (if k < access && !postpone then i else 0)
    {
      if postpone {
        trace := trace + [Yield];
        continue;
      }
      IncrementPass(blocks, access);
      trace := trace + [Pass];
      trace := trace + [Yield];
    }
    trace := trace + [Midpoint];
    middleTime := Elapsed(start, middle);
    ElapsedMeasures(start, middle);
    if postpone {
      for i := 0 to cfg.yieldCount
        invariant trace == Repeat(FirstLoopUnit(postpone), cfg.yieldCount) + [Midpoint] + Repeat([Pass], i)
        invariant forall j, k :: 0 <= j < |blocks| && 0 <= k < blocks[j].Length ==>
                    blocks[j][k] == old(blocks[j][k]) + (if k < access then i else 0)
      {
        IncrementPass(blocks, access);
        trace := trace + [Pass];
      }
    }
    totalTime := Elapsed(start, finish);
    ElapsedMeasures(start, finish);
  }

  /** The workload as the process runs it: the working set allocated, then
      the timed run. Every accessed word of every block ends at yield_count,
      whatever the role and mode. */
  method RunWorkload(cfg: Config, role: Role, start: Timespec, middle: Timespec, finish: Timespec)
      returns (blocks: seq<array<int>>, middleTime: Timespec, totalTime: Timespec, ghost trace: seq<Event>)
    requires ValidConfig(cfg)
    requires ToNs(start) <= ToNs(middle) <= ToNs(finish)
    ensures |blocks| == LineCount(cfg)
    ensures forall j :: 0 <= j < |blocks| ==> fresh(blocks[j])
    ensures forall j :: 0 <= j < |blocks| ==> blocks[j].Length == BlockWords(cfg) && cfg.accessPerCacheLine <= blocks[j].Length
    ensures forall j, k :: 0 <= j < |blocks| && 0 <= k < cfg.accessPerCacheLine ==> blocks[j][k] == cfg.yieldCount
    ensures trace == ExpectedTrace(Postpones(cfg, role), cfg.yieldCount)
    ensures Normalized(middleTime) && ToNs(middleTime) == ToNs(middle) - ToNs(start)
    ensures Normalized(totalTime) && ToNs(totalTime) == ToNs(finish) - ToNs(start)
  {
    blocks := AllocateWorkingSet(cfg);
    middleTime, totalTime, trace := TimedRun(cfg, role, blocks, start, middle, finish);
  }
}
