/** The duration arithmetic of the timed run: a difference of two
    CLOCK_MONOTONIC readings in nanoseconds, split back into seconds and
    nanoseconds with C's truncating / and %, and the average of the parent's
    and the child's total times. */
module Timing {
  import opened CLib

  const NsPerSec: nat := 1000 * 1000 * 1000

  /** struct timespec. */
  datatype Timespec = Timespec(sec: int, nsec: int)

  /** A timespec as clock_gettime produces it. */
  predicate Normalized(t: Timespec)
  {
    t.sec >= 0 && 0 <= t.nsec < NsPerSec
  }

  function ToNs(t: Timespec): int
  {
    t.sec * NsPerSec + t.nsec
  }

  /** time_diff_ns: the nanoseconds from `from` to `to`. */
  function DiffNs(from: Timespec, to: Timespec): (d: int)
    ensures d == ToNs(to) - ToNs(from)
  {
    to.nsec - from.nsec + (to.sec - from.sec) * NsPerSec
  }

  /** A nanosecond count as a timespec: tv_sec = d / 10^9, tv_nsec = d % 10^9. */
  function Split(d: int): Timespec
  {
    Timespec(CDiv(d, NsPerSec), CMod(d, NsPerSec))
  }

  /** time_diff_middle and time_diff. */
  function Elapsed(from: Timespec, to: Timespec): Timespec
  {
    Split(DiffNs(from, to))
  }

  /** time_diff_average_ns: the summed seconds and nanoseconds of both times, halved. */
  function AverageNs(a: Timespec, b: Timespec): int
  {
    CDiv((a.sec + b.sec) * NsPerSec + a.nsec + b.nsec, 2)
  }

  function Average(a: Timespec, b: Timespec): Timespec
  {
    Split(AverageNs(a, b))
  }

  /** The split loses nothing, and a non-negative count splits into a
      normalized timespec. */
  lemma SplitRecombines(d: int)
    ensures ToNs(Split(d)) == d
    ensures d >= 0 ==> Normalized(Split(d))
    ensures d < 0 ==> Split(d).sec <= 0 && -(NsPerSec as int) < Split(d).nsec <= 0
  {
  }

  /** Splitting the nanoseconds of a normalized timespec gives it back. */
  lemma SplitOfToNs(t: Timespec)
    requires Normalized(t)
    ensures Split(ToNs(t)) == t
  {
    var d := ToNs(t);
    assert d / NsPerSec == t.sec && d % NsPerSec == t.nsec by {
      DivModUnique(d, t.sec, t.nsec);
    }
  }

  lemma DivModUnique(d: int, q: int, r: int)
    requires 0 <= r < NsPerSec && d == q * NsPerSec + r
    ensures d / NsPerSec == q && d % NsPerSec == r
  {
  }

  /** With the later reading second, the elapsed time is a normalized timespec
      worth exactly the nanoseconds between the readings. */
  lemma ElapsedMeasures(from: Timespec, to: Timespec)
    requires ToNs(from) <= ToNs(to)
    ensures Normalized(Elapsed(from, to))
    ensures ToNs(Elapsed(from, to)) == ToNs(to) - ToNs(from)
  {
    SplitRecombines(DiffNs(from, to));
  }

  /** The average does not depend on which time is the parent's. */
  lemma AverageCommutes(a: Timespec, b: Timespec)
    ensures Average(a, b) == Average(b, a)
  {
    assert (a.sec + b.sec) * NsPerSec + a.nsec + b.nsec == (b.sec + a.sec) * NsPerSec + b.nsec + a.nsec;
  }

  /** Two equal normalized times average to that time. */
  lemma AverageSame(a: Timespec)
    requires Normalized(a)
    ensures Average(a, a) == a
  {
    assert AverageNs(a, a) == ToNs(a);
    SplitOfToNs(a);
  }

  /** The average of two normalized times is normalized, is the half of their
      sum rounded down, and lies between them. */
  lemma AverageBetween(a: Timespec, b: Timespec)
    requires Normalized(a) && Normalized(b)
    ensures Normalized(Average(a, b))
    ensures ToNs(Average(a, b)) == (ToNs(a) + ToNs(b)) / 2
    ensures ToNs(a) <= ToNs(b) ==> ToNs(a) <= ToNs(Average(a, b)) <= ToNs(b)
  {
    assert AverageNs(a, b) == (ToNs(a) + ToNs(b)) / 2;
    SplitRecombines(AverageNs(a, b));
  }
}
