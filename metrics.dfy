/**
 * The metrics tracker: a window of the most recent service times in
 * milliseconds, capped at 50 entries, and the average derived from it.
 */
module Metrics {
  const WindowCapacity: nat := 50
  /** The provisional average, in minutes, before any ticket has been served. */
  const DefaultAverageMinutes: real := 3.5
  const MillisPerMinute: real := 60000.0

  /** The window after recording one service time: push, then drop the oldest past capacity. */
  function Slide(w: seq<int>, d: int): (r: seq<int>)
    ensures |r| > 0 && r[|r| - 1] == d
    ensures |w| <= WindowCapacity ==> |r| <= WindowCapacity
  {
    var pushed := w + [d];
    if |pushed| > WindowCapacity then pushed[1..] else pushed
  }

  /** The last `n` elements of `s` (all of them when there are fewer). */
  function LastN(s: seq<int>, n: nat): (r: seq<int>)
    ensures |r| == if |s| <= n then |s| else n
  {
    if |s| <= n then s else s[|s| - n..]
  }

  /** The window after recording each of `ds` in turn. */
  function SlideAll(w: seq<int>, ds: seq<int>): seq<int>
    decreases |ds|
  {
    if ds == [] then w else SlideAll(Slide(w, ds[0]), ds[1..])
  }

  /**
   * Recording into a window of at most 50 entries keeps it at most 50
   * entries: the 50 most recent, in order, ending with the new one.
   */
  lemma SlideKeepsMostRecent(w: seq<int>, d: int)
    requires |w| <= WindowCapacity
    ensures Slide(w, d) == LastN(w + [d], WindowCapacity)
    ensures |Slide(w, d)| <= WindowCapacity
    ensures Slide(w, d)[|Slide(w, d)| - 1] == d
  {
  }

  lemma LastNOfLastN(x: seq<int>, y: seq<int>, n: nat)
    ensures LastN(LastN(x, n) + y, n) == LastN(x + y, n)
  {
    if |x| > n {
      var l := x[|x| - n..];
      var a, b := LastN(l + y, n), (x + y)[|x| + |y| - n..];
      assert a == (l + y)[|y|..];
      forall i | 0 <= i < n ensures a[i] == b[i] {
        if |y| + i < n {
          assert a[i] == l[|y| + i] == x[|x| - n + |y| + i];
        } else {
          assert a[i] == y[|y| + i - n];
        }
      }
    }
  }

  /**
   * However many service times are recorded, the window holds exactly the
   * most recent 50 of everything recorded, in order.
   */
  lemma {:induction false} SlideAllKeepsMostRecent(w: seq<int>, ds: seq<int>)
    requires |w| <= WindowCapacity
    ensures SlideAll(w, ds) == LastN(w + ds, WindowCapacity)
    decreases |ds|
  {
    if ds == [] {
      assert w + ds == w;
    } else {
      SlideKeepsMostRecent(w, ds[0]);
      SlideAllKeepsMostRecent(Slide(w, ds[0]), ds[1..]);
      LastNOfLastN(w + [ds[0]], ds[1..], WindowCapacity);
      assert (w + [ds[0]]) + ds[1..] == w + ds;
    }
  }

  function Sum(w: seq<int>): int
  {
    if w == [] then 0 else w[0] + Sum(w[1..])
  }

  /** Rounds half up to an integer; this is Math.round. */
  function RoundHalfUp(x: real): int
  {
    (x + 0.5).Floor
  }

  /** Number.prototype.toFixed(1) read back by parseFloat: rounds the magnitude half up to tenths. */
  function RoundTenths(x: real): real
  {
    if x < 0.0 then -(RoundHalfUp(-x * 10.0) as real) / 10.0
    else RoundHalfUp(x * 10.0) as real / 10.0
  }

  /** The mean service time in minutes, rounded to tenths; 3.5 while no ticket has been served. */
  function AverageMinutes(w: seq<int>): (avg: real)
    ensures w == [] ==> avg == DefaultAverageMinutes
    ensures w != [] ==>
      var mean := Sum(w) as real / |w| as real / MillisPerMinute;
      mean - 0.05 <= avg <= mean + 0.05
  {
    if w == [] then DefaultAverageMinutes
    else
      var mean := Sum(w) as real / |w| as real / MillisPerMinute;
      RoundTenthsClose(mean);
      RoundTenths(mean)
  }

  /** The realised wait of a served ticket: the whole number of minutes nearest to it, halves rounded up. */
  function WaitMinutes(waitMs: int): (m: int)
    ensures waitMs as real / MillisPerMinute - 0.5 < m as real <= waitMs as real / MillisPerMinute + 0.5
  {
    RoundHalfUp(waitMs as real / MillisPerMinute)
  }

  lemma RoundHalfUpClose(x: real)
    ensures x - 0.5 < RoundHalfUp(x) as real <= x + 0.5
  {
  }

  /** Rounding to tenths moves a value by at most a twentieth. */
  lemma RoundTenthsClose(x: real)
    ensures x - 0.05 <= RoundTenths(x) <= x + 0.05
  {
    if x < 0.0 {
      RoundHalfUpClose(-x * 10.0);
    } else {
      RoundHalfUpClose(x * 10.0);
    }
  }

  /** A value that already has one decimal is left as it is. */
  lemma RoundTenthsExact(k: int)
    ensures RoundTenths(k as real / 10.0) == k as real / 10.0
  {
    var x := k as real / 10.0;
    assert x * 10.0 == k as real;
    if x < 0.0 {
      assert -x * 10.0 == (-k) as real;
      assert RoundHalfUp(-x * 10.0) == -k;
    } else {
      assert RoundHalfUp(x * 10.0) == k;
    }
  }

  lemma {:induction false} SumBounds(w: seq<int>, lo: int, hi: int)
    requires forall i :: 0 <= i < |w| ==> lo <= w[i] <= hi
    ensures lo * |w| <= Sum(w) <= hi * |w|
  {
    if w != [] {
      SumBounds(w[1..], lo, hi);
    }
  }

  lemma MulStrictlyMonotone(a: real, b: real, c: real)
    requires a < b && c > 0.0
    ensures a * c < b * c
  {
  }

  /** A total between `lo` and `hi` per item gives a mean between `lo` and `hi`. */
  lemma MeanBounds(total: int, n: nat, lo: int, hi: int)
    requires n > 0 && lo * n <= total <= hi * n
    ensures lo as real <= total as real / n as real <= hi as real
  {
    var m, k := total as real / n as real, n as real;
    assert m * k == total as real;
    assert (lo * n) as real == lo as real * k && (hi * n) as real == hi as real * k;
    if m < lo as real {
      MulStrictlyMonotone(m, lo as real, k);
    }
    if hi as real < m {
      MulStrictlyMonotone(hi as real, m, k);
    }
  }

  /**
   * When every recorded service time lies between `lo` and `hi` milliseconds,
   * the average lies between them too, in minutes, up to the rounding.
   */
  lemma AverageBounds(w: seq<int>, lo: int, hi: int)
    requires w != []
    requires forall i :: 0 <= i < |w| ==> lo <= w[i] <= hi
    ensures lo as real / MillisPerMinute - 0.05 <= AverageMinutes(w) <= hi as real / MillisPerMinute + 0.05
  {
    SumBounds(w, lo, hi);
    MeanBounds(Sum(w), |w|, lo, hi);
  }

  /** Service times of one and two minutes average one and a half. */
  lemma AverageOfOneAndTwoMinutes()
    ensures AverageMinutes([60000, 120000]) == 1.5
  {
    var w := [60000, 120000];
    assert Sum(w) == 180000;
    assert Sum(w) as real / |w| as real / MillisPerMinute == 15 as real / 10.0;
    RoundTenthsExact(15);
  }
}
