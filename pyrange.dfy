/** Python's `range(start, stop, step)` for a positive step, as a sequence of integers. */
module PyRange {

  function Range(start: int, stop: int, step: nat): seq<int>
    requires step > 0
    decreases stop - start
  {
    if start >= stop then [] else [start] + Range(start + step, stop, step)
  }

  /** The k-th element of a range is start + k * step. */
  lemma {:induction false} RangeAt(start: int, stop: int, step: nat, k: nat)
    requires step > 0 && k < |Range(start, stop, step)|
    ensures Range(start, stop, step)[k] == start + k * step
    decreases stop - start
  {
    if k > 0 {
      RangeAt(start + step, stop, step, k - 1);
      assert start + step + (k - 1) * step == start + k * step;
    }
  }

  /** A nonempty range has n elements where the n-th step is the first to reach stop. */
  lemma {:induction false} RangeLength(start: int, stop: int, step: nat)
    requires step > 0
    ensures var n := |Range(start, stop, step)|;
            (start >= stop ==> n == 0)
            && (start < stop ==> n >= 1 && start + (n - 1) * step < stop <= start + n * step)
    decreases stop - start
  {
    if start < stop {
      var m := |Range(start + step, stop, step)|;
      RangeLength(start + step, stop, step);
      assert (m + 1 - 1) * step == m * step;
      assert (m + 1) * step == m * step + step;
    }
  }

  /** A value is in the range exactly when it lies in [start, stop) on the step grid. */
  lemma {:induction false} RangeMembership(start: int, stop: int, step: nat, x: int)
    requires step > 0
    ensures x in Range(start, stop, step) <==> start <= x < stop && (x - start) % step == 0
    decreases stop - start
  {
    if start < stop {
      RangeMembership(start + step, stop, step, x);
      assert (x - (start + step)) % step == (x - start) % step by {
        ModShift(x - start, step);
      }
      if start < x < start + step {
        assert (x - start) % step == x - start;
      }
    }
  }

  lemma ModShift(d: int, step: nat)
    requires step > 0
    ensures (d - step) % step == d % step
  {
    var q := d / step;
    assert d == q * step + d % step;
    assert d - step == (q - 1) * step + d % step by {
      assert (q - 1) * step == q * step - step;
    }
    ModUnique(d - step, q - 1, d % step, step);
  }

  /** Euclidean division leaves a unique remainder. */
  lemma ModUnique(a: int, q: int, r: int, step: nat)
    requires step > 0 && 0 <= r < step && a == q * step + r
    ensures a % step == r
  {
    var q', r' := a / step, a % step;
    assert (q - q') * step == r' - r by {
      assert q * step - q' * step == (q - q') * step;
    }
    MultipleBelowStep(q - q', step);
  }

  lemma MultipleBelowStep(k: int, step: int)
    requires step > 0 && -step < k * step < step
    ensures k == 0
  {
    assert k >= 1 ==> k * step >= step;
    assert k <= -1 ==> k * step <= -step;
  }

  /** The range is strictly increasing. */
  lemma {:induction false} RangeIncreasing(start: int, stop: int, step: nat, i: nat, j: nat)
    requires step > 0 && i < j < |Range(start, stop, step)|
    ensures Range(start, stop, step)[i] < Range(start, stop, step)[j]
  {
    RangeAt(start, stop, step, i);
    RangeAt(start, stop, step, j);
    assert i * step < j * step by {
      assert (j - i) * step > 0;
    }
  }

  /** A range holds no value twice, so the set built from it has as many elements. */
  lemma {:induction false} RangeSetSize(start: int, stop: int, step: nat)
    requires step > 0
    ensures |set x | x in Range(start, stop, step)| == |Range(start, stop, step)|
    decreases stop - start
  {
    if start < stop {
      var rest := Range(start + step, stop, step);
      var whole := Range(start, stop, step);
      assert whole == [start] + rest;
      RangeSetSize(start + step, stop, step);
      RangeMembership(start + step, stop, step, start);
      var restSet := set x | x in rest;
      assert start !in restSet;
      assert (set x | x in whole) == restSet + {start};
      assert |restSet + {start}| == |restSet| + 1;
    }
  }
}
