/**
 Values that may be missing, and the exact-arithmetic building blocks the
 indicator and backtest modules share: sums and arithmetic means of price
 windows.
 */
module Options {

  /** A series entry that is either undefined (a NaN in the dashboard's
      floating-point series) or holds a number. */
  datatype Option<+T> = None | Some(value: T)
}

module Numeric {

  /** Sum of a sequence of reals, peeled from the end. */
  function Sum(s: seq<real>): real
  {
    if |s| == 0 then 0.0 else Sum(s[..|s| - 1]) + s[|s| - 1]
  }

  /** Arithmetic mean of a non-empty sequence. */
  function Mean(s: seq<real>): real
    requires |s| > 0
  {
    Sum(s) / (|s| as real)
  }

  /** Every element of `s` lies in `[lo, hi]`. */
  predicate AllBetween(s: seq<real>, lo: real, hi: real)
  {
    forall i :: 0 <= i < |s| ==> lo <= s[i] <= hi
  }

  /** Every element of `s` is non-negative. */
  predicate AllNonNegative(s: seq<real>)
  {
    forall i :: 0 <= i < |s| ==> s[i] >= 0.0
  }

  /** Summing is additive over concatenation. */
  lemma {:induction false} SumAppend(a: seq<real>, b: seq<real>)
    ensures Sum(a + b) == Sum(a) + Sum(b)
    decreases |b|
  {
    if |b| == 0 {
      assert a + b == a;
    } else {
      var b' := b[..|b| - 1];
      assert (a + b)[..|a + b| - 1] == a + b';
      SumAppend(a, b');
    }
  }

  /** The sum can equally be peeled from the front; this is what lets a
      running window sum drop its oldest element. */
  lemma {:induction false} SumFront(s: seq<real>)
    requires |s| > 0
    ensures Sum(s) == s[0] + Sum(s[1..])
  {
    var head := [s[0]];
    assert s == head + s[1..];
    SumAppend(head, s[1..]);
    assert head[..0] == [];
    assert Sum(head) == Sum([]) + s[0];
  }

  /** A sum of `n` values in `[lo, hi]` lies in `[n * lo, n * hi]`. */
  lemma {:induction false} SumBetween(s: seq<real>, lo: real, hi: real)
    requires AllBetween(s, lo, hi)
    ensures (|s| as real) * lo <= Sum(s) <= (|s| as real) * hi
  {
    if |s| > 0 {
      var p := s[..|s| - 1];
      assert AllBetween(p, lo, hi) by {
        forall i | 0 <= i < |p| ensures lo <= p[i] <= hi {
          assert p[i] == s[i];
        }
      }
      SumBetween(p, lo, hi);
      assert (|s| as real) * lo == (|p| as real) * lo + lo;
      assert (|s| as real) * hi == (|p| as real) * hi + hi;
    }
  }

  /** The mean of values in `[lo, hi]` lies in `[lo, hi]`. */
  lemma MeanBetween(s: seq<real>, lo: real, hi: real)
    requires |s| > 0
    requires AllBetween(s, lo, hi)
    ensures lo <= Mean(s) <= hi
  {
    SumBetween(s, lo, hi);
    var n := |s| as real;
    assert Mean(s) * n == Sum(s);
  }

  /** A sum of non-negative values is non-negative, and it is zero exactly
      when every value is zero. */
  lemma {:induction false} SumNonNegative(s: seq<real>)
    requires AllNonNegative(s)
    ensures Sum(s) >= 0.0
    ensures Sum(s) == 0.0 <==> forall i :: 0 <= i < |s| ==> s[i] == 0.0
  {
    if |s| > 0 {
      var p := s[..|s| - 1];
      assert AllNonNegative(p) by {
        forall i | 0 <= i < |p| ensures p[i] >= 0.0 {
          assert p[i] == s[i];
        }
      }
      SumNonNegative(p);
      if Sum(s) == 0.0 {
        forall i | 0 <= i < |s| ensures s[i] == 0.0 {
          if i < |s| - 1 {
            assert p[i] == s[i];
          }
        }
      }
      if forall i :: 0 <= i < |s| ==> s[i] == 0.0 {
        assert forall i :: 0 <= i < |p| ==> p[i] == s[i];
      }
    }
  }

  /** The mean of non-negative values is non-negative, and zero exactly when
      every value is zero. */
  lemma MeanNonNegative(s: seq<real>)
    requires |s| > 0
    requires AllNonNegative(s)
    ensures Mean(s) >= 0.0
    ensures Mean(s) == 0.0 <==> forall i :: 0 <= i < |s| ==> s[i] == 0.0
  {
    SumNonNegative(s);
    var n := |s| as real;
    assert Mean(s) * n == Sum(s);
  }
}
