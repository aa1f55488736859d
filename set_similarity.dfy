/** The Jaccard ratio |A ∩ B| / |A ∪ B| over finite sets, computed exactly.
    `Ratio` carries the empty-set guard of `set_similarity`, `_jaccard`,
    `jaccard`, `anygrams` and `_everygrams`; `UnguardedRatio` is the plain
    division of `TextProcessor.similarity` and `TextComparator.similarity`. */
module SetSimilarity {
  import opened Wrappers

  lemma {:induction false} SubsetCardinality<T>(x: set<T>, y: set<T>)
    requires x <= y
    ensures |x| <= |y|
    ensures |x| == |y| ==> x == y
    decreases |x|
  {
    if x != {} {
      var e :| e in x;
      SubsetCardinality(x - {e}, y - {e});
      if |x| == |y| {
        assert x == (x - {e}) + {e};
        assert y == (y - {e}) + {e};
      }
    } else if |y| == 0 {
      assert y == {};
    }
  }

  /** 0 when either set is empty, otherwise the ratio of intersection to union. */
  function Ratio<T>(a: set<T>, b: set<T>): (r: real)
    ensures 0.0 <= r <= 1.0
  {
    if |a| == 0 || |b| == 0 then 0.0
    else
      SubsetCardinality(a * b, a + b);
      SubsetCardinality(a, a + b);
      FractionBound(|a * b| as real, |a + b| as real);
      (|a * b| as real) / (|a + b| as real)
  }

  lemma FractionBound(x: real, y: real)
    requires 0.0 <= x <= y && 0.0 < y
    ensures 0.0 <= x / y <= 1.0
  {
    assert x / y * y == x;
  }

  /** The ratio without the guard: dividing by an empty union is an error. */
  function UnguardedRatio<T>(a: set<T>, b: set<T>): (r: Result<real>)
    ensures r.Failure? ==> r.error == ZeroDivisionError
  {
    if |a + b| == 0 then Failure(ZeroDivisionError)
    else Success((|a * b| as real) / (|a + b| as real))
  }

  lemma RatioEmpty<T>(a: set<T>, b: set<T>)
    requires a == {} || b == {}
    ensures Ratio(a, b) == 0.0
  {
  }

  lemma RatioSymmetric<T>(a: set<T>, b: set<T>)
    ensures Ratio(a, b) == Ratio(b, a)
  {
    assert a * b == b * a;
    assert a + b == b + a;
  }

  /** The ratio is 1 exactly when both sets are the same nonempty set. */
  lemma {:induction false} RatioOneIff<T>(a: set<T>, b: set<T>)
    ensures Ratio(a, b) == 1.0 <==> (a == b && a != {})
  {
    if a != {} && b != {} {
      var i, u := a * b, a + b;
      SubsetCardinality(i, u);
      if Ratio(a, b) == 1.0 {
        assert |i| as real == |u| as real;
        assert i == u;
        assert a <= u && b <= u;
        assert a == b;
      }
      if a == b {
        assert i == a && u == a;
      }
    }
  }

  /** The ratio is 0 exactly when a set is empty or the sets are disjoint. */
  lemma {:induction false} RatioZeroIff<T>(a: set<T>, b: set<T>)
    ensures Ratio(a, b) == 0.0 <==> (a == {} || b == {} || a * b == {})
  {
    if a != {} && b != {} {
      var i, u := a * b, a + b;
      assert |u| > 0 by {
        var e :| e in a;
        assert e in u;
      }
      if i != {} {
        assert |i| > 0;
        assert (|i| as real) / (|u| as real) > 0.0;
      }
    }
  }

  /** The unguarded ratio fails exactly when both sets are empty, and agrees with the guarded one otherwise. */
  lemma {:induction false} UnguardedAgrees<T>(a: set<T>, b: set<T>)
    ensures UnguardedRatio(a, b).Failure? <==> (a == {} && b == {})
    ensures UnguardedRatio(a, b).Success? ==> UnguardedRatio(a, b).value == Ratio(a, b)
  {
    if a != {} || b != {} {
      var e :| e in a || e in b;
      assert e in a + b;
      assert |a + b| > 0;
      if a == {} || b == {} {
        assert a * b == {};
      }
    }
  }
}
