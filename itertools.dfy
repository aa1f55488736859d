/** The two `itertools` generators the alias generator of generate_kb.py
    relies on, as sequences in the order Python yields them:
    `combinations(s, r)` (index-lexicographic r-subsequences) and
    `permutations(s)` (index-lexicographic orderings of all of `s`).
    Positions, not values, are what is combined or permuted, so equal
    elements at different positions are told apart, as in Python. */
module Itertools {
  import opened Seqs

  // ---------------------------------------------------------------------
  // Subsequences and combinations

  /** `c` can be obtained from `s` by deleting elements, keeping the order. */
  predicate Subsequence<T(==)>(c: seq<T>, s: seq<T>)
    decreases |s|
  {
    if |c| == 0 then true
    else if |s| == 0 then false
    else (c[0] == s[0] && Subsequence(c[1..], s[1..])) || Subsequence(c, s[1..])
  }

  lemma {:induction false} SubsequenceLength<T>(c: seq<T>, s: seq<T>)
    requires Subsequence(c, s)
    ensures |c| <= |s|
    decreases |s|
  {
    if c != [] {
      if c[0] == s[0] && Subsequence(c[1..], s[1..]) {
        SubsequenceLength(c[1..], s[1..]);
      } else {
        SubsequenceLength(c, s[1..]);
      }
    }
  }

  /** `x` in front of each of `ps`. */
  function Prefixed<T>(x: T, ps: seq<seq<T>>): (r: seq<seq<T>>)
    ensures |r| == |ps|
  {
    if |ps| == 0 then [] else [[x] + ps[0]] + Prefixed(x, ps[1..])
  }

  lemma {:induction false} PrefixedAt<T>(x: T, ps: seq<seq<T>>, k: nat)
    requires k < |ps|
    ensures Prefixed(x, ps)[k] == [x] + ps[k]
  {
    if k != 0 {
      PrefixedAt(x, ps[1..], k - 1);
    }
  }

  lemma PrefixedMember<T>(x: T, ps: seq<seq<T>>, c: seq<T>)
    ensures c in Prefixed(x, ps) <==> c != [] && c[0] == x && c[1..] in ps
  {
    if c in Prefixed(x, ps) {
      var k :| 0 <= k < |ps| && Prefixed(x, ps)[k] == c;
      PrefixedAt(x, ps, k);
      assert c[1..] == ps[k];
    }
    if c != [] && c[0] == x && c[1..] in ps {
      var k :| 0 <= k < |ps| && ps[k] == c[1..];
      PrefixedAt(x, ps, k);
      assert Prefixed(x, ps)[k] == c;
    }
  }

  /** `itertools.combinations(s, r)`: those with the first element, then those without it. */
  function Combinations<T>(s: seq<T>, r: nat): seq<seq<T>>
    decreases |s|
  {
    if r == 0 then [[]]
    else if |s| == 0 then []
    else Prefixed(s[0], Combinations(s[1..], r - 1)) + Combinations(s[1..], r)
  }

  /** The combinations of size r are exactly the subsequences of length r. */
  lemma CombinationsMembers<T>(s: seq<T>, r: nat, c: seq<T>)
    ensures c in Combinations(s, r) <==> |c| == r && Subsequence(c, s)
  {
    if c in Combinations(s, r) {
      var k :| 0 <= k < |Combinations(s, r)| && Combinations(s, r)[k] == c;
      CombinationAt(s, r, k);
    }
    if |c| == r && Subsequence(c, s) {
      var k := SubsequenceIndex(s, r, c);
    }
  }

  /** Every combination of size r is a subsequence of length r. */
  lemma {:induction false} CombinationAt<T>(s: seq<T>, r: nat, k: nat)
    requires k < |Combinations(s, r)|
    ensures |Combinations(s, r)[k]| == r && Subsequence(Combinations(s, r)[k], s)
    decreases |s|
  {
    if r != 0 {
      var with := Prefixed(s[0], Combinations(s[1..], r - 1));
      assert Combinations(s, r) == with + Combinations(s[1..], r);
      var c := Combinations(s, r)[k];
      if k < |with| {
        CombinationAt(s[1..], r - 1, k);
        PrefixedAt(s[0], Combinations(s[1..], r - 1), k);
        SubsequenceKeep(c, s);
      } else {
        CombinationAt(s[1..], r, k - |with|);
        SubsequenceSkip(c, s);
      }
    }
  }

  /** Every subsequence of length r is a combination of size r, at the returned position. */
  lemma {:induction false} SubsequenceIndex<T>(s: seq<T>, r: nat, c: seq<T>) returns (k: nat)
    requires |c| == r && Subsequence(c, s)
    ensures k < |Combinations(s, r)| && Combinations(s, r)[k] == c
    decreases |s|
  {
    k := 0;
    if r == 0 {
      assert c == [];
    } else {
      var with := Prefixed(s[0], Combinations(s[1..], r - 1));
      assert Combinations(s, r) == with + Combinations(s[1..], r);
      if c[0] == s[0] && Subsequence(c[1..], s[1..]) {
        k := SubsequenceIndex(s[1..], r - 1, c[1..]);
        PrefixedAt(s[0], Combinations(s[1..], r - 1), k);
        assert with[k] == [s[0]] + c[1..] == c;
      } else {
        var k' := SubsequenceIndex(s[1..], r, c);
        k := |with| + k';
        assert Combinations(s, r)[k] == Combinations(s[1..], r)[k'];
      }
    }
  }

  lemma SubsequenceKeep<T>(c: seq<T>, s: seq<T>)
    requires c != [] && s != [] && c[0] == s[0] && Subsequence(c[1..], s[1..])
    ensures Subsequence(c, s)
  {
  }

  lemma SubsequenceSkip<T>(c: seq<T>, s: seq<T>)
    requires s != [] && Subsequence(c, s[1..])
    ensures Subsequence(c, s)
  {
  }

  /** Pascal's triangle. */
  function Binomial(n: nat, k: nat): nat {
    if k == 0 then 1
    else if n == 0 then 0
    else Binomial(n - 1, k - 1) + Binomial(n - 1, k)
  }

  /** There are n-choose-r combinations of size r of n positions. */
  lemma {:induction false} CombinationsCount<T>(s: seq<T>, r: nat)
    ensures |Combinations(s, r)| == Binomial(|s|, r)
    decreases |s|
  {
    if r != 0 && s != [] {
      CombinationsCount(s[1..], r - 1);
      CombinationsCount(s[1..], r);
    }
  }

  lemma {:induction false} BinomialAbove(n: nat, k: nat)
    requires k > n
    ensures Binomial(n, k) == 0
  {
    if n != 0 {
      BinomialAbove(n - 1, k - 1);
      BinomialAbove(n - 1, k);
    }
  }

  /** Binomial(n, 0) + ... + Binomial(n, k). */
  function BinomialSum(n: nat, k: nat): nat {
    if k == 0 then 1 else BinomialSum(n, k - 1) + Binomial(n, k)
  }

  function Pow2(n: nat): nat {
    if n == 0 then 1 else 2 * Pow2(n - 1)
  }

  lemma {:induction false} BinomialSumStep(n: nat, k: nat)
    requires k >= 1
    ensures BinomialSum(n + 1, k) == BinomialSum(n, k) + BinomialSum(n, k - 1)
  {
    assert Binomial(n + 1, k) == Binomial(n, k - 1) + Binomial(n, k);
    if k > 1 {
      BinomialSumStep(n, k - 1);
    } else {
      assert BinomialSum(n + 1, 0) == 1 == BinomialSum(n, 0);
    }
  }

  /** A row of Pascal's triangle sums to a power of two. */
  lemma {:induction false} BinomialRowSum(n: nat)
    ensures BinomialSum(n, n) == Pow2(n)
  {
    if n != 0 {
      BinomialRowSum(n - 1);
      BinomialSumStep(n - 1, n);
      BinomialAbove(n - 1, n);
    }
  }

  // ---------------------------------------------------------------------
  // Permutations

  /** `s` without the element at position i. */
  function RemoveAt<T>(s: seq<T>, i: nat): (r: seq<T>)
    requires i < |s|
    ensures |r| == |s| - 1
  {
    s[..i] + s[i + 1..]
  }

  lemma RemoveAtMultiset<T>(s: seq<T>, i: nat)
    requires i < |s|
    ensures multiset(s) == multiset(RemoveAt(s, i)) + multiset{s[i]}
  {
    assert s == s[..i] + [s[i]] + s[i + 1..];
  }

  /** `itertools.permutations(s)`: for each position in turn, its element in
      front of every permutation of the others. */
  function Permutations<T>(s: seq<T>): seq<seq<T>>
    decreases |s|, 2, 0
  {
    if |s| == 0 then [[]] else PermutationsFrom(s, |s|)
  }

  /** The permutations of `s` that begin with one of its first i positions. */
  function PermutationsFrom<T>(s: seq<T>, i: nat): seq<seq<T>>
    requires i <= |s|
    decreases |s|, 1, i
  {
    if i == 0 then [] else PermutationsFrom(s, i - 1) + PermutationsAt(s, i - 1)
  }

  /** The permutations of `s` that begin with its element at position j. */
  function PermutationsAt<T>(s: seq<T>, j: nat): seq<seq<T>>
    requires j < |s|
    decreases |s|, 0, 0
  {
    Prefixed(s[j], Permutations(RemoveAt(s, j)))
  }

  lemma {:induction false} PermutationsFromMember<T>(s: seq<T>, i: nat, p: seq<T>)
    requires i <= |s|
    ensures p in PermutationsFrom(s, i) <==> exists j :: 0 <= j < i && p in PermutationsAt(s, j)
    decreases i
  {
    if i != 0 {
      PermutationsFromMember(s, i - 1, p);
      if p in PermutationsAt(s, i - 1) {
        assert 0 <= i - 1 < i && p in PermutationsAt(s, i - 1);
      }
    }
  }

  /** The permutations of `s` are exactly the sequences with the same elements, counted with multiplicity. */
  lemma PermutationsMembers<T>(s: seq<T>, p: seq<T>)
    ensures p in Permutations(s) <==> multiset(p) == multiset(s)
  {
    if p in Permutations(s) {
      PermutationIsRearrangement(s, p);
    }
    if multiset(p) == multiset(s) {
      RearrangementIsPermutation(s, p);
    }
  }

  lemma {:induction false} PermutationIsRearrangement<T>(s: seq<T>, p: seq<T>)
    requires p in Permutations(s)
    ensures multiset(p) == multiset(s)
    decreases |s|
  {
    if s != [] {
      PermutationsFromMember(s, |s|, p);
      var j :| 0 <= j < |s| && p in PermutationsAt(s, j);
      PrefixedMember(s[j], Permutations(RemoveAt(s, j)), p);
      PermutationIsRearrangement(RemoveAt(s, j), p[1..]);
      RemoveAtMultiset(s, j);
      assert p == [p[0]] + p[1..];
    }
  }

  lemma {:induction false} RearrangementIsPermutation<T>(s: seq<T>, p: seq<T>)
    requires multiset(p) == multiset(s)
    ensures p in Permutations(s)
    decreases |s|
  {
    if s == [] {
      assert |p| == |multiset(p)|;
    } else {
      var j := RearrangementHead(s, p);
      RearrangementIsPermutation(RemoveAt(s, j), p[1..]);
      PrefixedMember(s[j], Permutations(RemoveAt(s, j)), p);
      assert p in PermutationsAt(s, j);
      PermutationsFromMember(s, |s|, p);
    }
  }

  /** A rearrangement of a nonempty `s` starts with some element s[j] and
      goes on with a rearrangement of the others. */
  lemma RearrangementHead<T>(s: seq<T>, p: seq<T>) returns (j: nat)
    requires multiset(p) == multiset(s) && s != []
    ensures j < |s| && p != [] && p[0] == s[j]
    ensures multiset(p[1..]) == multiset(RemoveAt(s, j))
  {
    assert s[0] in multiset(s);
    assert p != [];
    assert p == [p[0]] + p[1..];
    assert p[0] in multiset(s);
    j :| 0 <= j < |s| && s[j] == p[0];
    RemoveAtMultiset(s, j);
    assert multiset(p) == multiset{p[0]} + multiset(p[1..]);
    assert multiset(p[1..]) == multiset(p) - multiset{p[0]};
    assert multiset(RemoveAt(s, j)) == multiset(s) - multiset{s[j]};
  }

  function Factorial(n: nat): nat {
    if n == 0 then 1 else n * Factorial(n - 1)
  }

  /** A sequence of n positions has n! permutations. */
  lemma {:induction false} PermutationsCount<T>(s: seq<T>)
    ensures |Permutations(s)| == Factorial(|s|)
    decreases |s|, 1
  {
    if s != [] {
      PermutationsFromCount(s, |s|);
    }
  }

  lemma {:induction false} PermutationsFromCount<T>(s: seq<T>, i: nat)
    requires 0 < |s| && i <= |s|
    ensures |PermutationsFrom(s, i)| == i * Factorial(|s| - 1)
    decreases |s|, 0, i
  {
    if i != 0 {
      var f := Factorial(|s| - 1);
      PermutationsFromCount(s, i - 1);
      PermutationsCount(RemoveAt(s, i - 1));
      assert |PermutationsAt(s, i - 1)| == f;
      assert i * f == (i - 1) * f + f;
    }
  }
}
