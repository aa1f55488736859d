/** Generic facts about sequences used by several modules: duplicate-free
    sequences, first-occurrence deduplication (the model's stand-in for the
    hash order of `list(set(xs))`) and flattening. */
module Seqs {

  predicate NoDup<T(==)>(s: seq<T>) {
    forall i, j :: 0 <= i < j < |s| ==> s[i] != s[j]
  }

  /** Two duplicate-free sequences with no common element concatenate to one. */
  lemma NoDupAppend<T>(a: seq<T>, b: seq<T>)
    requires NoDup(a) && NoDup(b)
    requires forall x :: x in a ==> x !in b
    ensures NoDup(a + b)
  {
    forall i, j | 0 <= i < j < |a + b| ensures (a + b)[i] != (a + b)[j] {
      if i < |a| && |a| <= j {
        assert (a + b)[i] in a && (a + b)[j] in b;
      }
    }
  }

  /** The distinct elements of `xs`, each at the place of its first occurrence. */
  function Dedup<T(==,!new)>(xs: seq<T>): (r: seq<T>)
    ensures NoDup(r)
    ensures forall x :: x in r <==> x in xs
    decreases |xs|
  {
    if xs == [] then []
    else
      var d := Dedup(xs[..|xs| - 1]);
      var x := xs[|xs| - 1];
      assert forall y :: y in xs <==> y in xs[..|xs| - 1] || y == x by {
        assert xs == xs[..|xs| - 1] + [x];
      }
      if x in d then d else d + [x]
  }

  /** Concatenation of a sequence of sequences, in order. */
  function Flatten<T>(xss: seq<seq<T>>): seq<T>
    decreases |xss|
  {
    if xss == [] then [] else Flatten(xss[..|xss| - 1]) + xss[|xss| - 1]
  }

  lemma {:induction false} FlattenLength<T>(xss: seq<seq<T>>, k: nat)
    requires forall i :: 0 <= i < |xss| ==> |xss[i]| == k
    ensures |Flatten(xss)| == |xss| * k
    decreases |xss|
  {
    if xss != [] {
      var n := |xss| - 1;
      FlattenLength(xss[..n], k);
      assert |Flatten(xss)| == n * k + k;
      assert n * k + k == |xss| * k;
    }
  }

  lemma {:induction false} FlattenMember<T(!new)>(xss: seq<seq<T>>, x: T)
    ensures x in Flatten(xss) <==> exists i :: 0 <= i < |xss| && x in xss[i]
    decreases |xss|
  {
    if xss != [] {
      var init := xss[..|xss| - 1];
      FlattenMember(init, x);
      assert Flatten(xss) == Flatten(init) + xss[|xss| - 1];
      if x in Flatten(xss) {
        if x in Flatten(init) {
          var i :| 0 <= i < |init| && x in init[i];
          assert x in xss[i];
        } else {
          assert x in xss[|xss| - 1];
        }
      }
      if exists i :: 0 <= i < |xss| && x in xss[i] {
        var i :| 0 <= i < |xss| && x in xss[i];
        if i < |xss| - 1 {
          assert x in init[i];
        }
      }
    }
  }

  lemma AppendAssoc<T>(a: seq<T>, b: seq<T>, c: seq<T>)
    ensures (a + b) + c == a + (b + c)
  {
  }

  lemma PrefixSnoc<T>(s: seq<T>, i: nat)
    requires i < |s|
    ensures s[..i + 1] == s[..i] + [s[i]]
  {
  }

  /** The position of the first true flag, or the count when there is none. */
  function FirstTrue(flags: seq<bool>): (k: nat)
    ensures k <= |flags|
    decreases |flags|
  {
    if flags == [] || flags[0] then 0 else FirstTrue(flags[1..]) + 1
  }

  /** No flag before the first true one is true, and the one there is. */
  lemma {:induction false} FirstTrueIsFirst(flags: seq<bool>)
    ensures forall i :: 0 <= i < FirstTrue(flags) ==> !flags[i]
    ensures FirstTrue(flags) < |flags| ==> flags[FirstTrue(flags)]
    decreases |flags|
  {
    if flags != [] && !flags[0] {
      FirstTrueIsFirst(flags[1..]);
      assert forall i :: 1 <= i < |flags| ==> flags[i] == flags[1..][i - 1];
    }
  }

  /** Scanning past position `p`, which comes no later than the first true
      flag: a true flag there is the first one, a false one moves the bound on. */
  lemma FirstTrueAt(flags: seq<bool>, p: nat)
    requires p < |flags| && p <= FirstTrue(flags)
    ensures flags[p] ==> FirstTrue(flags) == p
    ensures !flags[p] ==> FirstTrue(flags) >= p + 1
  {
    FirstTrueIsFirst(flags);
  }

  /** `f` applied to each element, in order. */
  function MapSeq<T, U>(f: T -> U, xs: seq<T>): (ys: seq<U>)
    ensures |ys| == |xs|
    decreases |xs|
  {
    if xs == [] then [] else MapSeq(f, xs[..|xs| - 1]) + [f(xs[|xs| - 1])]
  }

  lemma {:induction false} MapSeqAt<T, U>(f: T -> U, xs: seq<T>, k: nat)
    requires k < |xs|
    ensures MapSeq(f, xs)[k] == f(xs[k])
    decreases |xs|
  {
    if k < |xs| - 1 {
      MapSeqAt(f, xs[..|xs| - 1], k);
    }
  }

  lemma {:induction false} MapSeqAppend<T, U>(f: T -> U, xs: seq<T>, ys: seq<T>)
    ensures MapSeq(f, xs + ys) == MapSeq(f, xs) + MapSeq(f, ys)
    decreases |ys|
  {
    if ys == [] {
      assert xs + ys == xs;
    } else {
      var n := |ys| - 1;
      MapSeqAppend(f, xs, ys[..n]);
      assert (xs + ys)[..|xs + ys| - 1] == xs + ys[..n];
    }
  }

  lemma MapSeqPrefixStep<T, U>(f: T -> U, xs: seq<T>, i: nat)
    requires i < |xs|
    ensures MapSeq(f, xs[..i + 1]) == MapSeq(f, xs[..i]) + [f(xs[i])]
  {
    assert xs[..i + 1][..i] == xs[..i];
  }

  /** `f` applied to each element of each inner sequence. */
  function MapEach<T, U>(f: T -> U, xss: seq<seq<T>>): (yss: seq<seq<U>>)
    ensures |yss| == |xss|
    decreases |xss|
  {
    if xss == [] then [] else MapEach(f, xss[..|xss| - 1]) + [MapSeq(f, xss[|xss| - 1])]
  }

  lemma {:induction false} MapEachAt<T, U>(f: T -> U, xss: seq<seq<T>>, k: nat)
    requires k < |xss|
    ensures MapEach(f, xss)[k] == MapSeq(f, xss[k])
    decreases |xss|
  {
    if k < |xss| - 1 {
      MapEachAt(f, xss[..|xss| - 1], k);
    }
  }

  /** Mapping the concatenation is concatenating the mapped sequences. */
  lemma {:induction false} MapFlatten<T, U>(f: T -> U, xss: seq<seq<T>>)
    ensures MapSeq(f, Flatten(xss)) == Flatten(MapEach(f, xss))
    decreases |xss|
  {
    if xss != [] {
      var n := |xss| - 1;
      MapFlatten(f, xss[..n]);
      MapSeqAppend(f, Flatten(xss[..n]), xss[n]);
    }
  }

  /** An element of the mapped sequence is the image of some element. */
  lemma MapSeqMember<T, U>(f: T -> U, xs: seq<T>, y: U) returns (k: nat)
    requires y in MapSeq(f, xs)
    ensures k < |xs| && y == f(xs[k])
  {
    var i :| 0 <= i < |MapSeq(f, xs)| && MapSeq(f, xs)[i] == y;
    MapSeqAt(f, xs, i);
    k := i;
  }

  lemma FlattenSnoc<T>(xss: seq<seq<T>>, xs: seq<T>)
    ensures Flatten(xss + [xs]) == Flatten(xss) + xs
  {
    assert (xss + [xs])[..|xss|] == xss;
  }

  /** The concatenation of the images contains exactly what some image contains. */
  lemma FlattenMapMember<T(!new), U(!new)>(f: T -> seq<U>, xs: seq<T>, y: U)
    ensures y in Flatten(MapSeq(f, xs)) <==> exists x :: x in xs && y in f(x)
  {
    FlattenMember(MapSeq(f, xs), y);
    if y in Flatten(MapSeq(f, xs)) {
      var i :| 0 <= i < |MapSeq(f, xs)| && y in MapSeq(f, xs)[i];
      MapSeqAt(f, xs, i);
      assert xs[i] in xs;
    }
    if exists x :: x in xs && y in f(x) {
      var x :| x in xs && y in f(x);
      var i :| 0 <= i < |xs| && xs[i] == x;
      MapSeqAt(f, xs, i);
    }
  }
}
