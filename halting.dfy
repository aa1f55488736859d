/** A loop that produces one row per item and stops at the first item that
    fails: what it has written when it stops. Each item's outcome is its row,
    or nothing when it fails. */
module Halting {
  import opened Wrappers
  import opened Seqs

  /** The rows of the outcomes before the first failure. */
  function Written<R>(outs: seq<Option<R>>): (rows: seq<R>)
    ensures |rows| <= |outs|
    decreases |outs|
  {
    if outs == [] || outs[0].None? then [] else [outs[0].value] + Written(outs[1..])
  }

  /** Row k is outcome k's row, and the outcome right after the rows, if
      any, is the failure that stopped the loop. */
  lemma {:induction false} WrittenAt<R>(outs: seq<Option<R>>)
    ensures forall k :: 0 <= k < |Written(outs)| ==> outs[k] == Some(Written(outs)[k])
    ensures |Written(outs)| < |outs| ==> outs[|Written(outs)|].None?
    decreases |outs|
  {
    if outs != [] && outs[0].Some? {
      WrittenAt(outs[1..]);
      var rows := Written(outs);
      assert forall k :: 1 <= k < |rows| ==> rows[k] == Written(outs[1..])[k - 1];
    }
  }

  /** Running on after items that all succeeded appends the new rows;
      after a failure nothing more is written. */
  lemma {:induction false} WrittenAppend<R>(xs: seq<Option<R>>, ys: seq<Option<R>>)
    ensures |Written(xs)| == |xs| ==> Written(xs + ys) == Written(xs) + Written(ys)
    ensures |Written(xs)| < |xs| ==> Written(xs + ys) == Written(xs)
    decreases |xs|
  {
    if xs != [] {
      assert (xs + ys)[0] == xs[0];
      if xs[0].Some? {
        assert (xs + ys)[1..] == xs[1..] + ys;
        WrittenAppend(xs[1..], ys);
      }
    } else {
      assert xs + ys == ys;
    }
  }

  /** One item more after items that all succeeded. */
  lemma WrittenSnoc<R>(xs: seq<Option<R>>, x: Option<R>)
    requires |Written(xs)| == |xs|
    ensures Written(xs + [x]) == Written(xs) + (if x.Some? then [x.value] else [])
  {
    WrittenAppend(xs, [x]);
    assert [x][1..] == [];
  }

  /** Flattening splits at any position of the outer sequence. */
  lemma {:induction false} FlattenSplit<T>(xss: seq<seq<T>>, n: nat)
    requires n <= |xss|
    ensures Flatten(xss) == Flatten(xss[..n]) + Flatten(xss[n..])
    decreases |xss|
  {
    if n < |xss| {
      var init := xss[..|xss| - 1];
      FlattenSplit(init, n);
      assert init[..n] == xss[..n];
      assert xss[n..][..|xss[n..]| - 1] == init[n..];
    } else {
      assert xss[..n] == xss;
      assert xss[n..] == [];
    }
  }

  /** Item `i` after items that all succeeded: its row is appended, or it
      is the failure that stops the loop for good. */
  lemma WrittenStep<R>(xs: seq<Option<R>>, i: nat)
    requires i < |xs| && |Written(xs[..i])| == i
    ensures xs[i].Some? ==> Written(xs[..i + 1]) == Written(xs[..i]) + [xs[i].value] && |Written(xs[..i + 1])| == i + 1
    ensures xs[i].None? ==> Written(xs) == Written(xs[..i]) && |Written(xs)| < |xs|
  {
    assert xs[..i + 1] == xs[..i] + [xs[i]];
    WrittenSnoc(xs[..i], xs[i]);
    if xs[i].None? {
      WrittenAppend(xs[..i + 1], xs[i + 1..]);
      assert xs == xs[..i + 1] + xs[i + 1..];
    }
  }

  /** Group `id` after groups whose items all succeeded: its rows are
      appended; when one of its items fails, nothing more is written. */
  lemma FlattenStep<R>(xss: seq<seq<Option<R>>>, id: nat)
    requires id < |xss| && |Written(Flatten(xss[..id]))| == |Flatten(xss[..id])|
    ensures Written(Flatten(xss[..id + 1])) == Written(Flatten(xss[..id])) + Written(xss[id])
    ensures |Written(Flatten(xss[..id + 1]))| == |Flatten(xss[..id + 1])| <==> |Written(xss[id])| == |xss[id]|
    ensures |Written(xss[id])| < |xss[id]| ==>
      Written(Flatten(xss)) == Written(Flatten(xss[..id + 1])) && |Written(Flatten(xss))| < |Flatten(xss)|
  {
    assert xss[..id + 1][..id] == xss[..id];
    WrittenAppend(Flatten(xss[..id]), xss[id]);
    if |Written(xss[id])| < |xss[id]| {
      FlattenSplit(xss, id + 1);
      WrittenAppend(Flatten(xss[..id + 1]), Flatten(xss[id + 1..]));
    }
  }
}
