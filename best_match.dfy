/** The best-candidate scan shared by every `link` method: candidates are
    visited in order, the running best score starts at -1.0, and a candidate
    replaces the best when its score is strictly above the acceptance
    threshold and beats the best score. The linkers differ only in what
    "beats" means on a tie. */
module BestMatch {
  import opened Wrappers

  /** `>=` (the later of equal scores wins) or `>` (the earlier one stays). */
  datatype TieBreak = LastWins | FirstWins

  predicate Beats(tie: TieBreak, score: real, best: real) {
    match tie
    case LastWins => score >= best
    case FirstWins => score > best
  }

  /** The running state of the scan: the position of the best candidate so far and its score. */
  datatype Best = Best(index: Option<nat>, score: real)

  const Initial: Best := Best(None, -1.0)

  /** One step of the scan: candidate `i` with score `s` against the running best. */
  function Step(b: Best, i: nat, s: real, threshold: real, tie: TieBreak): Best {
    if s > threshold && Beats(tie, s, b.score) then Best(Some(i), s) else b
  }

  /** The scan over all the scores, in order. */
  function Scan(scores: seq<real>, threshold: real, tie: TieBreak): (b: Best)
    ensures b.index.Some? ==> b.index.value < |scores|
    decreases |scores|
  {
    if scores == [] then Initial
    else Step(Scan(scores[..|scores| - 1], threshold, tie), |scores| - 1, scores[|scores| - 1], threshold, tie)
  }

  /** Extending the scanned prefix by one score is one more step. */
  lemma ScanPrefixStep(scores: seq<real>, i: nat, threshold: real, tie: TieBreak)
    requires i < |scores|
    ensures Scan(scores[..i + 1], threshold, tie) == Step(Scan(scores[..i], threshold, tie), i, scores[i], threshold, tie)
  {
    assert scores[..i + 1][..i] == scores[..i];
  }

  /** The candidate at the scan's best position, if any. */
  function Pick<T>(items: seq<T>, b: Best): (r: Option<T>)
    requires b.index.Some? ==> b.index.value < |items|
    ensures r.Some? ==> r.value in items
  {
    match b.index
    case None => None
    case Some(j) => Some(items[j])
  }

  /** One step of a scan that keeps the picked candidate alongside: the
      candidate at `i` is picked exactly when its score is accepted. */
  lemma ScanPickStep<T>(items: seq<T>, scores: seq<real>, i: nat, threshold: real, tie: TieBreak)
    requires |scores| == |items| && i < |items|
    ensures var b := Scan(scores[..i], threshold, tie);
      var next := Scan(scores[..i + 1], threshold, tie);
      && (scores[i] > threshold && Beats(tie, scores[i], b.score) ==>
            next.score == scores[i] && Pick(items, next) == Some(items[i]))
      && (!(scores[i] > threshold && Beats(tie, scores[i], b.score)) ==>
            next.score == b.score && Pick(items, next) == Pick(items, b))
  {
    ScanPrefixStep(scores, i, threshold, tie);
  }

  predicate NonNegative(scores: seq<real>) {
    forall i :: 0 <= i < |scores| ==> scores[i] >= 0.0
  }

  /** What the scan picks, stated without the scan: nothing when no score
      clears the threshold, otherwise a maximal score above the threshold —
      the last maximal one under LastWins, the first under FirstWins. */
  predicate IsBest(scores: seq<real>, threshold: real, tie: TieBreak, b: Best) {
    match b.index
    case None => b.score == -1.0 && forall i :: 0 <= i < |scores| ==> scores[i] <= threshold
    case Some(j) =>
      && j < |scores|
      && b.score == scores[j]
      && scores[j] > threshold
      && (forall i :: 0 <= i < |scores| ==> scores[i] <= scores[j])
      && (tie == LastWins ==> forall i :: j < i < |scores| ==> scores[i] < scores[j])
      && (tie == FirstWins ==> forall i :: 0 <= i < j ==> scores[i] < scores[j])
  }

  /** The scan meets its description, for scores that are never negative. */
  lemma {:induction false} ScanIsBest(scores: seq<real>, threshold: real, tie: TieBreak)
    requires NonNegative(scores)
    ensures IsBest(scores, threshold, tie, Scan(scores, threshold, tie))
    decreases |scores|
  {
    if scores != [] {
      var init := scores[..|scores| - 1];
      var n := |scores| - 1;
      assert NonNegative(init) by {
        forall i | 0 <= i < |init| ensures init[i] >= 0.0 {
          assert init[i] == scores[i];
        }
      }
      ScanIsBest(init, threshold, tie);
      assert forall i :: 0 <= i < |init| ==> init[i] == scores[i];
    }
  }

  /** What the scan picks from the items: nothing exactly when no score
      clears the threshold, otherwise an item whose score is maximal and
      above the threshold, ties broken by the policy. */
  lemma PickIsBest<T>(items: seq<T>, scores: seq<real>, threshold: real, tie: TieBreak) returns (j: nat)
    requires |items| == |scores| && NonNegative(scores)
    ensures var r := Pick(items, Scan(scores, threshold, tie));
      && (r.None? <==> forall i :: 0 <= i < |scores| ==> scores[i] <= threshold)
      && (r.Some? ==>
            && j < |scores| && r.value == items[j]
            && scores[j] > threshold
            && (forall i :: 0 <= i < |scores| ==> scores[i] <= scores[j])
            && (tie == LastWins ==> forall i :: j < i < |scores| ==> scores[i] < scores[j])
            && (tie == FirstWins ==> forall i :: 0 <= i < j ==> scores[i] < scores[j]))
  {
    ScanIsBest(scores, threshold, tie);
    j := match Scan(scores, threshold, tie).index case Some(k) => k case None => 0;
  }

  /** The description has only one solution, so it is an independent
      definition of what the scan computes. */
  lemma IsBestUnique(scores: seq<real>, threshold: real, tie: TieBreak, b: Best, c: Best)
    requires IsBest(scores, threshold, tie, b) && IsBest(scores, threshold, tie, c)
    ensures b == c
  {
    if b.index.Some? && c.index.Some? {
      var j, k := b.index.value, c.index.value;
      assert scores[j] <= scores[k] && scores[k] <= scores[j];
    }
  }

  /** The two tie policies give different answers on two equal scores above the threshold. */
  lemma TiePoliciesDiffer()
    ensures Scan([0.8, 0.8], 0.5, LastWins).index == Some(1)
    ensures Scan([0.8, 0.8], 0.5, FirstWins).index == Some(0)
  {
    assert [0.8, 0.8][..1] == [0.8];
    assert [0.8][..0] == [];
  }
}
