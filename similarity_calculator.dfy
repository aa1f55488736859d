/** `SimilarityCalculator` (taisti_linker/similarity_calculator.py) and its
    older copy in entity_linker/similarity_calculator.py, whose `jaccard`,
    `anygrams`, `wordnet`, `_penn_to_wn` and `_tagged_to_synset` are the same
    code as `_jaccard`, `_everygrams`, `_wordnet`, `_penn_to_wn` and
    `_tagged_to_synset` here. */
module SimilarityCalculator {
  import opened Wrappers
  import opened Strings
  import opened TextProcessor
  import SetSimilarity

  datatype SimilarityType = Jaccard | Everygram | Wordnet

  /** `similarity_id_to_type`: the selector is lower-cased, then 'e' and 'w' pick their metric and anything else picks Jaccard. */
  function SimilarityIdToType(id: string): (t: SimilarityType)
    ensures t == Everygram <==> id == "e" || id == "E"
    ensures t == Wordnet <==> id == "w" || id == "W"
    ensures t == Jaccard <==> id !in {"e", "E", "w", "W"}
  {
    var lowered := Lower(id);
    if lowered == "e" then Everygram
    else if lowered == "w" then Wordnet
    else Jaccard
  }

  /** `_jaccard` / `jaccard`: the guarded Jaccard ratio of the normalized token sets. */
  function JaccardSimilarity(ling: Linguistics, a: string, b: string): real {
    SetSimilarity.Ratio(TokenSet(Normalize(ling, a)), TokenSet(Normalize(ling, b)))
  }

  /** `calculate`: every metric tag is dispatched to the Jaccard similarity. */
  function Calculate(ling: Linguistics, metric: SimilarityType, a: string, b: string): (r: real)
    ensures r == JaccardSimilarity(ling, a, b)
    ensures 0.0 <= r <= 1.0
  {
    match metric
    case Jaccard => JaccardSimilarity(ling, a, b)
    case Everygram => JaccardSimilarity(ling, a, b)
    case Wordnet => JaccardSimilarity(ling, a, b)
  }

  /** The Jaccard similarity is 0 when a text normalizes to no tokens, lies in
      [0, 1], is symmetric, and is 1 exactly when both token sets are the same nonempty set. */
  lemma JaccardProperties(ling: Linguistics, a: string, b: string)
    ensures var A, B := TokenSet(Normalize(ling, a)), TokenSet(Normalize(ling, b));
      && (A == {} || B == {} ==> JaccardSimilarity(ling, a, b) == 0.0)
      && 0.0 <= JaccardSimilarity(ling, a, b) <= 1.0
      && JaccardSimilarity(ling, a, b) == JaccardSimilarity(ling, b, a)
      && (JaccardSimilarity(ling, a, b) == 1.0 <==> A == B && A != {})
  {
    var A, B := TokenSet(Normalize(ling, a)), TokenSet(Normalize(ling, b));
    SetSimilarity.RatioSymmetric(A, B);
    SetSimilarity.RatioOneIff(A, B);
  }

  /** Where the unguarded `TextProcessor.similarity` succeeds, the guarded Jaccard similarity gives the same value. */
  lemma JaccardExtendsSimilarity(ling: Linguistics, a: string, b: string)
    ensures Similarity(ling, a, b).Success? ==> Similarity(ling, a, b).value == JaccardSimilarity(ling, a, b)
    ensures Similarity(ling, a, b).Failure? ==> JaccardSimilarity(ling, a, b) == 0.0
  {
    SimilarityFailsIff(ling, a, b);
  }

  // ---------------------------------------------------------------------
  // Everygrams

  /** NLTK's `everygrams(tokens)` as a set: every contiguous nonempty run of tokens. */
  function EverygramSet(tokens: seq<string>): set<seq<string>> {
    set i, j | 0 <= i < j <= |tokens| :: tokens[i..j]
  }

  /** There are no everygrams exactly when there are no tokens, and the
      one-token everygrams are exactly the tokens. */
  lemma EverygramSetShape(tokens: seq<string>)
    ensures EverygramSet(tokens) == {} <==> tokens == []
    ensures forall t :: [t] in EverygramSet(tokens) <==> t in tokens
  {
    if tokens != [] {
      assert tokens[0..1] in EverygramSet(tokens);
    }
    forall t ensures [t] in EverygramSet(tokens) <==> t in tokens {
      if t in tokens {
        var k :| 0 <= k < |tokens| && tokens[k] == t;
        assert tokens[k..k + 1] == [t];
      }
      if [t] in EverygramSet(tokens) {
        var i, j :| 0 <= i < j <= |tokens| && tokens[i..j] == [t];
        assert tokens[i] == t;
      }
    }
  }

  /** `_everygrams` / `anygrams`: the guarded Jaccard ratio over the everygram sets of the normalized token lists. */
  function EverygramSimilarity(ling: Linguistics, a: string, b: string): real {
    SetSimilarity.Ratio(EverygramSet(Words(Normalize(ling, a))), EverygramSet(Words(Normalize(ling, b))))
  }

  /** The everygram similarity is 0 when a text normalizes to no tokens, lies in [0, 1] and is symmetric. */
  lemma EverygramProperties(ling: Linguistics, a: string, b: string)
    ensures Words(Normalize(ling, a)) == [] || Words(Normalize(ling, b)) == [] ==> EverygramSimilarity(ling, a, b) == 0.0
    ensures 0.0 <= EverygramSimilarity(ling, a, b) <= 1.0
    ensures EverygramSimilarity(ling, a, b) == EverygramSimilarity(ling, b, a)
  {
    var A, B := EverygramSet(Words(Normalize(ling, a))), EverygramSet(Words(Normalize(ling, b)));
    EverygramSetShape(Words(Normalize(ling, a)));
    EverygramSetShape(Words(Normalize(ling, b)));
    SetSimilarity.RatioSymmetric(A, B);
  }

  // ---------------------------------------------------------------------
  // WordNet helpers

  /** `_penn_to_wn`: Penn Treebank tags starting with N, V, J, R become WordNet's n, v, a, r. */
  function PennToWn(tag: string): (pos: Option<char>)
    ensures pos.Some? <==> tag != [] && tag[0] in {'N', 'V', 'J', 'R'}
    ensures pos.Some? ==> pos.value in {'n', 'v', 'a', 'r'}
  {
    if StartsWith(tag, "N") then Some('n')
    else if StartsWith(tag, "V") then Some('v')
    else if StartsWith(tag, "J") then Some('a')
    else if StartsWith(tag, "R") then Some('r')
    else None
  }

  /** The WordNet tag determines the initial of the Penn tag it came from. */
  lemma PennToWnInitial(tag: string)
    requires PennToWn(tag).Some?
    ensures tag[0] == match PennToWn(tag).value
      case 'n' => 'N' case 'v' => 'V' case 'a' => 'J' case _ => 'R'
  {
  }

  /** `_tagged_to_synset`: the first synset WordNet lists for the word under
      its WordNet tag; None when the tag has none or WordNet lists nothing
      (the caught `IndexError`). */
  function TaggedToSynset<S>(word: string, tag: string, synsets: (string, char) -> seq<S>): (r: Option<S>)
    ensures PennToWn(tag).None? ==> r.None?
    ensures r.Some? ==> PennToWn(tag).Some? && |synsets(word, PennToWn(tag).value)| > 0
                        && r.value == synsets(word, PennToWn(tag).value)[0]
  {
    match PennToWn(tag)
    case None => None
    case Some(pos) => if synsets(word, pos) == [] then None else Some(synsets(word, pos)[0])
  }

  /** `max` of a list of path similarities, None standing for a similarity
      WordNet cannot compute: an empty list raises ValueError, a single
      element is returned without any comparison, and otherwise a None
      anywhere is compared with something and raises TypeError. */
  function PyMax(xs: seq<Option<real>>): Result<Option<real>> {
    if xs == [] then Failure(ValueError)
    else if |xs| == 1 then Success(xs[0])
    else if exists i :: 0 <= i < |xs| && xs[i].None? then Failure(TypeError)
    else Success(Some(MaxKnown(xs)))
  }

  /** The largest value of a nonempty list of known similarities. */
  function MaxKnown(xs: seq<Option<real>>): real
    requires xs != [] && forall i :: 0 <= i < |xs| ==> xs[i].Some?
    decreases |xs|
  {
    var last := xs[|xs| - 1].value;
    if |xs| == 1 then last
    else
      var m := MaxKnown(xs[..|xs| - 1]);
      if last > m then last else m
  }

  lemma {:induction false} MaxKnownIsMax(xs: seq<Option<real>>) returns (k: nat)
    requires xs != [] && forall i :: 0 <= i < |xs| ==> xs[i].Some?
    ensures k < |xs| && xs[k].value == MaxKnown(xs)
    ensures forall i :: 0 <= i < |xs| ==> xs[i].value <= MaxKnown(xs)
    decreases |xs|
  {
    var n := |xs| - 1;
    if n == 0 {
      k := 0;
    } else {
      var init := xs[..n];
      k := MaxKnownIsMax(init);
      assert init[k] == xs[k];
      if xs[n].value > MaxKnown(init) {
        k := n;
      }
      forall i | 0 <= i < |xs| ensures xs[i].value <= MaxKnown(xs) {
        if i < n {
          assert init[i] == xs[i];
        }
      }
    }
  }

  /** `max` fails with ValueError exactly on the empty list and with
      TypeError exactly when there are two or more similarities, one of them
      unknown; otherwise it returns a largest similarity, or None for the
      single unknown one. */
  lemma PyMaxCharacterized(xs: seq<Option<real>>)
    ensures PyMax(xs) == Failure(ValueError) <==> xs == []
    ensures PyMax(xs) == Failure(TypeError) <==> |xs| >= 2 && exists i :: 0 <= i < |xs| && xs[i].None?
    ensures PyMax(xs) == Success(None) <==> xs == [None]
    ensures PyMax(xs).Success? && PyMax(xs).value.Some? ==>
      && (exists i :: 0 <= i < |xs| && xs[i] == PyMax(xs).value)
      && forall i :: 0 <= i < |xs| && xs[i].Some? ==> xs[i].value <= PyMax(xs).value.value
  {
    if |xs| >= 2 && forall i :: 0 <= i < |xs| ==> xs[i].Some? {
      var k := MaxKnownIsMax(xs);
      assert xs[k] == PyMax(xs).value;
    }
  }

  /** The best score of each synset of the first text, in order, or the
      error of the first `max` that raises. */
  function Bests(sims: seq<seq<Option<real>>>): Result<seq<Option<real>>>
    decreases |sims|
  {
    if sims == [] then Success([])
    else match Bests(sims[..|sims| - 1])
      case Failure(e) => Failure(e)
      case Success(bests) =>
        match PyMax(sims[|sims| - 1])
        case Failure(e) => Failure(e)
        case Success(best) => Success(bests + [best])
  }

  lemma {:induction false} BestsFailurePersists(sims: seq<seq<Option<real>>>, k: nat)
    requires k <= |sims| && Bests(sims[..k]).Failure?
    ensures Bests(sims) == Bests(sims[..k])
    decreases |sims|
  {
    if k < |sims| {
      var n := |sims| - 1;
      assert sims[..n][..k] == sims[..k];
      BestsFailurePersists(sims[..n], k);
    } else {
      assert sims[..k] == sims;
    }
  }

  /** The best scores are the `max` of each synset's similarities when no
      `max` raises; otherwise the error is that of the first `max` that
      raises, at the returned position. */
  lemma {:induction false} BestsCharacterized(sims: seq<seq<Option<real>>>) returns (k: nat)
    ensures Bests(sims).Success? <==> forall i :: 0 <= i < |sims| ==> PyMax(sims[i]).Success?
    ensures Bests(sims).Success? ==>
      |Bests(sims).value| == |sims| && forall i :: 0 <= i < |sims| ==> Bests(sims).value[i] == PyMax(sims[i]).value
    ensures Bests(sims).Failure? ==>
      && k < |sims| && PyMax(sims[k]) == Failure(Bests(sims).error)
      && forall i :: 0 <= i < k ==> PyMax(sims[i]).Success?
    decreases |sims|
  {
    k := 0;
    if sims != [] {
      var n := |sims| - 1;
      var init := sims[..n];
      k := BestsCharacterized(init);
      forall i | 0 <= i < n ensures init[i] == sims[i] {
      }
      if Bests(init).Success? && PyMax(sims[n]).Failure? {
        k := n;
      }
    }
  }

  /** The number of computable best scores. */
  function CountKnown(bests: seq<Option<real>>): nat
    decreases |bests|
  {
    if bests == [] then 0
    else CountKnown(bests[..|bests| - 1]) + (if bests[|bests| - 1].Some? then 1 else 0)
  }

  /** The sum of the computable best scores. */
  function SumKnown(bests: seq<Option<real>>): real
    decreases |bests|
  {
    if bests == [] then 0.0
    else SumKnown(bests[..|bests| - 1]) + (if bests[|bests| - 1].Some? then bests[|bests| - 1].value else 0.0)
  }

  /** The scoring loop of `_wordnet` / `wordnet`, given for each synset of the
      first text its path similarities to the synsets of the second (None
      where WordNet cannot compute one): the first `max` that raises ends the
      loop with its error, and otherwise `score /= count` divides by zero
      when no best score was computable. */
  method AverageBestScores(sims: seq<seq<Option<real>>>) returns (r: Result<real>)
    ensures Bests(sims).Failure? ==> r == Failure(Bests(sims).error)
    ensures Bests(sims).Success? ==> (r.Failure? <==> CountKnown(Bests(sims).value) == 0)
    ensures Bests(sims).Success? && r.Failure? ==> r.error == ZeroDivisionError
    ensures Bests(sims).Success? && r.Success? ==>
      r.value == SumKnown(Bests(sims).value) / (CountKnown(Bests(sims).value) as real)
  {
    var score, count := 0.0, 0;
    var i := 0;
    while i < |sims|
      invariant 0 <= i <= |sims|
      invariant Bests(sims[..i]).Success?
      invariant score == SumKnown(Bests(sims[..i]).value)
      invariant count == CountKnown(Bests(sims[..i]).value)
    {
      assert sims[..i + 1][..i] == sims[..i];
      var bestScore := PyMax(sims[i]);
      if bestScore.Failure? {
        r := Failure(bestScore.error);
        BestsFailurePersists(sims, i + 1);
        return;
      }
      var bests := Bests(sims[..i]).value;
      assert Bests(sims[..i + 1]).value == bests + [bestScore.value];
      assert (bests + [bestScore.value])[..|bests|] == bests;
      if bestScore.value.Some? {
        score := score + bestScore.value.value;
        count := count + 1;
      }
      i := i + 1;
    }
    assert sims[..i] == sims;
    if count == 0 {
      r := Failure(ZeroDivisionError);
    } else {
      r := Success(score / count as real);
    }
  }

  predicate ScoresInUnitRange(bests: seq<Option<real>>) {
    forall i :: 0 <= i < |bests| && bests[i].Some? ==> 0.0 <= bests[i].value <= 1.0
  }

  lemma {:induction false} SumKnownBounds(bests: seq<Option<real>>)
    requires ScoresInUnitRange(bests)
    ensures 0.0 <= SumKnown(bests) <= CountKnown(bests) as real
    decreases |bests|
  {
    if bests != [] {
      SumKnownBounds(bests[..|bests| - 1]);
    }
  }

  /** When every computable score lies in [0, 1], so does their average. */
  lemma AverageInUnitRange(bests: seq<Option<real>>)
    requires ScoresInUnitRange(bests)
    requires CountKnown(bests) > 0
    ensures 0.0 <= SumKnown(bests) / (CountKnown(bests) as real) <= 1.0
  {
    SumKnownBounds(bests);
  }
}
