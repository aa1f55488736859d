/** `TextProcessor` (entity_linker/text_processor.py), whose normalization is
    also `TextComparator.normalize_text` (entity_linker.py) and
    `normalize_name` (generate_kb.py).

    The first four steps of `normalize_text` are written out; the spaCy
    tokenizer, the Porter stemmer and spaCy's stopword list are an injected
    `Linguistics` capability. */
module TextProcessor {
  import opened Wrappers
  import opened Strings
  import SetSimilarity

  /** The linguistic resources normalization consumes: a stopword set, a
      tokenizer (spaCy's `nlp(text)`) and a stemmer (`PorterStemmer.stem`). */
  datatype Linguistics = Linguistics(
    stopwords: set<string>,
    tokenize: string -> seq<string>,
    stem: string -> string)

  // ---------------------------------------------------------------------
  // The regex steps

  /** `re.sub(r"[^a-zA-Z]", " ", text)`. */
  function LettersOnly(text: string): string {
    seq(|text|, i requires 0 <= i < |text| => if IsAsciiLetter(text[i]) then text[i] else ' ')
  }

  function DropLeadingWhitespace(s: string): (r: string)
    ensures |r| <= |s|
    ensures r == [] || !IsWhitespace(r[0])
    decreases |s|
  {
    if s != [] && IsWhitespace(s[0]) then DropLeadingWhitespace(s[1..]) else s
  }

  /** `re.sub(r"\s+", " ", text)`: each maximal run of whitespace becomes one space. */
  function CollapseWhitespace(s: string): string
    decreases |s|
  {
    if s == [] then []
    else if IsWhitespace(s[0]) then " " + CollapseWhitespace(DropLeadingWhitespace(s[1..]))
    else [s[0]] + CollapseWhitespace(s[1..])
  }

  /** Lines 14-16 of `normalize_text`: letters only, collapsed whitespace, lower case. */
  function RegexSteps(text: string): string {
    Lower(CollapseWhitespace(LettersOnly(text)))
  }

  predicate LowerLettersAndSpaces(s: string) {
    forall i :: 0 <= i < |s| ==> IsLowerLetter(s[i]) || s[i] == ' '
  }

  predicate NoDoubleSpace(s: string) {
    forall i :: 0 <= i < |s| - 1 ==> !(s[i] == ' ' && s[i + 1] == ' ')
  }

  predicate LettersAndSpaces(s: string) {
    forall i :: 0 <= i < |s| ==> IsAsciiLetter(s[i]) || s[i] == ' '
  }

  /** The characters of `s` that are not whitespace, in order. */
  function NonWhitespace(s: string): string
    decreases |s|
  {
    if s == [] then []
    else (if IsWhitespace(s[0]) then [] else [s[0]]) + NonWhitespace(s[1..])
  }

  /** The ASCII letters of `s`, in order. */
  function AsciiLetters(s: string): string
    decreases |s|
  {
    if s == [] then []
    else (if IsAsciiLetter(s[0]) then [s[0]] else []) + AsciiLetters(s[1..])
  }

  lemma {:induction false} DropLeadingWhitespaceKeeps(s: string)
    ensures NonWhitespace(DropLeadingWhitespace(s)) == NonWhitespace(s)
    ensures LettersAndSpaces(s) ==> LettersAndSpaces(DropLeadingWhitespace(s))
    decreases |s|
  {
    if s != [] && IsWhitespace(s[0]) {
      DropLeadingWhitespaceKeeps(s[1..]);
      assert LettersAndSpaces(s) ==> LettersAndSpaces(s[1..]) by {
        if LettersAndSpaces(s) {
          forall i | 0 <= i < |s[1..]| ensures IsAsciiLetter(s[1..][i]) || s[1..][i] == ' ' {
            assert s[1..][i] == s[i + 1];
          }
        }
      }
    }
  }

  /** Collapsing whitespace keeps every other character, yields letters and
      single spaces from letters and spaces, and never yields two spaces in a row. */
  lemma {:induction false} CollapseWhitespaceShape(s: string)
    ensures NonWhitespace(CollapseWhitespace(s)) == NonWhitespace(s)
    ensures LettersAndSpaces(s) ==> LettersAndSpaces(CollapseWhitespace(s))
    ensures NoDoubleSpace(CollapseWhitespace(s))
    ensures CollapseWhitespace(s) != [] && CollapseWhitespace(s)[0] == ' ' ==> IsWhitespace(s[0])
    decreases |s|
  {
    var r := CollapseWhitespace(s);
    if s != [] {
      var tail := s[1..];
      assert LettersAndSpaces(s) ==> LettersAndSpaces(tail) by {
        if LettersAndSpaces(s) {
          forall i | 0 <= i < |tail| ensures IsAsciiLetter(tail[i]) || tail[i] == ' ' {
            assert tail[i] == s[i + 1];
          }
        }
      }
      if IsWhitespace(s[0]) {
        var t := DropLeadingWhitespace(tail);
        DropLeadingWhitespaceKeeps(tail);
        CollapseWhitespaceShape(t);
        var c := CollapseWhitespace(t);
        assert r == " " + c;
        assert NonWhitespace(r) == NonWhitespace(c) by {
          assert r[1..] == c;
        }
        forall i | 0 <= i < |r| - 1 ensures !(r[i] == ' ' && r[i + 1] == ' ') {
          if i > 0 {
            assert r[i] == c[i - 1] && r[i + 1] == c[i];
          }
        }
        if LettersAndSpaces(s) {
          forall i | 0 <= i < |r| ensures IsAsciiLetter(r[i]) || r[i] == ' ' {
            if i > 0 {
              assert r[i] == c[i - 1];
            }
          }
        }
      } else {
        CollapseWhitespaceShape(tail);
        var c := CollapseWhitespace(tail);
        assert r == [s[0]] + c;
        assert r[1..] == c;
        assert NonWhitespace(r) == [s[0]] + NonWhitespace(c);
        forall i | 0 <= i < |r| - 1 ensures !(r[i] == ' ' && r[i + 1] == ' ') {
          if i > 0 {
            assert r[i] == c[i - 1] && r[i + 1] == c[i];
          }
        }
        if LettersAndSpaces(s) {
          forall i | 0 <= i < |r| ensures IsAsciiLetter(r[i]) || r[i] == ' ' {
            if i > 0 {
              assert r[i] == c[i - 1];
            }
          }
        }
      }
    }
  }

  lemma {:induction false} LettersOnlyShape(text: string)
    ensures LettersAndSpaces(LettersOnly(text))
    ensures NonWhitespace(LettersOnly(text)) == AsciiLetters(text)
    decreases |text|
  {
    if text != [] {
      LettersOnlyShape(text[1..]);
      assert LettersOnly(text)[1..] == LettersOnly(text[1..]);
    }
  }

  lemma {:induction false} LowerNonWhitespace(s: string)
    ensures NonWhitespace(Lower(s)) == Lower(NonWhitespace(s))
    decreases |s|
  {
    if s != [] {
      LowerNonWhitespace(s[1..]);
      assert Lower(s)[1..] == Lower(s[1..]);
      assert IsWhitespace(Lower(s)[0]) == IsWhitespace(s[0]);
      var n := NonWhitespace(s[1..]);
      if !IsWhitespace(s[0]) {
        assert Lower([s[0]] + n) == [AsciiLower(s[0])] + Lower(n);
      }
    }
  }

  /** After the regex steps the text holds only lower-case ASCII letters and
      single spaces, and its letters are exactly the input's ASCII letters,
      lower-cased, in order. */
  lemma RegexStepsShape(text: string)
    ensures LowerLettersAndSpaces(RegexSteps(text))
    ensures NoDoubleSpace(RegexSteps(text))
    ensures NonWhitespace(RegexSteps(text)) == Lower(AsciiLetters(text))
  {
    var l := LettersOnly(text);
    var c := CollapseWhitespace(l);
    LettersOnlyShape(text);
    CollapseWhitespaceShape(l);
    LowerNonWhitespace(c);
  }

  // ---------------------------------------------------------------------
  // Stopwords, tokenizing, stemming

  /** The tokens that are not stopwords, in order. */
  function FilterStopwords(tokens: seq<string>, stopwords: set<string>): (kept: seq<string>)
    ensures forall t :: t in kept <==> t in tokens && t !in stopwords
    decreases |tokens|
  {
    if tokens == [] then []
    else
      (if tokens[0] in stopwords then [] else [tokens[0]]) + FilterStopwords(tokens[1..], stopwords)
  }

  /** Line 17: `" ".join([t for t in text.split(" ") if t not in stopwords])`. */
  function StopwordStep(text: string, stopwords: set<string>): string {
    JoinWith(FilterStopwords(SplitOn(text, {' '}), stopwords), " ")
  }

  function Stems(ling: Linguistics, tokens: seq<string>): seq<string> {
    seq(|tokens|, i requires 0 <= i < |tokens| => ling.stem(tokens[i]))
  }

  /** `normalize_text`: regex steps, stopword removal, then the stems of the tokenizer's tokens joined by single spaces. */
  function Normalize(ling: Linguistics, text: string): string {
    var filtered := StopwordStep(RegexSteps(text), ling.stopwords);
    JoinWith(Stems(ling, ling.tokenize(filtered)), " ")
  }

  /** Every space-separated token of the text handed to the tokenizer is
      either empty or not a stopword: stopwords are gone before stemming. */
  lemma StopwordsRemovedBeforeStemming(text: string, stopwords: set<string>)
    ensures forall w :: w in SplitOn(StopwordStep(text, stopwords), {' '}) ==> w == "" || w !in stopwords
  {
    var kept := FilterStopwords(SplitOn(text, {' '}), stopwords);
    if kept != [] {
      SplitJoin(kept, ' ');
    } else {
      assert StopwordStep(text, stopwords) == "";
    }
  }

  /** With a stemmer whose stems are nonempty words, the whitespace tokens of
      the normalized text are exactly the stems of the tokenizer's tokens. */
  lemma NormalizeWords(ling: Linguistics, text: string)
    requires forall w :: ling.stem(w) != [] && NoWhitespace(ling.stem(w))
    ensures Words(Normalize(ling, text)) ==
            Stems(ling, ling.tokenize(StopwordStep(RegexSteps(text), ling.stopwords)))
  {
    var stems := Stems(ling, ling.tokenize(StopwordStep(RegexSteps(text), ling.stopwords)));
    WordsOfJoin(stems);
  }

  /** A one-letter lower-case word passes the regex steps and the stopword step unchanged unless it is a stopword. */
  lemma OneLetterWordSteps(c: char, stopwords: set<string>)
    requires 'a' <= c <= 'z'
    ensures RegexSteps([c]) == [c]
    ensures StopwordStep([c], stopwords) == if [c] in stopwords then "" else [c]
  {
    assert LettersOnly([c]) == [c];
    assert [c][1..] == [];
    assert CollapseWhitespace([c]) == [c];
    assert SplitOn([c], {' '}) == [[c]] by {
      SplitOnNoSeparator([c], {' '});
    }
    assert FilterStopwords([[c]], stopwords) == (if [c] in stopwords then [] else [[c]]) + FilterStopwords([], stopwords);
  }

  /** Normalization is not idempotent: when the stemmer maps a word to a
      stopword, the stem survives the first pass (stopwords are removed
      before stemming) and is removed by the second. */
  lemma NormalizeNotIdempotent()
    ensures var ling := Linguistics({"a"}, s => Words(s), w => if w == "b" then "a" else w);
      && Normalize(ling, "b") == "a"
      && Normalize(ling, Normalize(ling, "b")) == ""
  {
    var ling := Linguistics({"a"}, s => Words(s), w => if w == "b" then "a" else w);
    OneLetterWordSteps('b', ling.stopwords);
    OneLetterWordSteps('a', ling.stopwords);
    assert Words("b") == ["b"] by {
      assert "b"[1..] == [];
      assert "" + ['b'] == "b";
    }
    assert Stems(ling, ["b"]) == ["a"];
    assert Normalize(ling, "b") == "a";
    assert Words("") == [];
    assert Stems(ling, []) == [];
  }

  // ---------------------------------------------------------------------
  // Similarity

  /** `set(text.split())`. */
  function TokenSet(text: string): set<string> {
    set w | w in Words(text)
  }

  /** `TextProcessor.similarity` (and `TextComparator.similarity`): the
      Jaccard ratio of the normalized token sets, without an empty guard. */
  function Similarity(ling: Linguistics, a: string, b: string): Result<real> {
    SetSimilarity.UnguardedRatio(TokenSet(Normalize(ling, a)), TokenSet(Normalize(ling, b)))
  }

  /** `similarity` fails exactly when both texts normalize to no tokens, and
      otherwise equals the guarded `set_similarity` of the token sets. */
  lemma SimilarityFailsIff(ling: Linguistics, a: string, b: string)
    ensures Similarity(ling, a, b).Failure? <==>
            TokenSet(Normalize(ling, a)) == {} && TokenSet(Normalize(ling, b)) == {}
    ensures Similarity(ling, a, b).Success? ==>
            Similarity(ling, a, b).value ==
            SetSimilarity.Ratio(TokenSet(Normalize(ling, a)), TokenSet(Normalize(ling, b)))
  {
    SetSimilarity.UnguardedAgrees(TokenSet(Normalize(ling, a)), TokenSet(Normalize(ling, b)));
  }

  /** The empty text normalizes to the empty text whenever the tokenizer gives no token for it. */
  lemma NormalizeEmpty(ling: Linguistics)
    requires ling.tokenize("") == []
    ensures Normalize(ling, "") == ""
  {
    assert RegexSteps("") == "";
    assert SplitOn("", {' '}) == [""];
    var kept := FilterStopwords([""], ling.stopwords);
    assert kept == (if "" in ling.stopwords then [] else [""]) + FilterStopwords([], ling.stopwords);
    assert StopwordStep("", ling.stopwords) == "";
  }

  /** Comparing two empty texts divides by zero (a tokenizer gives no token for ""). */
  lemma SimilarityOfEmptyTextsFails(ling: Linguistics)
    requires ling.tokenize("") == []
    ensures Similarity(ling, "", "") == Failure(ZeroDivisionError)
  {
    NormalizeEmpty(ling);
    assert Words("") == [];
    assert TokenSet("") == {};
  }
}
