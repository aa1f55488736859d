/** The label-to-IRI dictionary of entity_linker.py: labels written in
    groups, each group's labels all mapped to one IRI, later writes
    overwriting earlier ones. */
module LabelToIriMap {
  import opened Seqs
  import opened OrderedMap

  /** The dictionary `get_label_to_iri_mapping` returns. */
  type LabelToIri = OrderedMap<string, string>

  /** `label_to_iri[label] = iri` for each of `labels`, in order. */
  function PutAll(m: LabelToIri, labels: seq<string>, iri: string): (r: LabelToIri)
    requires m.Valid()
    ensures r.Valid()
    decreases |labels|
  {
    if labels == [] then m else PutAll(m, labels[..|labels| - 1], iri).Put(labels[|labels| - 1], iri)
  }

  /** The map part of `PutAll`: each write is a map update. */
  function PutAllMap(values: map<string, string>, labels: seq<string>, iri: string): map<string, string>
    decreases |labels|
  {
    if labels == [] then values else PutAllMap(values, labels[..|labels| - 1], iri)[labels[|labels| - 1] := iri]
  }

  lemma {:induction false} PutAllMapOf(m: LabelToIri, labels: seq<string>, iri: string)
    requires m.Valid()
    ensures PutAll(m, labels, iri).values == PutAllMap(m.values, labels, iri)
    decreases |labels|
  {
    if labels != [] {
      PutAllMapOf(m, labels[..|labels| - 1], iri);
    }
  }

  lemma {:induction false} PutAllMapValues(values: map<string, string>, labels: seq<string>, iri: string, k: string)
    ensures k in PutAllMap(values, labels, iri) <==> k in values || k in labels
    ensures k in labels ==> PutAllMap(values, labels, iri)[k] == iri
    ensures k !in labels && k in values ==> PutAllMap(values, labels, iri)[k] == values[k]
    decreases |labels|
  {
    if labels != [] {
      var n := |labels| - 1;
      PutAllMapValues(values, labels[..n], iri, k);
      assert labels == labels[..n] + [labels[n]];
    }
  }

  /** After the writes, the keys are the old keys and the labels; a label
      maps to the IRI, and any other key keeps its value. */
  lemma PutAllValues(m: LabelToIri, labels: seq<string>, iri: string, k: string)
    requires m.Valid()
    ensures k in PutAll(m, labels, iri).values <==> k in m.values || k in labels
    ensures k in labels ==> PutAll(m, labels, iri).values[k] == iri
    ensures k !in labels && k in m.values ==> PutAll(m, labels, iri).values[k] == m.values[k]
  {
    PutAllMapOf(m, labels, iri);
    PutAllMapValues(m.values, labels, iri, k);
  }

  /** The labels one descendant writes, and the IRI it writes them with. */
  datatype LabelGroup = LabelGroup(labels: seq<string>, iri: string)

  /** The dictionary after writing the groups in order. */
  function MappingOf(groups: seq<LabelGroup>): (m: LabelToIri)
    ensures m.Valid()
    decreases |groups|
  {
    if groups == [] then Empty()
    else
      var g := groups[|groups| - 1];
      PutAll(MappingOf(groups[..|groups| - 1]), g.labels, g.iri)
  }

  /** Writing one more group: its labels now hold its IRI, the other keys are unchanged. */
  lemma MappingStep(groups: seq<LabelGroup>, k: string)
    requires groups != []
    ensures var last := groups[|groups| - 1];
      var prev := MappingOf(groups[..|groups| - 1]);
      && (k in MappingOf(groups).values <==> k in prev.values || k in last.labels)
      && (k in last.labels ==> MappingOf(groups).values[k] == last.iri)
      && (k !in last.labels && k in prev.values ==> MappingOf(groups).values[k] == prev.values[k])
  {
    var n := |groups| - 1;
    PutAllValues(MappingOf(groups[..n]), groups[n].labels, groups[n].iri, k);
  }

  /** Writing the groups up to `i` and then group `i`. */
  lemma MappingPrefixStep(groups: seq<LabelGroup>, i: nat)
    requires i < |groups|
    ensures MappingOf(groups[..i + 1]) == PutAll(MappingOf(groups[..i]), groups[i].labels, groups[i].iri)
  {
    assert groups[..i + 1][..i] == groups[..i];
  }

  /** Each key holds the IRI of the LAST group, at position `j`, that lists it. */
  lemma {:induction false} MappingLastWins(groups: seq<LabelGroup>, k: string) returns (j: nat)
    requires k in MappingOf(groups).values
    ensures j < |groups| && k in groups[j].labels
    ensures MappingOf(groups).values[k] == groups[j].iri
    ensures forall i :: j < i < |groups| ==> k !in groups[i].labels
    decreases |groups|
  {
    var n := |groups| - 1;
    var init := groups[..n];
    MappingStep(groups, k);
    if k in groups[n].labels {
      j := n;
    } else {
      j := MappingLastWins(init, k);
      assert init[j] == groups[j];
      forall i | j < i < |groups| ensures k !in groups[i].labels {
        if i < n {
          assert init[i] == groups[i];
        }
      }
    }
  }

  /** A label is a key exactly when some group lists it. */
  lemma {:induction false} MappingKeys(groups: seq<LabelGroup>, k: string)
    ensures k in MappingOf(groups).values <==> exists i :: 0 <= i < |groups| && k in groups[i].labels
    decreases |groups|
  {
    if groups != [] {
      var n := |groups| - 1;
      var init := groups[..n];
      MappingKeys(init, k);
      MappingStep(groups, k);
      if exists i :: 0 <= i < |groups| && k in groups[i].labels {
        var i :| 0 <= i < |groups| && k in groups[i].labels;
        if i < n {
          assert init[i] == groups[i];
        }
      }
      if exists i :: 0 <= i < n && k in init[i].labels {
        var i :| 0 <= i < n && k in init[i].labels;
        assert init[i] == groups[i];
      }
    }
  }
}

/** The first linker, entity_linker.py at the repository root: a dictionary
    from every possible label of the FoodOn food-product descendants to its
    IRI, and `link` scoring each label with the unguarded
    `TextComparator.similarity`, the earlier of equal scores winning. A label
    and a text that both normalize to no words make `similarity` divide by
    zero, and the error escapes `link` and `link_all`. */
module RootLinker {
  import opened Wrappers
  import opened Seqs
  import opened TextProcessor
  import opened OrderedMap
  import opened OntologyParser
  import opened BestMatch
  import opened Commons
  import opened Report
  import SimilarityCalculator
  import opened LabelToIriMap
  import opened Halting

  /** `LabelWithIRI` of this linker: a label and its IRI, without a normalized form. */
  datatype LabelIri = LabelIri(text: string, iri: string)

  // ---------------------------------------------------------------------
  // The label-to-IRI dictionary

  /** The groups the descendants write: each one's possible labels and its IRI. */
  function Groups(nodes: seq<Node>): (groups: seq<LabelGroup>)
    ensures |groups| == |nodes|
    ensures forall i :: 0 <= i < |nodes| ==> groups[i] == LabelGroup(PossibleLabelsOf(nodes[i]), nodes[i].iri)
  {
    seq(|nodes|, i requires 0 <= i < |nodes| => LabelGroup(PossibleLabelsOf(nodes[i]), nodes[i].iri))
  }

  /** The dictionary `get_label_to_iri_mapping` builds from the descendants. */
  function LabelToIriMapping(nodes: seq<Node>): (m: LabelToIri)
    ensures m.Valid()
  {
    MappingOf(Groups(nodes))
  }

  /** The keys are exactly the possible labels of the descendants (each
      one's best label and synonyms), and each key holds the IRI of the
      LAST descendant that has it as a possible label. */
  lemma LabelToIriCharacterized(nodes: seq<Node>, k: string)
    ensures k in LabelToIriMapping(nodes).values <==> exists i :: 0 <= i < |nodes| && k in PossibleLabelsOf(nodes[i])
    ensures k in LabelToIriMapping(nodes).values ==>
      exists j :: 0 <= j < |nodes| && k in PossibleLabelsOf(nodes[j])
        && LabelToIriMapping(nodes).values[k] == nodes[j].iri
        && forall i :: j < i < |nodes| ==> k !in PossibleLabelsOf(nodes[i])
  {
    var groups := Groups(nodes);
    MappingKeys(groups, k);
    if k in MappingOf(groups).values {
      var j := MappingLastWins(groups, k);
      assert groups[j] == LabelGroup(PossibleLabelsOf(nodes[j]), nodes[j].iri);
    }
  }

  /** `get_label_to_iri_mapping`: every possible label of every descendant
      of the food-product root, mapped to the descendant's IRI, later
      descendants overwriting earlier ones. */
  method GetLabelToIriMapping(foodDescendants: seq<Node>) returns (labelToIri: LabelToIri)
    ensures labelToIri == LabelToIriMapping(foodDescendants)
    ensures labelToIri.Valid()
  {
    labelToIri := Empty();
    ghost var groups := Groups(foodDescendants);
    for i := 0 to |foodDescendants|
      invariant labelToIri == MappingOf(groups[..i])
    {
      var c := foodDescendants[i];
      var labels := PossibleLabels(c);
      MappingPrefixStep(groups, i);
      labelToIri := PutLabels(labelToIri, labels, c.iri);
    }
    assert groups[..|groups|] == groups;
  }

  /** The inner loop of `get_label_to_iri_mapping`: one descendant's labels written with its IRI. */
  method PutLabels(m: LabelToIri, labels: seq<string>, iri: string) returns (r: LabelToIri)
    requires m.Valid()
    ensures r == PutAll(m, labels, iri)
  {
    r := m;
    for j := 0 to |labels|
      invariant r == PutAll(m, labels[..j], iri)
    {
      assert labels[..j + 1][..j] == labels[..j];
      r := r.Put(labels[j], iri);
    }
    assert labels[..|labels|] == labels;
  }

  // ---------------------------------------------------------------------
  // Linking one text

  /** An `EntityLinker` after `__init__`: the threshold, the text comparator
      and the label-to-IRI dictionary. */
  datatype Linker = Linker(minAcceptableSimilarity: real, ling: Linguistics, labelToIri: LabelToIri)
  {
    predicate Valid() {
      labelToIri.Valid()
    }
  }

  /** `label_to_iri.items()`, in order. */
  function Pairs(m: LabelToIri): (items: seq<LabelIri>)
    requires m.Valid()
    ensures |items| == |m.keys|
    ensures forall i :: 0 <= i < |m.keys| ==> items[i] == LabelIri(m.keys[i], m.values[m.keys[i]])
  {
    seq(|m.keys|, i requires 0 <= i < |m.keys| => LabelIri(m.keys[i], m.values[m.keys[i]]))
  }

  /** The score of a label against the text, with 0 where `similarity` would divide by zero. */
  function Score(ling: Linguistics, text: string, name: string): (r: real)
    ensures 0.0 <= r <= 1.0
    ensures Similarity(ling, text, name).Success? ==> r == Similarity(ling, text, name).value
  {
    SimilarityCalculator.JaccardProperties(ling, text, name);
    SimilarityCalculator.JaccardExtendsSimilarity(ling, text, name);
    SimilarityCalculator.JaccardSimilarity(ling, text, name)
  }

  /** The scores of the labels against the text. */
  function GuardedScores(ling: Linguistics, text: string, labels: seq<string>): (scores: seq<real>)
    ensures |scores| == |labels|
    ensures forall i :: 0 <= i < |labels| ==> scores[i] == Score(ling, text, labels[i])
    ensures NonNegative(scores)
  {
    seq(|labels|, i requires 0 <= i < |labels| => Score(ling, text, labels[i]))
  }

  /** For each label, whether `similarity` raises on it. */
  function FailFlags(ling: Linguistics, text: string, labels: seq<string>): (flags: seq<bool>)
    ensures |flags| == |labels|
    ensures forall i :: 0 <= i < |labels| ==> flags[i] == Similarity(ling, text, labels[i]).Failure?
  {
    seq(|labels|, i requires 0 <= i < |labels| => Similarity(ling, text, labels[i]).Failure?)
  }

  /** Whether `similarity` raises for some label: the first label it raises on exists. */
  predicate SomeScoreFails(ling: Linguistics, text: string, labels: seq<string>) {
    FirstTrue(FailFlags(ling, text, labels)) < |labels|
  }

  /** `link` with the division guarded: the scan over the dictionary's
      items with the earlier of equal scores winning. */
  function LinkGuarded(linker: Linker, text: string, m: LabelToIri): Option<LabelIri>
    requires m.Valid()
  {
    Pick(Pairs(m), Scan(GuardedScores(linker.ling, text, m.keys), linker.minAcceptableSimilarity, FirstWins))
  }

  /** `link` as a value: the error `similarity` raises, or the guarded scan's pick. */
  function LinkSpec(linker: Linker, text: string, m: LabelToIri): Result<Option<LabelIri>>
    requires m.Valid()
  {
    if SomeScoreFails(linker.ling, text, m.keys) then Failure(ZeroDivisionError)
    else Success(LinkGuarded(linker, text, m))
  }

  /** `link`: the scan over `label_to_iri.items()`, stopped by the first
      `similarity` that divides by zero. */
  method Link(linker: Linker, text: string, labelToIri: LabelToIri) returns (result: Result<Option<LabelIri>>)
    requires labelToIri.Valid()
    ensures result == LinkSpec(linker, text, labelToIri)
  {
    var bestItem: Option<LabelIri> := None;
    var maxSimilarity := -1.0;
    var labels := labelToIri.keys;
    ghost var items := Pairs(labelToIri);
    ghost var scores := GuardedScores(linker.ling, text, labels);
    ghost var fails := FailFlags(linker.ling, text, labels);
    for i := 0 to |labels|
      invariant FirstTrue(fails) >= i
      invariant Scan(scores[..i], linker.minAcceptableSimilarity, FirstWins).score == maxSimilarity
      invariant bestItem == Pick(items, Scan(scores[..i], linker.minAcceptableSimilarity, FirstWins))
    {
      var name := labels[i];
      var iri := labelToIri.values[name];
      var similarity := Similarity(linker.ling, text, name);
      assert fails[i] == similarity.Failure?;
      FirstTrueAt(fails, i);
      if similarity.Failure? {
        result := Failure(similarity.error);
        return;
      }
      var currentLabelSimilarity := similarity.value;
      assert scores[i] == currentLabelSimilarity && items[i] == LabelIri(name, iri);
      ScanPickStep(items, scores, i, linker.minAcceptableSimilarity, FirstWins);
      if currentLabelSimilarity > linker.minAcceptableSimilarity && currentLabelSimilarity > maxSimilarity {
        maxSimilarity := currentLabelSimilarity;
        bestItem := Some(LabelIri(name, iri));
      }
    }
    assert scores[..|labels|] == scores;
    result := Success(bestItem);
  }

  /** `link` raises exactly when the text and some label both normalize to
      no words, and what it raises is ZeroDivisionError. */
  lemma LinkFailsIff(linker: Linker, text: string, m: LabelToIri)
    requires m.Valid()
    ensures LinkSpec(linker, text, m).Failure? <==>
      TokenSet(Normalize(linker.ling, text)) == {}
        && exists i :: 0 <= i < |m.keys| && TokenSet(Normalize(linker.ling, m.keys[i])) == {}
    ensures LinkSpec(linker, text, m).Failure? ==> LinkSpec(linker, text, m).error == ZeroDivisionError
  {
    forall i | 0 <= i < |m.keys|
      ensures Similarity(linker.ling, text, m.keys[i]).Failure? <==>
        TokenSet(Normalize(linker.ling, text)) == {} && TokenSet(Normalize(linker.ling, m.keys[i])) == {}
    {
      SimilarityFailsIff(linker.ling, text, m.keys[i]);
    }
    FirstTrueIsFirst(FailFlags(linker.ling, text, m.keys));
  }

  /** `r` is what the scan picks from the dictionary given the scores of its
      labels: nothing when no label scores above the threshold, else the
      FIRST label with the highest score, which is above the threshold,
      paired with its IRI. */
  predicate IsFirstBestPick(r: Option<LabelIri>, m: LabelToIri, scores: seq<real>, threshold: real)
    requires m.Valid() && |scores| == |m.keys|
  {
    && (r.None? <==> forall i :: 0 <= i < |scores| ==> scores[i] <= threshold)
    && (r.Some? ==>
          exists j :: 0 <= j < |scores|
            && r.value == LabelIri(m.keys[j], m.values[m.keys[j]])
            && scores[j] > threshold
            && (forall i :: 0 <= i < |scores| ==> scores[i] <= scores[j])
            && (forall i :: 0 <= i < j ==> scores[i] < scores[j]))
  }

  /** The pick over the label dictionary's pairs, for any scores of its labels. */
  lemma PickOfPairsIsBest(m: LabelToIri, scores: seq<real>, threshold: real)
    requires m.Valid() && |scores| == |m.keys| && NonNegative(scores)
    ensures IsFirstBestPick(Pick(Pairs(m), Scan(scores, threshold, FirstWins)), m, scores, threshold)
  {
    var j := PickIsBest(Pairs(m), scores, threshold, FirstWins);
  }

  /** What `link` returns when it does not raise: the first best pick over
      the scores of the labels against the text. */
  lemma LinkGuardedIsBest(linker: Linker, text: string, m: LabelToIri)
    requires m.Valid()
    ensures IsFirstBestPick(LinkGuarded(linker, text, m), m, GuardedScores(linker.ling, text, m.keys), linker.minAcceptableSimilarity)
  {
    PickOfPairsIsBest(m, GuardedScores(linker.ling, text, m.keys), linker.minAcceptableSimilarity);
  }

  /** The division by zero happens: with a tokenizer that finds no tokens in
      the empty string, linking the empty text against a dictionary holding
      the empty label raises. */
  lemma LinkOfEmptyTextFails(linker: Linker, m: LabelToIri)
    requires m.Valid() && "" in m.values
    requires linker.ling.tokenize("") == []
    ensures LinkSpec(linker, "", m) == Failure(ZeroDivisionError)
  {
    var i :| 0 <= i < |m.keys| && m.keys[i] == "";
    SimilarityOfEmptyTextsFails(linker.ling);
    var fails := FailFlags(linker.ling, "", m.keys);
    FirstTrueIsFirst(fails);
    assert fails[i];
  }

  // ---------------------------------------------------------------------
  // Linking every annotation

  /** The report link of a pick: its IRI and its label. */
  function LinkOf(item: Option<LabelIri>): Option<Report.Link> {
    match item
    case Some(i) => Some(Report.Link(i.iri, i.text))
    case None => None
  }

  /** The row of an annotation whose link does not raise: its data, then
      the linked IRI and label or "NONE", "NONE". */
  function RowOf(linker: Linker, a: Annotation): seq<string>
    requires linker.Valid()
  {
    AnnotationData(a, false)
      + (match LinkGuarded(linker, a.text, linker.labelToIri)
         case Some(i) => [i.iri, i.text]
         case None => ["NONE", "NONE"])
  }

  /** Whether linking the annotation's text raises. */
  predicate Raises(linker: Linker, a: Annotation)
    requires linker.Valid()
  {
    SomeScoreFails(linker.ling, a.text, linker.labelToIri.keys)
  }

  /** What `link_all` does with one annotation: writes its row, or stops. */
  function Outcome(linker: Linker, a: Annotation): Option<seq<string>>
    requires linker.Valid()
  {
    if Raises(linker, a) then None else Some(RowOf(linker, a))
  }

  /** `Outcome` as a function value. */
  function OutcomeOf(linker: Linker): Annotation -> Option<seq<string>>
    requires linker.Valid()
  {
    a => Outcome(linker, a)
  }

  /** The outcome of each annotation, in order. */
  function Outcomes(linker: Linker, anns: seq<Annotation>): (outs: seq<Option<seq<string>>>)
    requires linker.Valid()
    ensures |outs| == |anns|
  {
    MapSeq(OutcomeOf(linker), anns)
  }

  /** The outcomes of each document's annotations. */
  function DocOutcomes(linker: Linker, docs: seq<AnnotatedDoc>): (outs: seq<seq<Option<seq<string>>>>)
    requires linker.Valid()
    ensures |outs| == |docs|
  {
    MapEach(OutcomeOf(linker), AnnotationLists(docs))
  }

  lemma DocOutcomesAt(linker: Linker, docs: seq<AnnotatedDoc>, id: nat)
    requires linker.Valid() && id < |docs|
    ensures DocOutcomes(linker, docs)[id] == Outcomes(linker, docs[id].annotations)
  {
    MapEachAt(OutcomeOf(linker), AnnotationLists(docs), id);
    MapSeqAt((d: AnnotatedDoc) => d.annotations, docs, id);
  }

  /** The rows `link_all` has written when it stops. */
  function WrittenRows(linker: Linker, anns: seq<Annotation>): seq<seq<string>>
    requires linker.Valid()
  {
    Written(Outcomes(linker, anns))
  }

  /** The error `link_all` stops with, if any. */
  function Raised(linker: Linker, anns: seq<Annotation>): Option<Error>
    requires linker.Valid()
  {
    if |WrittenRows(linker, anns)| < |anns| then Some(ZeroDivisionError) else None
  }

  /** The body of `link_all`'s loop for one annotation: the row it writes,
      or the error its link raises. */
  method LinkRow(linker: Linker, annotation: Annotation) returns (row: seq<string>, error: Option<Error>)
    requires linker.Valid()
    ensures error.Some? ==> error.value == ZeroDivisionError
    ensures Outcome(linker, annotation) == if error.Some? then None else Some(row)
  {
    var annotationData := AnnotationData(annotation, false);
    var linked := Link(linker, annotation.text, linker.labelToIri);
    if linked.Failure? {
      row, error := [], Some(linked.error);
      return;
    }
    error := None;
    var linkedItem := linked.value;
    if linkedItem.Some? {
      row := annotationData + [linkedItem.value.iri, linkedItem.value.text];
    } else {
      row := annotationData + ["NONE", "NONE"];
    }
  }

  method LinkAt(linker: Linker, annotations: seq<Annotation>, annotationId: nat) returns (row: seq<string>, error: Option<Error>)
    requires linker.Valid() && annotationId < |annotations|
    ensures error.Some? ==> error.value == ZeroDivisionError
    ensures Outcomes(linker, annotations)[annotationId] == if error.Some? then None else Some(row)
  {
    row, error := LinkRow(linker, annotations[annotationId]);
    MapSeqAt(OutcomeOf(linker), annotations, annotationId);
  }

  /** The inner loop of `link_all` over one document's annotations: the
      rows written before it stops, appended, and whether it stopped. */
  method LinkDocument(linker: Linker, rows0: seq<seq<string>>, annotations: seq<Annotation>)
    returns (rows: seq<seq<string>>, error: Option<Error>)
    requires linker.Valid()
    ensures rows == rows0 + Written(Outcomes(linker, annotations))
    ensures error.None? <==> |Written(Outcomes(linker, annotations))| == |annotations|
    ensures error.Some? ==> error.value == ZeroDivisionError
  {
    ghost var outs := Outcomes(linker, annotations);
    rows := rows0;
    error := None;
    for annotationId := 0 to |annotations|
      invariant rows == rows0 + Written(outs[..annotationId])
      invariant |Written(outs[..annotationId])| == annotationId
    {
      var row, raised := LinkAt(linker, annotations, annotationId);
      WrittenStep(outs, annotationId);
      if raised.Some? {
        error := raised;
        return;
      }
      AppendAssoc(rows0, Written(outs[..annotationId]), [row]);
      rows := rows + [row];
    }
    assert outs[..|annotations|] == outs;
  }

  /** `link_all` without the CSV file: the rows written, in order, and the
      error that stopped it, if any. A row is written for every annotation
      up to the first one whose link raises. */
  method LinkAll(linker: Linker, docs: seq<AnnotatedDoc>) returns (rows: seq<seq<string>>, error: Option<Error>)
    requires linker.Valid()
    ensures rows == WrittenRows(linker, AllAnnotations(docs))
    ensures error == Raised(linker, AllAnnotations(docs))
  {
    ghost var docOuts := DocOutcomes(linker, docs);
    rows, error := [], None;
    for id := 0 to |docs|
      invariant rows == Written(Flatten(docOuts[..id]))
      invariant |rows| == |Flatten(docOuts[..id])|
      invariant error.None?
    {
      rows, error := LinkDocument(linker, rows, docs[id].annotations);
      DocOutcomesAt(linker, docs, id);
      FlattenStep(docOuts, id);
      if error.Some? {
        OutcomesOfAll(linker, docs);
        return;
      }
    }
    assert docOuts[..|docs|] == docOuts;
    OutcomesOfAll(linker, docs);
  }

  /** The outcomes of all the annotations are those of each document's, in order. */
  lemma OutcomesOfAll(linker: Linker, docs: seq<AnnotatedDoc>)
    requires linker.Valid()
    ensures Outcomes(linker, AllAnnotations(docs)) == Flatten(DocOutcomes(linker, docs))
  {
    AllAnnotationsFlatten(docs);
    MapFlatten(OutcomeOf(linker), AnnotationLists(docs));
  }

  /** What `link_all` does with one annotation is what `link` does with its
      text: the annotation stops the run exactly when `link` raises, and
      otherwise its row is its data followed by the IRI and label `link`
      returns, or by "NONE", "NONE", as the other linkers write it. */
  lemma OutcomeCharacterized(linker: Linker, a: Annotation)
    requires linker.Valid()
    ensures Outcome(linker, a).None? <==> LinkSpec(linker, a.text, linker.labelToIri).Failure?
    ensures Outcome(linker, a).Some? ==>
      Some(Outcome(linker, a).value) == RowFor(a, false, LinkOf(LinkSpec(linker, a.text, linker.labelToIri).value), false)
  {
  }

  /** What `link_all` leaves behind: a row for each annotation up to the
      first one that stops the run, that annotation's outcome being the
      failure; no error exactly when no annotation stops it. */
  lemma WrittenRowsCharacterized(linker: Linker, anns: seq<Annotation>)
    requires linker.Valid()
    ensures var rows, outs := WrittenRows(linker, anns), Outcomes(linker, anns);
      && |rows| <= |anns|
      && (forall k :: 0 <= k < |rows| ==> outs[k] == Some(rows[k]))
      && (|rows| < |anns| ==> outs[|rows|].None?)
      && (Raised(linker, anns).None? <==> forall k :: 0 <= k < |anns| ==> outs[k].Some?)
  {
    WrittenAt(Outcomes(linker, anns));
  }
}
