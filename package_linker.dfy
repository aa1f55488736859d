/** `EntityLinker` of entity_linker/entity_linker.py: one normalized label
    index for all categories, scored with `set_similarity` on the
    already-normalized texts, the later of equal scores winning. */
module PackageLinker {
  import opened Wrappers
  import opened Seqs
  import opened TextProcessor
  import opened OrderedMap
  import opened OntologyParser
  import opened BestMatch
  import opened Commons
  import opened Report
  import SetSimilarity

  /** An `EntityLinker` after `__init__`, with the label index it reads. */
  datatype Linker = Linker(minAcceptableSimilarity: real, ling: Linguistics, mapping: LabelIndex)
  {
    predicate Valid() {
      mapping.Valid()
    }
  }

  /** The score `link` gives an entry: `set_similarity` of the word sets of
      the normalized text and of the entry's normalized label. */
  function ItemScore(text: string, item: LabelWithIri): (r: real)
    ensures 0.0 <= r <= 1.0
  {
    SetSimilarity.Ratio(TokenSet(text), TokenSet(item.normalizedLabel))
  }

  function Scores(text: string, items: seq<LabelWithIri>): (scores: seq<real>)
    ensures |scores| == |items|
    ensures forall i :: 0 <= i < |items| ==> scores[i] == ItemScore(text, items[i])
  {
    seq(|items|, i requires 0 <= i < |items| => ItemScore(text, items[i]))
  }

  /** `link` as a value. */
  function LinkSpec(linker: Linker, text: string, index: LabelIndex): Option<LabelWithIri>
    requires index.Valid()
  {
    var items := index.Items();
    Pick(items, Scan(Scores(text, items), linker.minAcceptableSimilarity, LastWins))
  }

  /** `link`: the scan over the index's entries. */
  method Link(linker: Linker, text: string, normalizedLabelMapping: LabelIndex) returns (bestItem: Option<LabelWithIri>)
    requires normalizedLabelMapping.Valid()
    ensures bestItem == LinkSpec(linker, text, normalizedLabelMapping)
  {
    bestItem := None;
    var maxSimilarity := -1.0;
    var items := normalizedLabelMapping.Items();
    ghost var scores := Scores(text, items);
    for i := 0 to |items|
      invariant Scan(scores[..i], linker.minAcceptableSimilarity, LastWins).score == maxSimilarity
      invariant bestItem == Pick(items, Scan(scores[..i], linker.minAcceptableSimilarity, LastWins))
    {
      var item := items[i];
      var currentLabelSimilarity := SetSimilarity.Ratio(TokenSet(text), TokenSet(item.normalizedLabel));
      ScanPickStep(items, scores, i, linker.minAcceptableSimilarity, LastWins);
      if currentLabelSimilarity > linker.minAcceptableSimilarity && currentLabelSimilarity >= maxSimilarity {
        maxSimilarity := currentLabelSimilarity;
        bestItem := Some(LabelWithIri(item.text, item.iri, item.normalizedLabel));
      }
    }
    assert scores[..|items|] == scores;
  }

  /** Nothing is linked exactly when no entry scores above the threshold; a
      linked item is an entry of the index with the highest score, above
      the threshold and strictly above every later entry's. An entry whose
      normalized label has the text's word set scores 1, the highest
      possible, whenever that set is nonempty. */
  lemma LinkCharacterized(linker: Linker, text: string, index: LabelIndex)
    requires index.Valid()
    ensures var items := index.Items();
      && (LinkSpec(linker, text, index).None? <==>
            forall i :: 0 <= i < |items| ==> ItemScore(text, items[i]) <= linker.minAcceptableSimilarity)
      && (LinkSpec(linker, text, index).Some? ==>
            exists j :: 0 <= j < |items| && LinkSpec(linker, text, index).value == items[j]
              && ItemScore(text, items[j]) > linker.minAcceptableSimilarity
              && (forall i :: 0 <= i < |items| ==> ItemScore(text, items[i]) <= ItemScore(text, items[j]))
              && (forall i :: j < i < |items| ==> ItemScore(text, items[i]) < ItemScore(text, items[j])))
    ensures forall item: LabelWithIri :: TokenSet(item.normalizedLabel) == TokenSet(text) != {} ==> ItemScore(text, item) == 1.0
  {
    var items := index.Items();
    var scores := Scores(text, items);
    ScanIsBest(scores, linker.minAcceptableSimilarity, LastWins);
    forall item: LabelWithIri | TokenSet(item.normalizedLabel) == TokenSet(text) != {} ensures ItemScore(text, item) == 1.0 {
      SetSimilarity.RatioOneIff(TokenSet(text), TokenSet(item.normalizedLabel));
    }
  }

  /** The decision of `link_all` for one annotation: the entry stored under
      the normalized text, otherwise what `link` finds. */
  function Decide(linker: Linker, a: Annotation): Option<LabelWithIri>
    requires linker.Valid()
  {
    var normalized := Normalize(linker.ling, a.text);
    if normalized in linker.mapping.values then Some(linker.mapping.values[normalized])
    else LinkSpec(linker, normalized, linker.mapping)
  }

  /** The decision for one annotation, as `link_all` takes it. */
  method DecideLink(linker: Linker, annotation: Annotation) returns (linkedItem: Option<LabelWithIri>)
    requires linker.Valid()
    ensures linkedItem == Decide(linker, annotation)
  {
    var normalizedEntityText := Normalize(linker.ling, annotation.text);
    if normalizedEntityText in linker.mapping.values {
      linkedItem := Some(linker.mapping.values[normalizedEntityText]);
    } else {
      linkedItem := Link(linker, normalizedEntityText, linker.mapping);
    }
  }

  function LinkOf(item: Option<LabelWithIri>): Option<Report.Link> {
    match item
    case Some(i) => Some(Report.Link(i.iri, i.text))
    case None => None
  }

  /** The row of one annotation: its data, then its link's IRI and label or "NONE", "NONE". */
  function RowOf(linker: Linker, a: Annotation): seq<string>
    requires linker.Valid()
  {
    AnnotationData(a, false)
      + (match Decide(linker, a) case Some(i) => [i.iri, i.text] case None => ["NONE", "NONE"])
  }

  function RowOfLinker(linker: Linker): Annotation -> seq<string>
    requires linker.Valid()
  {
    a => RowOf(linker, a)
  }

  /** The report rows for the given annotations: one per annotation,
      without a source column, unlinked ones included. */
  function RowsOf(linker: Linker, anns: seq<Annotation>): (rows: seq<seq<string>>)
    requires linker.Valid()
    ensures |rows| == |anns|
  {
    MapSeq(RowOfLinker(linker), anns)
  }

  /** The body of `link_all`'s loop for one annotation: the row it writes. */
  method LinkRow(linker: Linker, annotation: Annotation) returns (row: seq<string>)
    requires linker.Valid()
    ensures row == RowOf(linker, annotation)
  {
    var linkedItem := DecideLink(linker, annotation);
    var annotationData := AnnotationData(annotation, false);
    if linkedItem.Some? {
      row := annotationData + [linkedItem.value.iri, linkedItem.value.text];
    } else {
      row := annotationData + ["NONE", "NONE"];
    }
  }

  /** The inner loop of `link_all`: the rows of one document's annotations, appended. */
  method LinkDocument(linker: Linker, rows0: seq<seq<string>>, annotations: seq<Annotation>)
    returns (rows: seq<seq<string>>)
    requires linker.Valid()
    ensures rows == rows0 + RowsOf(linker, annotations)
  {
    ghost var f := RowOfLinker(linker);
    rows := rows0;
    for annotationId := 0 to |annotations|
      invariant rows == rows0 + MapSeq(f, annotations[..annotationId])
    {
      var row := LinkRow(linker, annotations[annotationId]);
      ghost var before := MapSeq(f, annotations[..annotationId]);
      MapSeqPrefixStep(f, annotations, annotationId);
      assert row == f(annotations[annotationId]);
      AppendAssoc(rows0, before, [row]);
      rows := rows + [row];
    }
    assert annotations[..|annotations|] == annotations;
  }

  /** `link_all` without the CSV file: the rows it writes, in order. */
  method LinkAll(linker: Linker, docs: seq<AnnotatedDoc>) returns (rows: seq<seq<string>>)
    requires linker.Valid()
    ensures rows == RowsOf(linker, AllAnnotations(docs))
  {
    rows := [];
    for id := 0 to |docs|
      invariant rows == RowsOf(linker, AllAnnotations(docs[..id]))
    {
      AllAnnotationsStep(docs, id);
      MapSeqAppend(RowOfLinker(linker), AllAnnotations(docs[..id]), docs[id].annotations);
      rows := LinkDocument(linker, rows, docs[id].annotations);
    }
    assert docs[..|docs|] == docs;
  }

  /** The report has one row per annotation, and row k is the row the
      report format gives annotation k: its data followed by its link's IRI
      and label, or by "NONE", "NONE". */
  lemma ReportRowsShape(linker: Linker, docs: seq<AnnotatedDoc>)
    requires linker.Valid()
    ensures var anns := AllAnnotations(docs);
      var rows := RowsOf(linker, anns);
      && |rows| == |anns|
      && forall k :: 0 <= k < |anns| ==>
           Some(rows[k]) == RowFor(anns[k], false, LinkOf(Decide(linker, anns[k])), false)
  {
    var anns := AllAnnotations(docs);
    forall k | 0 <= k < |anns|
      ensures Some(RowsOf(linker, anns)[k]) == RowFor(anns[k], false, LinkOf(Decide(linker, anns[k])), false)
    {
      MapSeqAt(RowOfLinker(linker), anns, k);
    }
  }
}
