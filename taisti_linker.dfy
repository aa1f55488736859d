/** `EntityLinker` of taisti_linker/entity_linker.py: links each annotated
    span to the ontology entry of its category whose normalized label is
    most similar to the span's normalized text.

    `get_entity_type` (which maps an annotation's category to an
    `EntityType`) is not part of this model; it is the parameter
    `entityTypeOf`, None standing for a category that maps to no type. */
module TaistiLinker {
  import opened Wrappers
  import opened Seqs
  import opened TextProcessor
  import opened SimilarityCalculator
  import opened OrderedMap
  import opened OntologyParser
  import opened BestMatch
  import opened Commons
  import opened Report

  /** `normalized_label_mapping`: a normalized label index per category. */
  type LabelMapping = map<EntityType, LabelIndex>

  /** An `EntityLinker` after `__init__`; none of these fields changes afterwards. */
  datatype Linker = Linker(
    minAcceptableSimilarity: real,
    ignoreNotLinkable: bool,
    similarityMeasure: SimilarityType,
    ling: Linguistics,
    entityTypeOf: string -> Option<EntityType>,
    mapping: LabelMapping)
  {
    predicate Valid() {
      forall t :: t in mapping ==> mapping[t].Valid()
    }
  }

  /** The similarity `link` computes for one index entry. */
  function ItemScore(linker: Linker, text: string, item: LabelWithIri): real {
    Calculate(linker.ling, linker.similarityMeasure, text, item.normalizedLabel)
  }

  function Scores(linker: Linker, text: string, items: seq<LabelWithIri>): (scores: seq<real>)
    ensures |scores| == |items|
    ensures forall i :: 0 <= i < |items| ==> scores[i] == ItemScore(linker, text, items[i])
  {
    seq(|items|, i requires 0 <= i < |items| => ItemScore(linker, text, items[i]))
  }

  /** The entries of a category's index, in insertion order (empty for a category without one). */
  function CategoryItems(linker: Linker, entityType: Option<EntityType>): seq<LabelWithIri>
    requires linker.Valid()
  {
    if entityType.Some? && entityType.value in linker.mapping then linker.mapping[entityType.value].Items() else []
  }

  /** `link` as a value. */
  function LinkSpec(linker: Linker, text: string, entityType: Option<EntityType>): Option<LabelWithIri>
    requires linker.Valid()
  {
    var items := CategoryItems(linker, entityType);
    Pick(items, Scan(Scores(linker, text, items), linker.minAcceptableSimilarity, LastWins))
  }

  /** `link`: the scan over the category's entries; a category without an
      index links to nothing. */
  method Link(linker: Linker, text: string, entityType: Option<EntityType>) returns (bestItem: Option<LabelWithIri>)
    requires linker.Valid()
    ensures bestItem == LinkSpec(linker, text, entityType)
  {
    bestItem := None;
    var maxSimilarity := -1.0;
    if entityType.None? || entityType.value !in linker.mapping {
      return;
    }
    var categoryLabelMapping := linker.mapping[entityType.value];
    var items := categoryLabelMapping.Items();
    ghost var scores := Scores(linker, text, items);
    for i := 0 to |items|
      invariant Scan(scores[..i], linker.minAcceptableSimilarity, LastWins).score == maxSimilarity
      invariant bestItem == Pick(items, Scan(scores[..i], linker.minAcceptableSimilarity, LastWins))
    {
      var item := items[i];
      var currentLabelSimilarity := ItemScore(linker, text, item);
      ScanPickStep(items, scores, i, linker.minAcceptableSimilarity, LastWins);
      if currentLabelSimilarity > linker.minAcceptableSimilarity && currentLabelSimilarity >= maxSimilarity {
        maxSimilarity := currentLabelSimilarity;
        bestItem := Some(LabelWithIri(item.text, item.iri, item.normalizedLabel));
      }
    }
    assert scores[..|items|] == scores;
  }

  /** A category without an index links to nothing. Otherwise nothing is
      linked exactly when no entry scores above the threshold; a linked item
      is an entry of the category's index whose score is above the
      threshold, is the highest score, and is strictly higher than every
      later entry's. */
  lemma LinkCharacterized(linker: Linker, text: string, entityType: Option<EntityType>)
    requires linker.Valid()
    ensures entityType.None? || entityType.value !in linker.mapping ==> LinkSpec(linker, text, entityType).None?
    ensures var items := CategoryItems(linker, entityType);
      && (LinkSpec(linker, text, entityType).None? <==>
            forall i :: 0 <= i < |items| ==> ItemScore(linker, text, items[i]) <= linker.minAcceptableSimilarity)
      && (LinkSpec(linker, text, entityType).Some? ==>
            exists j :: 0 <= j < |items| && LinkSpec(linker, text, entityType).value == items[j]
              && ItemScore(linker, text, items[j]) > linker.minAcceptableSimilarity
              && (forall i :: 0 <= i < |items| ==> ItemScore(linker, text, items[i]) <= ItemScore(linker, text, items[j]))
              && (forall i :: j < i < |items| ==> ItemScore(linker, text, items[i]) < ItemScore(linker, text, items[j])))
  {
    var items := CategoryItems(linker, entityType);
    ScanIsBest(Scores(linker, text, items), linker.minAcceptableSimilarity, LastWins);
  }

  /** What `link` returns is an entry stored in the category's index. */
  lemma LinkFromIndex(linker: Linker, text: string, entityType: Option<EntityType>)
    requires linker.Valid()
    ensures LinkSpec(linker, text, entityType).Some? ==>
      entityType.Some? && entityType.value in linker.mapping
      && exists k :: k in linker.mapping[entityType.value].values
           && linker.mapping[entityType.value].values[k] == LinkSpec(linker, text, entityType).value
  {
    var r := LinkSpec(linker, text, entityType);
    if r.Some? {
      var k := ItemIsValue(linker.mapping[entityType.value], r.value);
    }
  }

  /** The decision of `link_all` for one annotation: the entry stored under
      the normalized text when its category's index has one (the direct
      match), otherwise what `link` finds. */
  function Decide(linker: Linker, a: Annotation): Option<LabelWithIri>
    requires linker.Valid()
  {
    var entityType := linker.entityTypeOf(a.category);
    var normalized := Normalize(linker.ling, a.text);
    if entityType.Some? && entityType.value in linker.mapping && normalized in linker.mapping[entityType.value].values
    then Some(linker.mapping[entityType.value].values[normalized])
    else LinkSpec(linker, normalized, entityType)
  }

  /** With the index `get_IRI_labels_data_per_category` builds, a direct match
      is an entry whose normalized label equals the span's normalized text;
      without one, the decision is the scan's. */
  lemma DecideDirectMatch(linker: Linker, parser: Parser, a: Annotation)
    requires parser.Valid()
    requires linker.mapping == LabelIndexPerCategory(parser, linker.ling)
    ensures linker.Valid()
    ensures var entityType := linker.entityTypeOf(a.category);
      var normalized := Normalize(linker.ling, a.text);
      && ((entityType.Some? && entityType.value in linker.mapping && normalized in linker.mapping[entityType.value].values)
            ==> Decide(linker, a).Some? && Decide(linker, a).value.normalizedLabel == normalized
                && exists node :: node in parser.DescendantsOf(entityType.value) && Decide(linker, a).value == LabelEntry(linker.ling, node))
      && ((entityType.None? || entityType.value !in linker.mapping || normalized !in linker.mapping[entityType.value].values)
            ==> Decide(linker, a) == LinkSpec(linker, normalized, entityType))
  {
    var entityType := linker.entityTypeOf(a.category);
    var normalized := Normalize(linker.ling, a.text);
    if entityType.Some? && entityType.value in linker.mapping && normalized in linker.mapping[entityType.value].values {
      var nodes := parser.DescendantsOf(entityType.value);
      LabelIndexCharacterized(linker.ling, nodes, normalized);
      var j :| 0 <= j < |nodes| && linker.mapping[entityType.value].values[normalized] == LabelEntry(linker.ling, nodes[j])
               && forall i :: j < i < |nodes| ==> Normalize(linker.ling, BestLabel(nodes[i])) != normalized;
      assert nodes[j] in nodes;
    }
  }

  /** The decision for one annotation, as `link_all` takes it. */
  method DecideLink(linker: Linker, annotation: Annotation) returns (linkedItem: Option<LabelWithIri>)
    requires linker.Valid()
    ensures linkedItem == Decide(linker, annotation)
  {
    var entityType := linker.entityTypeOf(annotation.category);
    var normalizedEntityText := Normalize(linker.ling, annotation.text);
    if entityType.Some? && entityType.value in linker.mapping && normalizedEntityText in linker.mapping[entityType.value].values {
      linkedItem := Some(linker.mapping[entityType.value].values[normalizedEntityText]);
    } else {
      linkedItem := Link(linker, normalizedEntityText, entityType);
    }
  }

  /** The IRI and label written for a linked item. */
  function LinkOf(item: Option<LabelWithIri>): Option<Report.Link> {
    match item
    case Some(i) => Some(Report.Link(i.iri, i.text))
    case None => None
  }

  /** The row `link_all` writes for one annotation, if it writes one. */
  function RowOf(linker: Linker, a: Annotation): Option<seq<string>>
    requires linker.Valid()
  {
    RowFor(a, true, LinkOf(Decide(linker, a)), linker.ignoreNotLinkable)
  }

  function RowOfLinker(linker: Linker): Annotation -> Option<seq<string>>
    requires linker.Valid()
  {
    a => RowOf(linker, a)
  }

  /** The report rows for all the documents' annotations. */
  function ReportRows(linker: Linker, docs: seq<AnnotatedDoc>): seq<seq<string>>
    requires linker.Valid()
  {
    Rows(AllAnnotations(docs), RowOfLinker(linker))
  }

  /** The body of `link_all`'s inner loop: the row it appends for one
      annotation, if any. */
  method LinkRow(linker: Linker, annotation: Annotation) returns (row: Option<seq<string>>)
    requires linker.Valid()
    ensures row == RowOf(linker, annotation)
  {
    var linkedItem := DecideLink(linker, annotation);
    var annotationData := AnnotationData(annotation, true);
    if linkedItem.Some? {
      row := Some(annotationData + [linkedItem.value.iri, linkedItem.value.text]);
    } else if !linker.ignoreNotLinkable {
      row := Some(annotationData + ["NONE", "NONE"]);
    } else {
      row := None;
    }
  }

  /** The inner loop of `link_all`: the rows of one document's annotations, appended. */
  method LinkDocument(linker: Linker, rows0: seq<seq<string>>, annotations: seq<Annotation>)
    returns (rows: seq<seq<string>>)
    requires linker.Valid()
    ensures rows == rows0 + Rows(annotations, RowOfLinker(linker))
  {
    ghost var f := RowOfLinker(linker);
    rows := rows0;
    for annotationId := 0 to |annotations|
      invariant rows == rows0 + Rows(annotations[..annotationId], f)
    {
      var row := LinkRow(linker, annotations[annotationId]);
      ghost var before := Rows(annotations[..annotationId], f);
      RowsPrefixStep(annotations, annotationId, f);
      assert row == f(annotations[annotationId]);
      AppendAssoc(rows0, before, RowList(row));
      if row.Some? {
        rows := rows + [row.value];
      }
    }
    assert annotations[..|annotations|] == annotations;
  }

  /** `link_all` without the CSV file: the rows it writes, in order. */
  method LinkAll(linker: Linker, docs: seq<AnnotatedDoc>) returns (rows: seq<seq<string>>)
    requires linker.Valid()
    ensures rows == ReportRows(linker, docs)
  {
    rows := [];
    for id := 0 to |docs|
      invariant rows == Rows(AllAnnotations(docs[..id]), RowOfLinker(linker))
    {
      AllAnnotationsStep(docs, id);
      RowsAppend(AllAnnotations(docs[..id]), docs[id].annotations, RowOfLinker(linker));
      rows := LinkDocument(linker, rows, docs[id].annotations);
    }
    assert docs[..|docs|] == docs;
  }

  /** Every row of the report has 9 cells and is the row of one of the
      annotations, whose data it begins with. */
  lemma ReportRowsWidth(linker: Linker, docs: seq<AnnotatedDoc>)
    requires linker.Valid()
    ensures var anns, rows := AllAnnotations(docs), ReportRows(linker, docs);
      && |rows| <= |anns|
      && forall row :: row in rows ==>
           |row| == 9 && exists k :: 0 <= k < |anns| && row[..6] == AnnotationData(anns[k], false)
  {
    var anns, f := AllAnnotations(docs), RowOfLinker(linker);
    RowsFrom(anns, f);
    forall row | row in Rows(anns, f)
      ensures |row| == 9 && exists k :: 0 <= k < |anns| && row[..6] == AnnotationData(anns[k], false)
    {
      var k :| 0 <= k < |anns| && f(anns[k]) == Some(row);
      RowForShape(anns[k], true, LinkOf(Decide(linker, anns[k])), linker.ignoreNotLinkable);
    }
  }

  /** Without `ignore_not_linkable` there is one row per annotation, row k
      being annotation k's data followed by its link or "NONE", "NONE". */
  lemma ReportRowsAll(linker: Linker, docs: seq<AnnotatedDoc>)
    requires linker.Valid() && !linker.ignoreNotLinkable
    ensures var anns, rows := AllAnnotations(docs), ReportRows(linker, docs);
      |rows| == |anns| && forall k :: 0 <= k < |anns| ==> Some(rows[k]) == RowOf(linker, anns[k])
  {
    var anns, f := AllAnnotations(docs), RowOfLinker(linker);
    forall k | 0 <= k < |anns| ensures f(anns[k]).Some? {
      RowForShape(anns[k], true, LinkOf(Decide(linker, anns[k])), false);
    }
    RowsAt(anns, f);
  }

  /** With `ignore_not_linkable`, an unlinked annotation has no row, so when
      nothing links the report is empty. */
  lemma ReportRowsNoneLinked(linker: Linker, docs: seq<AnnotatedDoc>)
    requires linker.Valid() && linker.ignoreNotLinkable
    requires forall a :: a in AllAnnotations(docs) ==> Decide(linker, a).None?
    ensures ReportRows(linker, docs) == []
  {
    var anns, f := AllAnnotations(docs), RowOfLinker(linker);
    forall k | 0 <= k < |anns| ensures f(anns[k]).None? {
      assert anns[k] in anns;
    }
    RowsNone(anns, f);
  }

  /** `generate_label_mapping`'s cache: a pickled mapping that, once
      present, is returned as stored. */
  class LabelMappingCache {
    var stored: Option<LabelMapping>

    constructor (initial: Option<LabelMapping>)
      ensures stored == initial
    {
      stored := initial;
    }

    /** `generate_label_mapping`: the stored mapping if there is one,
        otherwise the parser's per-category index, which is then stored. */
    method LoadOrBuild(parser: Parser, ling: Linguistics) returns (mapping: LabelMapping)
      requires parser.Valid()
      modifies this
      ensures old(stored).Some? ==> mapping == old(stored).value && stored == old(stored)
      ensures old(stored).None? ==> mapping == LabelIndexPerCategory(parser, ling) && stored == Some(mapping)
    {
      if stored.Some? {
        mapping := stored.value;
      } else {
        mapping := GetIriLabelsDataPerCategory(parser, ling);
        stored := Some(mapping);
      }
    }

    /** A second load returns what the first returned, even for a different
        ontology or normalizer: the cache is never invalidated. */
    method LoadTwice(first: Parser, second: Parser, ling1: Linguistics, ling2: Linguistics)
      returns (m1: LabelMapping, m2: LabelMapping)
      requires first.Valid() && second.Valid()
      modifies this
      ensures m1 == m2
      ensures old(stored).None? ==> m2 == LabelIndexPerCategory(first, ling1)
    {
      m1 := LoadOrBuild(first, ling1);
      m2 := LoadOrBuild(second, ling2);
    }
  }
}
