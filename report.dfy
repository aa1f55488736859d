/** The rows the linkers write to their CSV report: the annotation's fields,
    rendered as `csv.writer` renders them (`str()` of each value), followed
    by the linked IRI and label or by "NONE", "NONE". */
module Report {
  import opened Wrappers
  import opened Strings
  import opened Commons
  import opened Seqs

  /** `str()` of an `AnnotationSource` member. */
  function SourceName(s: AnnotationSource): string {
    match s
    case Brat => "AnnotationSource.BRAT"
    case Ner => "AnnotationSource.NER"
  }

  /** `annotation_data`: file id, id, category, start, end and text, and the
      source when the report carries one. */
  function AnnotationData(a: Annotation, withSource: bool): seq<string> {
    [IntToString(a.fileId), a.id, a.category, IntToString(a.start), IntToString(a.end), a.text]
      + (if withSource then [SourceName(a.source)] else [])
  }

  const NoLink: seq<string> := ["NONE", "NONE"]

  /** A full report row: the annotation data, then the IRI and label of the link. */
  function LinkedRow(a: Annotation, withSource: bool, iri: string, name: string): seq<string> {
    AnnotationData(a, withSource) + [iri, name]
  }

  /** Every row can be read back: it has 8 or 9 cells, the numeric cells
      parse to the annotation's numbers, the text cells are the annotation's,
      and the last two cells are the link. */
  lemma LinkedRowReadBack(a: Annotation, withSource: bool, iri: string, name: string)
    ensures var row := LinkedRow(a, withSource, iri, name);
      && |row| == (if withSource then 9 else 8)
      && ParseInt(row[0]) == Some(a.fileId)
      && row[1] == a.id && row[2] == a.category
      && ParseInt(row[3]) == Some(a.start) && ParseInt(row[4]) == Some(a.end)
      && row[5] == a.text
      && (withSource ==> row[6] == SourceName(a.source))
      && row[|row| - 2..] == [iri, name]
  {
    var row := LinkedRow(a, withSource, iri, name);
    var f, s, e := IntToString(a.fileId), IntToString(a.start), IntToString(a.end);
    assert row[0] == f && row[3] == s && row[4] == e;
    ParseIntIntToString(a.fileId);
    ParseIntIntToString(a.start);
    ParseIntIntToString(a.end);
  }

  /** The source cell tells the two sources apart. */
  lemma SourceNameInjective(s: AnnotationSource, t: AnnotationSource)
    ensures SourceName(s) == SourceName(t) <==> s == t
  {
    if s != t {
      assert SourceName(s)[17] != SourceName(t)[17];
    }
  }

  /** What a linker found for an annotation: the IRI and label it writes. */
  datatype Link = Link(iri: string, name: string)

  /** The row written for one annotation: its data and the link, or its
      data and "NONE", "NONE" — or no row at all for an unlinked annotation
      when unlinkable ones are ignored. */
  function RowFor(a: Annotation, withSource: bool, link: Option<Link>, ignoreNotLinkable: bool): Option<seq<string>> {
    match link
    case Some(l) => Some(LinkedRow(a, withSource, l.iri, l.name))
    case None => if ignoreNotLinkable then None else Some(LinkedRow(a, withSource, "NONE", "NONE"))
  }

  /** A row written for one annotation has 8 cells, or 9 with the source
      column; every linked annotation has a row, and so does every
      annotation when unlinkable ones are not ignored. */
  lemma RowForShape(a: Annotation, withSource: bool, link: Option<Link>, ignoreNotLinkable: bool)
    ensures var r := RowFor(a, withSource, link, ignoreNotLinkable);
      && (r.Some? <==> link.Some? || !ignoreNotLinkable)
      && (r.Some? ==> |r.value| == (if withSource then 9 else 8) && r.value[..6] == AnnotationData(a, false))
  {
  }

  /** The row list of one annotation: its row, or nothing. */
  function RowList<R>(r: Option<R>): (rows: seq<R>)
  {
    match r
    case Some(row) => [row]
    case None => []
  }

  /** The rows written for the annotations, in order: each one's row, if it has one. */
  function Rows<A, R>(anns: seq<A>, rowOf: A -> Option<R>): (rows: seq<R>)
    decreases |anns|
  {
    if anns == [] then [] else Rows(anns[..|anns| - 1], rowOf) + RowList(rowOf(anns[|anns| - 1]))
  }

  /** Writing one more annotation appends its row, if it has one. */
  lemma RowsSnoc<A, R>(anns: seq<A>, a: A, rowOf: A -> Option<R>)
    ensures Rows(anns + [a], rowOf) == Rows(anns, rowOf) + RowList(rowOf(a))
  {
    assert (anns + [a])[..|anns|] == anns;
  }

  lemma RowsPrefixStep<A, R>(anns: seq<A>, i: nat, rowOf: A -> Option<R>)
    requires i < |anns|
    ensures Rows(anns[..i + 1], rowOf) == Rows(anns[..i], rowOf) + RowList(rowOf(anns[i]))
  {
    assert anns[..i + 1][..i] == anns[..i];
  }

  /** Writing two runs of annotations writes the rows of the first, then those of the second. */
  lemma {:induction false} RowsAppend<A, R>(xs: seq<A>, ys: seq<A>, rowOf: A -> Option<R>)
    ensures Rows(xs + ys, rowOf) == Rows(xs, rowOf) + Rows(ys, rowOf)
    decreases |ys|
  {
    if ys == [] {
      assert xs + ys == xs;
    } else {
      var n := |ys| - 1;
      RowsAppend(xs, ys[..n], rowOf);
      assert (xs + ys)[..|xs + ys| - 1] == xs + ys[..n];
      AppendAssoc(Rows(xs, rowOf), Rows(ys[..n], rowOf), RowList(rowOf(ys[n])));
    }
  }

  /** When every annotation has a row, there is one row per annotation and
      row k is annotation k's. */
  lemma {:induction false} RowsAt<A, R>(anns: seq<A>, rowOf: A -> Option<R>)
    requires forall k :: 0 <= k < |anns| ==> rowOf(anns[k]).Some?
    ensures var rows := Rows(anns, rowOf);
      |rows| == |anns| && forall k :: 0 <= k < |anns| ==> Some(rows[k]) == rowOf(anns[k])
    decreases |anns|
  {
    if anns != [] {
      var n := |anns| - 1;
      assert forall k :: 0 <= k < n ==> anns[..n][k] == anns[k];
      RowsAt(anns[..n], rowOf);
    }
  }

  /** The rows are the annotations' rows: every row is the row of some
      annotation, so rows all have the width the annotations' rows have. */
  lemma {:induction false} RowsFrom<A, R>(anns: seq<A>, rowOf: A -> Option<R>)
    ensures |Rows(anns, rowOf)| <= |anns|
    ensures forall row :: row in Rows(anns, rowOf) ==> exists k :: 0 <= k < |anns| && rowOf(anns[k]) == Some(row)
    decreases |anns|
  {
    if anns != [] {
      var n := |anns| - 1;
      RowsFrom(anns[..n], rowOf);
      forall row | row in Rows(anns, rowOf) ensures exists k :: 0 <= k < |anns| && rowOf(anns[k]) == Some(row) {
        if row in Rows(anns[..n], rowOf) {
          var k :| 0 <= k < n && rowOf(anns[..n][k]) == Some(row);
          assert anns[..n][k] == anns[k];
        } else {
          assert rowOf(anns[n]) == Some(row);
        }
      }
    }
  }

  /** When no annotation has a row, nothing is written. */
  lemma {:induction false} RowsNone<A, R>(anns: seq<A>, rowOf: A -> Option<R>)
    requires forall k :: 0 <= k < |anns| ==> rowOf(anns[k]).None?
    ensures Rows(anns, rowOf) == []
    decreases |anns|
  {
    if anns != [] {
      var n := |anns| - 1;
      assert forall k :: 0 <= k < n ==> anns[..n][k] == anns[k];
      RowsNone(anns[..n], rowOf);
    }
  }
}
