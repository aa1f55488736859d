/** The FoodOn synonym export (create_csv.py): one CSV row per descendant of
    the food-product class and per possible label of that descendant, carrying
    the descendant's last textual definition, or "NONE" when it has none.

    The script's `get_label` and `get_possible_labels` are the same code as the
    ontology parser's, so the rows use `OntologyParser.BestLabel` and
    `OntologyParser.PossibleLabels`. The CSV writer is an object that only
    accumulates rows; the file behind it is not modelled. */
module CreateCsv {
  import opened Seqs
  import opened OntologyParser

  /** The `td` column of a descendant without a textual definition. */
  const NoDefinition: string := "NONE"

  /** One written row `[c, label, td]`; the class is written as its IRI. */
  datatype Row = Row(entity: string, text: string, definition: string)

  /** `td`: the last value of the textual-definition property, or "NONE". */
  function DefinitionOf(c: Node): string {
    var defs := Values(c, TextualDefinition);
    if defs == [] then NoDefinition else defs[|defs| - 1]
  }

  /** The `td` column is the final textual definition when there is one and
      "NONE" otherwise; "NONE" can only stand for a real definition that
      happens to be spelled "NONE". */
  lemma DefinitionRule(c: Node)
    ensures Values(c, TextualDefinition) == [] ==> DefinitionOf(c) == NoDefinition
    ensures Values(c, TextualDefinition) != [] ==>
      exists earlier :: Values(c, TextualDefinition) == earlier + [DefinitionOf(c)]
    ensures DefinitionOf(c) == NoDefinition <==>
      Values(c, TextualDefinition) == [] || Values(c, TextualDefinition)[|Values(c, TextualDefinition)| - 1] == NoDefinition
  {
    var defs := Values(c, TextualDefinition);
    if defs != [] {
      assert defs == defs[..|defs| - 1] + [DefinitionOf(c)];
    }
  }

  /** The row written for descendant `c` and one of its labels. */
  function EntityRow(c: Node, text: string): Row {
    Row(c.iri, text, DefinitionOf(c))
  }

  /** The rows for `c` and the given labels, in label order. */
  function LabelRows(c: Node, labels: seq<string>): (rows: seq<Row>)
    ensures |rows| == |labels|
    ensures forall k :: 0 <= k < |labels| ==> rows[k] == EntityRow(c, labels[k])
  {
    seq(|labels|, k requires 0 <= k < |labels| => EntityRow(c, labels[k]))
  }

  /** The rows the inner loop writes for one descendant. */
  function EntityRows(c: Node): seq<Row> {
    LabelRows(c, PossibleLabelsOf(c))
  }

  /** The rows the whole script writes for the descendants, in order. */
  function ExportRows(nodes: seq<Node>): seq<Row>
    decreases |nodes|
  {
    if |nodes| == 0 then [] else ExportRows(nodes[..|nodes| - 1]) + EntityRows(nodes[|nodes| - 1])
  }

  /** `csv.writer`: the rows written so far. */
  class CsvWriter {
    var rows: seq<Row>

    constructor ()
      ensures rows == []
    {
      rows := [];
    }

    /** `writerow`. */
    method WriteRow(row: Row)
      modifies this
      ensures rows == old(rows) + [row]
    {
      rows := rows + [row];
    }
  }

  /** The inner loop: one row per possible label of `c`, the definition test
      made for each row. */
  method WriteEntity(writer: CsvWriter, c: Node)
    modifies writer
    ensures writer.rows == old(writer.rows) + EntityRows(c)
  {
    var labels := PossibleLabels(c);
    var i := 0;
    while i < |labels|
      invariant 0 <= i <= |labels|
      invariant writer.rows == old(writer.rows) + LabelRows(c, labels[..i])
    {
      var text := labels[i];
      assert LabelRows(c, labels[..i + 1]) == LabelRows(c, labels[..i]) + [EntityRow(c, text)];
      if TextualDefinition in c.annotations && c.annotations[TextualDefinition] != [] {
        var td := c.annotations[TextualDefinition][|c.annotations[TextualDefinition]| - 1];
        writer.WriteRow(Row(c.iri, text, td));
      } else {
        writer.WriteRow(Row(c.iri, text, NoDefinition));
      }
      i := i + 1;
    }
    assert labels[..i] == labels;
  }

  /** The outer loop over `food_product.descendants()`. */
  method WriteRows(writer: CsvWriter, nodes: seq<Node>)
    modifies writer
    ensures writer.rows == old(writer.rows) + ExportRows(nodes)
  {
    var i := 0;
    while i < |nodes|
      invariant 0 <= i <= |nodes|
      invariant writer.rows == old(writer.rows) + ExportRows(nodes[..i])
    {
      assert nodes[..i + 1][..i] == nodes[..i];
      assert ExportRows(nodes[..i + 1]) == ExportRows(nodes[..i]) + EntityRows(nodes[i]);
      WriteEntity(writer, nodes[i]);
      AppendAssoc(old(writer.rows), ExportRows(nodes[..i]), EntityRows(nodes[i]));
      i := i + 1;
    }
    assert nodes[..i] == nodes;
  }

  /** The script: a fresh writer receives the rows of the food-product
      class's descendants. */
  method CreateCsv(descendants: map<string, seq<Node>>) returns (writer: CsvWriter)
    requires FoodRootIri in descendants
    ensures fresh(writer)
    ensures writer.rows == ExportRows(descendants[FoodRootIri])
  {
    writer := new CsvWriter();
    WriteRows(writer, descendants[FoodRootIri]);
  }

  // ---------------------------------------------------------------------
  // What the rows are

  /** A row of one descendant is that descendant's row for one of its possible labels. */
  lemma EntityRowsMember(c: Node, r: Row)
    ensures r in EntityRows(c) <==> r.text in PossibleLabelsOf(c) && r == EntityRow(c, r.text)
  {
    var labels := PossibleLabelsOf(c);
    if r.text in labels && r == EntityRow(c, r.text) {
      var k :| 0 <= k < |labels| && labels[k] == r.text;
      assert EntityRows(c)[k] == r;
    }
  }

  /** `r` is the row of descendant `c` for one of its possible labels. */
  predicate RowOf(c: Node, r: Row) {
    r.text in PossibleLabelsOf(c) && r == EntityRow(c, r.text)
  }

  /** Every row written is the row of some descendant and one of its possible
      labels, with that descendant's definition, and every such row is written. */
  lemma ExportRowsMember(nodes: seq<Node>, r: Row)
    ensures r in ExportRows(nodes) <==> exists i :: 0 <= i < |nodes| && RowOf(nodes[i], r)
  {
    if r in ExportRows(nodes) {
      var i := ExportRowsSource(nodes, r);
    }
    if exists i :: 0 <= i < |nodes| && RowOf(nodes[i], r) {
      var i :| 0 <= i < |nodes| && RowOf(nodes[i], r);
      ExportRowsContains(nodes, i, r);
    }
  }

  /** A written row comes from the descendant at position `i`. */
  lemma {:induction false} ExportRowsSource(nodes: seq<Node>, r: Row) returns (i: nat)
    requires r in ExportRows(nodes)
    ensures i < |nodes| && RowOf(nodes[i], r)
    decreases |nodes|
  {
    var n := |nodes| - 1;
    var init := nodes[..n];
    assert ExportRows(nodes) == ExportRows(init) + EntityRows(nodes[n]);
    if r in ExportRows(init) {
      i := ExportRowsSource(init, r);
      assert init[i] == nodes[i];
    } else {
      EntityRowsMember(nodes[n], r);
      i := n;
    }
  }

  /** The row of the descendant at position `i` for one of its labels is written. */
  lemma {:induction false} ExportRowsContains(nodes: seq<Node>, i: nat, r: Row)
    requires i < |nodes| && RowOf(nodes[i], r)
    ensures r in ExportRows(nodes)
    decreases |nodes|
  {
    var n := |nodes| - 1;
    var init := nodes[..n];
    assert ExportRows(nodes) == ExportRows(init) + EntityRows(nodes[n]);
    if i < n {
      assert init[i] == nodes[i];
      ExportRowsContains(init, i, r);
    } else {
      EntityRowsMember(nodes[n], r);
    }
  }

  /** The number of possible labels over all descendants. */
  function LabelTotal(nodes: seq<Node>): nat
    decreases |nodes|
  {
    if |nodes| == 0 then 0 else LabelTotal(nodes[..|nodes| - 1]) + |PossibleLabelsOf(nodes[|nodes| - 1])|
  }

  /** As many rows are written as there are (descendant, possible label) pairs. */
  lemma {:induction false} ExportRowsCount(nodes: seq<Node>)
    ensures |ExportRows(nodes)| == LabelTotal(nodes)
    decreases |nodes|
  {
    if |nodes| != 0 {
      ExportRowsCount(nodes[..|nodes| - 1]);
    }
  }

  /** `descendants()` yields each class once, and classes have distinct IRIs. */
  predicate DistinctEntities(nodes: seq<Node>) {
    forall i, j :: 0 <= i < j < |nodes| ==> nodes[i].iri != nodes[j].iri
  }

  /** Over distinct descendants no row is written twice. */
  lemma {:induction false} ExportRowsDistinct(nodes: seq<Node>)
    requires DistinctEntities(nodes)
    ensures NoDup(ExportRows(nodes))
    decreases |nodes|
  {
    if |nodes| != 0 {
      var n := |nodes| - 1;
      var init := nodes[..n];
      assert DistinctEntities(init) by {
        forall i, j | 0 <= i < j < |init| ensures init[i].iri != init[j].iri {
          assert init[i] == nodes[i] && init[j] == nodes[j];
        }
      }
      ExportRowsDistinct(init);
      var before := ExportRows(init);
      var last := EntityRows(nodes[n]);
      PossibleLabelsMembers(nodes[n]);
      assert NoDup(last);
      forall r | r in before ensures r !in last {
        var i := ExportRowsSource(init, r);
        assert init[i] == nodes[i];
        EntityRowsMember(nodes[n], r);
      }
      NoDupAppend(before, last);
    }
  }

  /** Over distinct descendants, each (descendant, possible label) pair has
      exactly one row, at position `k`. */
  lemma UniqueRow(nodes: seq<Node>, i: nat, text: string) returns (k: nat)
    requires DistinctEntities(nodes)
    requires i < |nodes| && text in PossibleLabelsOf(nodes[i])
    ensures k < |ExportRows(nodes)| && ExportRows(nodes)[k] == EntityRow(nodes[i], text)
    ensures forall k' :: 0 <= k' < |ExportRows(nodes)| && ExportRows(nodes)[k'].entity == nodes[i].iri
                         && ExportRows(nodes)[k'].text == text
                         ==> k' == k
  {
    var rows := ExportRows(nodes);
    var row := EntityRow(nodes[i], text);
    ExportRowsContains(nodes, i, row);
    k := 0;
    k :| 0 <= k < |rows| && rows[k] == row;
    ExportRowsDistinct(nodes);
    forall k' | 0 <= k' < |rows| && rows[k'].entity == nodes[i].iri && rows[k'].text == text
      ensures k' == k
    {
      var other := rows[k'];
      var j := ExportRowsSource(nodes, other);
      assert j == i;
      assert other == row;
    }
  }
}
