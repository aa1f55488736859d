/** `OntologyParser` (entity_linker/ontology_parser.py): reading labels off
    the FoodOn concept graph and building, per category, the index from
    normalized label to (label, IRI, normalized label).

    The owlready2 graph is abstracted: a node is its IRI, its optional bare
    name and the values of its annotation properties; the graph is the
    sequence `descendants()` returns for each root IRI, in graph order. */
module OntologyParser {
  import opened Wrappers
  import opened Seqs
  import opened TextProcessor
  import opened OrderedMap

  /** The category taxonomy; only Food and Process have an ontology root. */
  datatype EntityType =
    | Food | Unit | Quantity | Process | Color | PhysicalQuality | Diet | Part | Purpose | Taste

  /** `EntityType` in declaration order, as `for entity_type in EntityType` visits it. */
  const AllEntityTypes: seq<EntityType> :=
    [Food, Unit, Quantity, Process, Color, PhysicalQuality, Diet, Part, Purpose, Taste]

  /** The position of a category in `AllEntityTypes`. */
  function Ordinal(t: EntityType): (i: nat)
    ensures i < |AllEntityTypes| && AllEntityTypes[i] == t
  {
    match t
    case Food => 0 case Unit => 1 case Quantity => 2 case Process => 3 case Color => 4
    case PhysicalQuality => 5 case Diet => 6 case Part => 7 case Purpose => 8 case Taste => 9
  }

  /** The annotation properties the code reads. */
  datatype Property =
    | PrefLabel | Label
    | HasSynonym | HasExactSynonym | HasBroadSynonym | HasNarrowSynonym | AlternativeTerm
    | TextualDefinition

  /** An ontology class: a property absent from `annotations` has no value for it. */
  datatype Node = Node(iri: string, name: Option<string>, annotations: map<Property, seq<string>>)

  /** `LabelWithIRI`. */
  datatype LabelWithIri = LabelWithIri(text: string, iri: string, normalizedLabel: string)

  type LabelIndex = OrderedMap<string, LabelWithIri>

  /** `prop[obj]`: the values of a property, empty when it has none. */
  function Values(n: Node, p: Property): seq<string> {
    if p in n.annotations then n.annotations[p] else []
  }

  const Unknown: string := "<UNKWNOWN>"

  /** `_get_label`: prefLabel's first value, else label's first value, else the name, else "<UNKWNOWN>". */
  function BestLabel(n: Node): string {
    if Values(n, PrefLabel) != [] then Values(n, PrefLabel)[0]
    else if Values(n, Label) != [] then Values(n, Label)[0]
    else if n.name.Some? then n.name.value
    else Unknown
  }

  /** The priority order: a label of higher priority decides the best label
      whatever the lower-priority values are, and the sentinel appears only
      when the node has no label of any kind. */
  lemma BestLabelPriority(n: Node, m: Node)
    ensures Values(n, PrefLabel) != [] && Values(m, PrefLabel) == Values(n, PrefLabel) ==> BestLabel(m) == BestLabel(n)
    ensures (Values(n, PrefLabel) == [] && Values(m, PrefLabel) == [] && Values(n, Label) != []
             && Values(m, Label) == Values(n, Label)) ==> BestLabel(m) == BestLabel(n)
    ensures (BestLabel(n) == Unknown && n.name != Some(Unknown)
             && Unknown !in Values(n, PrefLabel) && Unknown !in Values(n, Label))
            ==> Values(n, PrefLabel) == [] && Values(n, Label) == [] && n.name.None?
  {
  }

  /** The synonym properties `get_possible_labels` reads, in its order. */
  const SynonymProperties: seq<Property> :=
    [HasSynonym, HasExactSynonym, HasBroadSynonym, HasNarrowSynonym, AlternativeTerm]

  /** The values of the given properties, concatenated in order. */
  function Gather(n: Node, props: seq<Property>): seq<string>
    decreases |props|
  {
    if props == [] then [] else Gather(n, props[..|props| - 1]) + Values(n, props[|props| - 1])
  }

  lemma {:induction false} GatherMember(n: Node, props: seq<Property>, l: string)
    ensures l in Gather(n, props) <==> exists i :: 0 <= i < |props| && l in Values(n, props[i])
    decreases |props|
  {
    if props != [] {
      var init := props[..|props| - 1];
      GatherMember(n, init, l);
      if exists i :: 0 <= i < |props| && l in Values(n, props[i]) {
        var i :| 0 <= i < |props| && l in Values(n, props[i]);
        if i < |init| {
          assert props[i] == init[i];
        }
      }
    }
  }

  /** The best label followed by every synonym value, before deduplication. */
  function CollectedLabels(n: Node): seq<string> {
    [BestLabel(n)] + Gather(n, SynonymProperties)
  }

  /** `get_possible_labels` as a value: the collected labels without duplicates. */
  function PossibleLabelsOf(n: Node): seq<string> {
    Dedup(CollectedLabels(n))
  }

  /** `get_possible_labels`: gathers the best label and the synonym values,
      then keeps each distinct label once. */
  method PossibleLabels(n: Node) returns (labels: seq<string>)
    ensures labels == PossibleLabelsOf(n)
    ensures NoDup(labels)
    ensures BestLabel(n) in labels
    ensures forall l :: l in labels <==>
      l == BestLabel(n) || exists i :: 0 <= i < |SynonymProperties| && l in Values(n, SynonymProperties[i])
  {
    var synonyms := [BestLabel(n)];
    var i := 0;
    while i < |SynonymProperties|
      invariant 0 <= i <= |SynonymProperties|
      invariant synonyms == [BestLabel(n)] + Gather(n, SynonymProperties[..i])
    {
      var prop := SynonymProperties[i];
      assert SynonymProperties[..i + 1][..i] == SynonymProperties[..i];
      if prop in n.annotations {
        synonyms := synonyms + n.annotations[prop];
      }
      i := i + 1;
    }
    assert SynonymProperties[..i] == SynonymProperties;
    labels := Dedup(synonyms);
    PossibleLabelsMembers(n);
  }

  /** The possible labels are distinct, and are the best label and the synonym values. */
  lemma PossibleLabelsMembers(n: Node)
    ensures NoDup(PossibleLabelsOf(n))
    ensures BestLabel(n) in PossibleLabelsOf(n)
    ensures forall l :: l in PossibleLabelsOf(n) <==>
      l == BestLabel(n) || exists i :: 0 <= i < |SynonymProperties| && l in Values(n, SynonymProperties[i])
  {
    forall l ensures l in PossibleLabelsOf(n) <==>
      l == BestLabel(n) || exists i :: 0 <= i < |SynonymProperties| && l in Values(n, SynonymProperties[i])
    {
      GatherMember(n, SynonymProperties, l);
    }
  }

  // ---------------------------------------------------------------------
  // The normalized label index

  /** The entry `get_IRI_labels_data` writes for one descendant. */
  function LabelEntry(ling: Linguistics, c: Node): LabelWithIri {
    var text := BestLabel(c);
    LabelWithIri(text, c.iri, Normalize(ling, text))
  }

  /** The entries of the nodes, in order. */
  function LabelEntries(ling: Linguistics, nodes: seq<Node>): (entries: seq<LabelWithIri>)
    ensures |entries| == |nodes|
    ensures forall i :: 0 <= i < |nodes| ==> entries[i] == LabelEntry(ling, nodes[i])
  {
    seq(|nodes|, i requires 0 <= i < |nodes| => LabelEntry(ling, nodes[i]))
  }

  /** The key an entry is written under: its normalized label. */
  function NormalizedKey(e: LabelWithIri): string {
    e.normalizedLabel
  }

  /** The index after writing `entries` in order, each under its normalized label. */
  function IndexOf(entries: seq<LabelWithIri>): (m: LabelIndex)
    ensures m.Valid()
  {
    PutEach(NormalizedKey, entries)
  }

  /** The index `get_IRI_labels_data` builds from a category's descendants. */
  function BuildLabelIndex(ling: Linguistics, nodes: seq<Node>): (m: LabelIndex)
    ensures m.Valid()
  {
    IndexOf(LabelEntries(ling, nodes))
  }

  /** The keys of a category's index are exactly the normalized best labels of
      its descendants; each key holds the entry of the LAST descendant whose
      best label normalizes to it, so the entry's normalized label is the key
      and is the normalization of the entry's label. */
  lemma LabelIndexCharacterized(ling: Linguistics, nodes: seq<Node>, k: string)
    ensures k in BuildLabelIndex(ling, nodes).values
            <==> exists i :: 0 <= i < |nodes| && Normalize(ling, BestLabel(nodes[i])) == k
    ensures k in BuildLabelIndex(ling, nodes).values ==>
      var entry := BuildLabelIndex(ling, nodes).values[k];
      && entry.normalizedLabel == k
      && k == Normalize(ling, entry.text)
      && exists j :: 0 <= j < |nodes| && entry == LabelEntry(ling, nodes[j])
           && forall i :: j < i < |nodes| ==> Normalize(ling, BestLabel(nodes[i])) != k
  {
    var entries := LabelEntries(ling, nodes);
    PutEachKeys(NormalizedKey, entries, k);
    if k in IndexOf(entries).values {
      var j := PutEachLastWins(NormalizedKey, entries, k);
      assert entries[j] == LabelEntry(ling, nodes[j]);
    }
  }

  // ---------------------------------------------------------------------
  // The parser

  const FoodRootIri: string := "http://purl.obolibrary.org/obo/FOODON_00001002"
  const ProcessRootIri: string := "http://purl.obolibrary.org/obo/FOODON_03530206"

  /** `_get_root_nodes_for_categories`: the root IRI of each category that has one. */
  function RootNodesForCategories(): map<EntityType, string> {
    map[Food := FoodRootIri, Process := ProcessRootIri]
  }

  /** The loaded ontology (each node IRI's `descendants()`) and the category roots. */
  datatype Parser = Parser(descendants: map<string, seq<Node>>, typeToRoot: map<EntityType, string>) {
    /** Every category root is a node of the loaded ontology. */
    predicate Valid() {
      forall t :: t in typeToRoot ==> typeToRoot[t] in descendants
    }

    function DescendantsOf(category: EntityType): seq<Node>
      requires Valid() && category in typeToRoot
    {
      descendants[typeToRoot[category]]
    }
  }

  /** `OntologyParser.__init__` over an already loaded ontology. */
  function NewParser(descendants: map<string, seq<Node>>): (p: Parser)
    ensures p.typeToRoot.Keys == {Food, Process}
    ensures p.descendants == descendants
  {
    Parser(descendants, RootNodesForCategories())
  }

  /** `get_IRI_labels_data`: one pass over the category root's descendants,
      writing each best label's entry under its normalized form. */
  method GetIriLabelsData(parser: Parser, ling: Linguistics, category: EntityType) returns (result: LabelIndex)
    requires parser.Valid() && category in parser.typeToRoot
    ensures result == BuildLabelIndex(ling, parser.DescendantsOf(category))
  {
    var nodes := parser.descendants[parser.typeToRoot[category]];
    result := Empty();
    var i := 0;
    while i < |nodes|
      invariant 0 <= i <= |nodes|
      invariant result == IndexOf(LabelEntries(ling, nodes)[..i])
    {
      var c := nodes[i];
      var text := BestLabel(c);
      var normalizedLabel := Normalize(ling, text);
      assert LabelEntries(ling, nodes)[..i + 1][..i] == LabelEntries(ling, nodes)[..i];
      result := result.Put(normalizedLabel, LabelWithIri(text, c.iri, normalizedLabel));
      i := i + 1;
    }
    assert LabelEntries(ling, nodes)[..i] == LabelEntries(ling, nodes);
  }

  /** The per-category index as a value. */
  function LabelIndexPerCategory(parser: Parser, ling: Linguistics): map<EntityType, LabelIndex>
    requires parser.Valid()
  {
    map t | t in parser.typeToRoot :: BuildLabelIndex(ling, parser.DescendantsOf(t))
  }

  /** `get_IRI_labels_data_per_category`: an index for exactly the categories that have a root. */
  method GetIriLabelsDataPerCategory(parser: Parser, ling: Linguistics) returns (result: map<EntityType, LabelIndex>)
    requires parser.Valid()
    ensures result.Keys == parser.typeToRoot.Keys
    ensures result == LabelIndexPerCategory(parser, ling)
  {
    result := map[];
    for i := 0 to |AllEntityTypes|
      invariant forall t :: t in result <==> t in parser.typeToRoot && t in AllEntityTypes[..i]
      invariant forall t :: t in result ==> result[t] == BuildLabelIndex(ling, parser.DescendantsOf(t))
    {
      var entityType := AllEntityTypes[i];
      PrefixSnoc(AllEntityTypes, i);
      if entityType in parser.typeToRoot {
        var data := GetIriLabelsData(parser, ling, entityType);
        result := result[entityType := data];
      }
    }
    forall t ensures t in AllEntityTypes[..|AllEntityTypes|] {
      assert AllEntityTypes[Ordinal(t)] == t;
    }
    PerCategoryExtensional(parser, ling, result);
  }

  /** A map holding the index of exactly the categories with a root is the per-category index. */
  lemma PerCategoryExtensional(parser: Parser, ling: Linguistics, result: map<EntityType, LabelIndex>)
    requires parser.Valid()
    requires forall t :: t in result <==> t in parser.typeToRoot
    requires forall t :: t in result ==> result[t] == BuildLabelIndex(ling, parser.DescendantsOf(t))
    ensures result == LabelIndexPerCategory(parser, ling)
  {
  }

  /** With the FoodOn roots, the per-category index has exactly Food and Process. */
  lemma PerCategoryKeys(descendants: map<string, seq<Node>>, ling: Linguistics)
    requires NewParser(descendants).Valid()
    ensures LabelIndexPerCategory(NewParser(descendants), ling).Keys == {Food, Process}
  {
  }
}
