/** generate_kb.py: the food entities read from their CSV file, the aliases
    generated for each entity name, and the grouping of entity ids by alias
    with the probabilities handed to the knowledge base.

    `normalize_name` performs exactly the steps of `normalize_text`, so the
    aliases are generated from `TextProcessor.Normalize`. The spaCy
    knowledge base itself (`add_entity`, `add_alias`, the description
    vectors, `to_disk`) is not part of this model. */
module GenerateKb {
  import opened Wrappers
  import opened Seqs
  import opened Strings
  import opened TextProcessor
  import opened OrderedMap
  import opened Itertools

  // ---------------------------------------------------------------------
  // load_food_entities

  /** The two dicts `load_food_entities` returns: id to name and id to description. */
  datatype FoodEntities = FoodEntities(names: OrderedMap<string, string>, descriptions: OrderedMap<string, string>)

  /** `load_food_entities` over the CSV rows: a row with fewer than three
      cells raises IndexError; otherwise its id is written with its name and
      its description, a repeated id keeping its first place and taking the
      later values. */
  function LoadedEntities(rows: seq<seq<string>>): (r: Result<FoodEntities>)
    ensures r.Success? ==> r.value.names.Valid() && r.value.descriptions.Valid()
    decreases |rows|
  {
    if rows == [] then Success(FoodEntities(Empty(), Empty()))
    else match LoadedEntities(rows[..|rows| - 1])
      case Failure(e) => Failure(e)
      case Success(loaded) =>
        var row := rows[|rows| - 1];
        if |row| < 3 then Failure(IndexError)
        else Success(FoodEntities(loaded.names.Put(row[0], row[1]), loaded.descriptions.Put(row[0], row[2])))
  }

  /** `load_food_entities`: the loop over the CSV rows. */
  method LoadFoodEntities(rows: seq<seq<string>>) returns (r: Result<FoodEntities>)
    ensures r == LoadedEntities(rows)
  {
    var names: OrderedMap<string, string> := Empty();
    var descriptions: OrderedMap<string, string> := Empty();
    for i := 0 to |rows|
      invariant LoadedEntities(rows[..i]) == Success(FoodEntities(names, descriptions))
    {
      assert rows[..i + 1][..i] == rows[..i];
      var row := rows[i];
      if |row| < 3 {
        r := Failure(IndexError);
        LoadedEntitiesFailurePersists(rows, i + 1);
        return;
      }
      var qid, name, desc := row[0], row[1], row[2];
      names := names.Put(qid, name);
      descriptions := descriptions.Put(qid, desc);
    }
    assert rows[..|rows|] == rows;
    r := Success(FoodEntities(names, descriptions));
  }

  lemma {:induction false} LoadedEntitiesFailurePersists(rows: seq<seq<string>>, k: nat)
    requires k <= |rows|
    requires LoadedEntities(rows[..k]).Failure?
    ensures LoadedEntities(rows) == LoadedEntities(rows[..k])
    decreases |rows| - k
  {
    if k < |rows| {
      assert rows[..k + 1][..k] == rows[..k];
      LoadedEntitiesFailurePersists(rows, k + 1);
    } else {
      assert rows[..k] == rows;
    }
  }

  /** Every row has an id, a name and a description. */
  predicate WellFormedRows(rows: seq<seq<string>>) {
    forall row :: row in rows ==> |row| >= 3
  }

  /** The map part of what the rows write: id to the cell in column `col`. */
  function Written(rows: seq<seq<string>>, col: nat): map<string, string>
    requires WellFormedRows(rows) && col < 3
    decreases |rows|
  {
    if rows == [] then map[]
    else
      var row := rows[|rows| - 1];
      Written(rows[..|rows| - 1], col)[row[0] := row[col]]
  }

  lemma {:induction false} LoadedEntitiesSucceeds(rows: seq<seq<string>>)
    ensures LoadedEntities(rows).Success? <==> WellFormedRows(rows)
    decreases |rows|
  {
    if rows != [] {
      var n := |rows| - 1;
      var init := rows[..n];
      LoadedEntitiesSucceeds(init);
      assert rows == init + [rows[n]];
      assert LoadedEntities(rows).Success? <==> LoadedEntities(init).Success? && |rows[n]| >= 3;
    }
  }

  lemma {:induction false} LoadedEntitiesWritten(rows: seq<seq<string>>)
    requires LoadedEntities(rows).Success?
    ensures WellFormedRows(rows)
    ensures var e := LoadedEntities(rows).value;
      && e.names.keys == e.descriptions.keys
      && e.names.values == Written(rows, 1)
      && e.descriptions.values == Written(rows, 2)
    decreases |rows|
  {
    LoadedEntitiesSucceeds(rows);
    if rows != [] {
      var n := |rows| - 1;
      var e0 := LoadedEntities(rows[..n]).value;
      var row := rows[n];
      LoadedEntitiesWritten(rows[..n]);
      PutValues(e0.names, row[0], row[1]);
      PutValues(e0.descriptions, row[0], row[2]);
    }
  }

  /** The rows' first cells, the ids, in row order. */
  function RowIds(rows: seq<seq<string>>): (ids: seq<string>)
    requires WellFormedRows(rows)
    ensures |ids| == |rows|
    ensures forall i :: 0 <= i < |rows| ==> ids[i] == rows[i][0]
    decreases |rows|
  {
    if rows == [] then []
    else
      var last := rows[|rows| - 1];
      assert last in rows;
      RowIds(rows[..|rows| - 1]) + [last[0]]
  }

  /** On success the ids are listed once each, in order of first appearance. */
  lemma {:induction false} LoadedEntitiesKeys(rows: seq<seq<string>>)
    requires LoadedEntities(rows).Success?
    ensures WellFormedRows(rows)
    ensures LoadedEntities(rows).value.names.keys == Dedup(RowIds(rows))
    decreases |rows|
  {
    LoadedEntitiesSucceeds(rows);
    if rows != [] {
      var n := |rows| - 1;
      var e0 := LoadedEntities(rows[..n]).value;
      var row := rows[n];
      LoadedEntitiesKeys(rows[..n]);
      PutValues(e0.names, row[0], row[1]);
      var ids := RowIds(rows);
      assert ids[..n] == RowIds(rows[..n]);
      assert row[0] in e0.names.values <==> row[0] in Dedup(RowIds(rows[..n]));
    }
  }

  lemma PutValues(m: OrderedMap<string, string>, k: string, v: string)
    requires m.Valid()
    ensures m.Put(k, v).values == m.values[k := v]
    ensures m.Put(k, v).keys == if k in m.values then m.keys else m.keys + [k]
  {
  }

  /** The written ids are the rows' first cells, and each holds the cell of
      the last row that carries it. */
  lemma {:induction false} WrittenLastWins(rows: seq<seq<string>>, col: nat, q: string) returns (j: nat)
    requires WellFormedRows(rows) && col < 3
    ensures q in Written(rows, col) <==> exists i :: 0 <= i < |rows| && rows[i][0] == q
    ensures q in Written(rows, col) ==>
      j < |rows| && rows[j][0] == q && Written(rows, col)[q] == rows[j][col]
      && forall i :: j < i < |rows| ==> rows[i][0] != q
    decreases |rows|
  {
    j := 0;
    if rows != [] {
      var n := |rows| - 1;
      var init := rows[..n];
      assert rows == init + [rows[n]];
      j := WrittenLastWins(init, col, q);
      if rows[n][0] == q {
        j := n;
      } else {
        if q in Written(init, col) {
          assert init[j] == rows[j];
          forall i | j < i < |rows| ensures rows[i][0] != q {
            if i < n {
              assert init[i] == rows[i];
            }
          }
        }
        if exists i :: 0 <= i < |rows| && rows[i][0] == q {
          var i :| 0 <= i < |rows| && rows[i][0] == q;
          assert init[i] == rows[i];
        }
      }
    }
  }

  /** The file is read exactly when every row has an id, a name and a
      description; then the ids are the rows' first cells, in order of first
      appearance, and each id has the name and the description of the last
      row that carries it. */
  lemma LoadedEntitiesCharacterized(rows: seq<seq<string>>, q: string) returns (j: nat)
    ensures LoadedEntities(rows).Success? <==> WellFormedRows(rows)
    ensures LoadedEntities(rows).Success? ==>
      var e := LoadedEntities(rows).value;
      && WellFormedRows(rows)
      && e.names.keys == e.descriptions.keys == Dedup(RowIds(rows))
      && (q in e.names.values <==> exists i :: 0 <= i < |rows| && rows[i][0] == q)
      && (q in e.names.values ==>
            j < |rows| && rows[j][0] == q
            && e.names.values[q] == rows[j][1] && e.descriptions.values[q] == rows[j][2]
            && forall i :: j < i < |rows| ==> rows[i][0] != q)
  {
    j := 0;
    LoadedEntitiesSucceeds(rows);
    if WellFormedRows(rows) {
      LoadedEntitiesWritten(rows);
      LoadedEntitiesKeys(rows);
      j := WrittenLastWins(rows, 1, q);
      var j2 := WrittenLastWins(rows, 2, q);
      if q in Written(rows, 1) {
        assert j2 == j;
      }
    }
  }

  // ---------------------------------------------------------------------
  // powerset, generate_combinations, generate_permutations

  /** The combinations of sizes 1 to k, smaller sizes first. */
  function PowersetUpTo<T>(s: seq<T>, k: nat): seq<seq<T>> {
    if k == 0 then [] else PowersetUpTo(s, k - 1) + Combinations(s, k)
  }

  /** `powerset` and `generate_combinations`: every nonempty combination, by increasing size. */
  function Powerset<T>(s: seq<T>): seq<seq<T>> {
    PowersetUpTo(s, |s|)
  }

  lemma {:induction false} PowersetUpToMembers<T>(s: seq<T>, k: nat, c: seq<T>)
    ensures c in PowersetUpTo(s, k) <==> 1 <= |c| <= k && Subsequence(c, s)
  {
    if k != 0 {
      PowersetUpToMembers(s, k - 1, c);
      CombinationsMembers(s, k, c);
    }
  }

  /** The powerset holds exactly the nonempty subsequences. */
  lemma PowersetMembers<T>(s: seq<T>, c: seq<T>)
    ensures c in Powerset(s) <==> c != [] && Subsequence(c, s)
  {
    PowersetUpToMembers(s, |s|, c);
    if Subsequence(c, s) {
      SubsequenceLength(c, s);
    }
  }

  lemma {:induction false} PowersetUpToCount<T>(s: seq<T>, k: nat)
    ensures |PowersetUpTo(s, k)| == BinomialSum(|s|, k) - 1
  {
    if k != 0 {
      PowersetUpToCount(s, k - 1);
      CombinationsCount(s, k);
    }
  }

  /** n positions give 2^n - 1 nonempty combinations. */
  lemma PowersetCount<T>(s: seq<T>)
    ensures |Powerset(s)| == Pow2(|s|) - 1
  {
    PowersetUpToCount(s, |s|);
    BinomialRowSum(|s|);
  }

  /** The combinations come by increasing size. */
  lemma {:induction false} PowersetOrdered<T>(s: seq<T>, k: nat)
    ensures forall i, j :: 0 <= i < j < |PowersetUpTo(s, k)| ==> |PowersetUpTo(s, k)[i]| <= |PowersetUpTo(s, k)[j]|
  {
    if k != 0 {
      var smaller := PowersetUpTo(s, k - 1);
      var sized := Combinations(s, k);
      PowersetOrdered(s, k - 1);
      forall i | 0 <= i < |smaller| ensures |smaller[i]| <= k - 1 {
        PowersetUpToMembers(s, k - 1, smaller[i]);
      }
      forall i | 0 <= i < |sized| ensures |sized[i]| == k {
        CombinationsMembers(s, k, sized[i]);
      }
    }
  }

  // ---------------------------------------------------------------------
  // generate_candidates

  const MaxTokens: nat := 7

  /** `list(set(name.split(' ')))`, each distinct token at its first occurrence. */
  function Tokens(name: string): (tokens: seq<string>)
    ensures NoDup(tokens)
    ensures forall t :: t in tokens <==> t in SplitOn(name, {' '})
  {
    Dedup(SplitOn(name, {' '}))
  }

  /** The alias one permutation gives: its tokens joined by spaces and
      stripped, kept only when nonempty. */
  function AliasOf(permutation: seq<string>): seq<string> {
    var allowedAlias := Strip(JoinWith(permutation, " "));
    if |allowedAlias| > 0 then [allowedAlias] else []
  }

  /** The aliases of the permutations of one combination, in order. */
  function AliasesOf(combination: seq<string>): seq<string> {
    Flatten(MapSeq(AliasOf, Permutations(combination)))
  }

  /** `generate_candidates` as a value. */
  function Candidates(name: string): seq<string> {
    var allTokens := Tokens(name);
    if |allTokens| > MaxTokens then [name]
    else Flatten(MapSeq(AliasesOf, Powerset(allTokens)))
  }

  /** `generate_candidates`: for each combination of the distinct tokens,
      for each of its permutations, the stripped join when it is nonempty;
      a name of more than seven distinct tokens is its own only candidate.
      (The knowledge base and the id it is given are not used.) */
  method GenerateCandidates(name: string) returns (candidates: seq<string>)
    ensures candidates == Candidates(name)
  {
    var allTokens := Tokens(name);
    candidates := [];
    if |allTokens| > MaxTokens {
      candidates := [name];
    } else {
      var combinations := Powerset(allTokens);
      for i := 0 to |combinations|
        invariant candidates == Flatten(MapSeq(AliasesOf, combinations[..i]))
      {
        candidates := AppendAliases(candidates, Permutations(combinations[i]));
        MapSeqPrefixStep(AliasesOf, combinations, i);
        FlattenSnoc(MapSeq(AliasesOf, combinations[..i]), AliasesOf(combinations[i]));
      }
      assert combinations[..|combinations|] == combinations;
    }
  }

  /** The inner loop of `generate_candidates`: the alias of each permutation, in order. */
  method AppendAliases(candidates0: seq<string>, permutations: seq<seq<string>>) returns (candidates: seq<string>)
    ensures candidates == candidates0 + Flatten(MapSeq(AliasOf, permutations))
  {
    candidates := candidates0;
    for j := 0 to |permutations|
      invariant candidates == candidates0 + Flatten(MapSeq(AliasOf, permutations[..j]))
    {
      var allowedAlias := Strip(JoinWith(permutations[j], " "));
      MapSeqPrefixStep(AliasOf, permutations, j);
      FlattenSnoc(MapSeq(AliasOf, permutations[..j]), AliasOf(permutations[j]));
      AppendAssoc(candidates0, Flatten(MapSeq(AliasOf, permutations[..j])), AliasOf(permutations[j]));
      if |allowedAlias| > 0 {
        candidates := candidates + [allowedAlias];
      }
    }
    assert permutations[..|permutations|] == permutations;
  }

  /** `p` rearranges a nonempty subsequence of `tokens`. */
  ghost predicate Rearranges(p: seq<string>, tokens: seq<string>) {
    exists combination :: combination != [] && Subsequence(combination, tokens) && multiset(p) == multiset(combination)
  }

  lemma AliasesOfMembers(combination: seq<string>, c: string)
    ensures c in AliasesOf(combination) <==>
      c != [] && exists p :: multiset(p) == multiset(combination) && c == Strip(JoinWith(p, " "))
  {
    var f: seq<string> -> seq<string> := AliasOf;
    FlattenMapMember(f, Permutations(combination), c);
    if c in AliasesOf(combination) {
      var p :| p in Permutations(combination) && c in f(p);
      PermutationsMembers(combination, p);
      assert c == Strip(JoinWith(p, " ")) && c != [];
      assert exists q :: multiset(q) == multiset(combination) && c == Strip(JoinWith(q, " "));
    } else if c != [] && exists p :: multiset(p) == multiset(combination) && c == Strip(JoinWith(p, " ")) {
      var p :| multiset(p) == multiset(combination) && c == Strip(JoinWith(p, " "));
      PermutationsMembers(combination, p);
      assert false;
    }
  }

  lemma CandidateFrom(tokens: seq<string>, c: string)
    requires c in Flatten(MapSeq(AliasesOf, Powerset(tokens)))
    ensures c != [] && exists p :: Rearranges(p, tokens) && c == Strip(JoinWith(p, " "))
  {
    var f: seq<string> -> seq<string> := AliasesOf;
    FlattenMapMember(f, Powerset(tokens), c);
    var combination :| combination in Powerset(tokens) && c in f(combination);
    PowersetMembers(tokens, combination);
    AliasesOfMembers(combination, c);
    var p :| multiset(p) == multiset(combination) && c == Strip(JoinWith(p, " "));
    assert Rearranges(p, tokens);
  }

  lemma CandidateOf(tokens: seq<string>, c: string, p: seq<string>)
    requires c != [] && Rearranges(p, tokens) && c == Strip(JoinWith(p, " "))
    ensures c in Flatten(MapSeq(AliasesOf, Powerset(tokens)))
  {
    var f: seq<string> -> seq<string> := AliasesOf;
    var combination :| combination != [] && Subsequence(combination, tokens) && multiset(p) == multiset(combination);
    PowersetMembers(tokens, combination);
    AliasesOfMembers(combination, c);
    FlattenMapMember(f, Powerset(tokens), c);
    assert combination in Powerset(tokens) && c in f(combination);
  }

  /** A name of more than seven distinct tokens is its own only candidate.
      Otherwise the candidates are exactly the nonempty stripped
      space-joins of the rearrangements of the nonempty subsequences of the
      distinct tokens. */
  lemma CandidatesMembers(name: string, c: string)
    ensures |Tokens(name)| > MaxTokens ==> Candidates(name) == [name]
    ensures |Tokens(name)| <= MaxTokens ==>
      (c in Candidates(name) <==> c != [] && exists p :: Rearranges(p, Tokens(name)) && c == Strip(JoinWith(p, " ")))
  {
    var tokens := Tokens(name);
    if |tokens| <= MaxTokens {
      if c in Candidates(name) {
        CandidateFrom(tokens, c);
      }
      if c != [] && exists p :: Rearranges(p, tokens) && c == Strip(JoinWith(p, " ")) {
        var p :| Rearranges(p, tokens) && c == Strip(JoinWith(p, " "));
        CandidateOf(tokens, c, p);
      }
    }
  }

  /** Every candidate is nonempty, and a generated alias has no leading or trailing whitespace. */
  lemma CandidatesNonempty(name: string, c: string)
    requires c in Candidates(name)
    ensures c != []
    ensures |Tokens(name)| <= MaxTokens ==> !IsWhitespace(c[0]) && !IsWhitespace(c[|c| - 1])
  {
    var tokens := Tokens(name);
    if |tokens| > MaxTokens {
      assert name != [];
    } else {
      CandidateFrom(tokens, c);
      var p :| Rearranges(p, tokens) && c == Strip(JoinWith(p, " "));
      StripShape(JoinWith(p, " "));
    }
  }

  // ---------------------------------------------------------------------
  // Grouping the entity ids by alias

  /** One alias generated for one entity id. */
  datatype Alias = Alias(alias: string, qid: string)

  function Tag(qid: string): string -> Alias {
    a => Alias(a, qid)
  }

  /** The aliases of one entity, tagged with its id. */
  function Tagged(qid: string, aliases: seq<string>): (r: seq<Alias>)
    ensures |r| == |aliases|
  {
    MapSeq(Tag(qid), aliases)
  }

  lemma TaggedMember(qid: string, aliases: seq<string>, a: Alias)
    ensures a in Tagged(qid, aliases) <==> a.qid == qid && a.alias in aliases
  {
    if a in Tagged(qid, aliases) {
      var k := MapSeqMember(Tag(qid), aliases, a);
    }
    if a.qid == qid && a.alias in aliases {
      var k :| 0 <= k < |aliases| && aliases[k] == a.alias;
      MapSeqAt(Tag(qid), aliases, k);
    }
  }

  /** The aliases the loop generates for an entity name: the candidates of the normalized name. */
  function NameAliases(ling: Linguistics): string -> seq<string> {
    name => Candidates(Normalize(ling, name))
  }

  /** The aliases of the first n entities of `name_dict`, in its order, each
      tagged with its entity's id. */
  function AliasPairs(aliasesOf: string -> seq<string>, nameDict: OrderedMap<string, string>, n: nat): seq<Alias>
    requires nameDict.Valid() && n <= |nameDict.keys|
  {
    if n == 0 then []
    else
      var qid := nameDict.keys[n - 1];
      AliasPairs(aliasesOf, nameDict, n - 1) + Tagged(qid, aliasesOf(nameDict.values[qid]))
  }

  /** One step of the grouping loop: `aliases_to_qids[alias]` is created
      empty when missing, then the id is appended to it. */
  function AddAlias(m: OrderedMap<string, seq<string>>, a: Alias): (r: OrderedMap<string, seq<string>>)
    requires m.Valid()
    ensures r.Valid()
  {
    var m1 := if a.alias in m.values then m else m.Put(a.alias, []);
    m1.Put(a.alias, m1.values[a.alias] + [a.qid])
  }

  /** The grouping of the given aliases, in order. */
  function Group(pairs: seq<Alias>): (m: OrderedMap<string, seq<string>>)
    ensures m.Valid()
    decreases |pairs|
  {
    if pairs == [] then Empty() else AddAlias(Group(pairs[..|pairs| - 1]), pairs[|pairs| - 1])
  }

  /** The map part of `Group`. */
  function GroupedValues(pairs: seq<Alias>): map<string, seq<string>>
    decreases |pairs|
  {
    if pairs == [] then map[]
    else
      var m := GroupedValues(pairs[..|pairs| - 1]);
      var a := pairs[|pairs| - 1];
      m[a.alias := (if a.alias in m then m[a.alias] else []) + [a.qid]]
  }

  /** The ids of the given aliases that are `alias`, in order. */
  function QidsOf(pairs: seq<Alias>, alias: string): seq<string>
    decreases |pairs|
  {
    if pairs == [] then []
    else
      var a := pairs[|pairs| - 1];
      QidsOf(pairs[..|pairs| - 1], alias) + (if a.alias == alias then [a.qid] else [])
  }

  /** The aliases of the given pairs, in order. */
  function AliasNames(pairs: seq<Alias>): (r: seq<string>)
    ensures |r| == |pairs|
  {
    MapSeq(AliasName, pairs)
  }

  function AliasName(a: Alias): string {
    a.alias
  }

  lemma {:induction false} GroupValues(pairs: seq<Alias>)
    ensures Group(pairs).values == GroupedValues(pairs)
    decreases |pairs|
  {
    if pairs != [] {
      GroupValues(pairs[..|pairs| - 1]);
    }
  }

  lemma {:induction false} GroupedValuesMembers(pairs: seq<Alias>, alias: string)
    ensures alias in GroupedValues(pairs) <==> exists i :: 0 <= i < |pairs| && pairs[i].alias == alias
    ensures alias in GroupedValues(pairs) ==> GroupedValues(pairs)[alias] == QidsOf(pairs, alias) != []
    ensures alias !in GroupedValues(pairs) ==> QidsOf(pairs, alias) == []
    decreases |pairs|
  {
    if pairs != [] {
      var n := |pairs| - 1;
      GroupedValuesMembers(pairs[..n], alias);
      assert forall i :: 0 <= i < n ==> pairs[..n][i] == pairs[i];
    }
  }

  lemma {:induction false} GroupKeys(pairs: seq<Alias>)
    ensures Group(pairs).keys == Dedup(AliasNames(pairs))
    decreases |pairs|
  {
    if pairs != [] {
      var n := |pairs| - 1;
      GroupKeys(pairs[..n]);
      MapSeqPrefixStep(AliasName, pairs, n);
      assert pairs[..n + 1] == pairs;
      assert AliasNames(pairs)[..n] == AliasNames(pairs[..n]);
    }
  }

  /** After the grouping, the aliases are listed once each, in order of
      first appearance; an alias is present exactly when some pair carries
      it, and then it maps to the nonempty list of the ids paired with it,
      in order. */
  lemma GroupCharacterized(pairs: seq<Alias>, alias: string)
    ensures Group(pairs).keys == Dedup(AliasNames(pairs))
    ensures alias in Group(pairs).values <==> exists i :: 0 <= i < |pairs| && pairs[i].alias == alias
    ensures alias in Group(pairs).values ==> Group(pairs).values[alias] == QidsOf(pairs, alias) != []
  {
    GroupKeys(pairs);
    GroupValues(pairs);
    GroupedValuesMembers(pairs, alias);
  }

  /** The loop over `name_dict`: the aliases of each entity's normalized
      name, each appended under its alias. */
  method GroupAliases(ling: Linguistics, nameDict: OrderedMap<string, string>)
    returns (aliasesToQids: OrderedMap<string, seq<string>>)
    requires nameDict.Valid()
    ensures aliasesToQids == Group(AliasPairs(NameAliases(ling), nameDict, |nameDict.keys|))
  {
    aliasesToQids := GroupEach(ling, nameDict, NameAliases(ling));
  }

  method GroupEach(ling: Linguistics, nameDict: OrderedMap<string, string>, ghost aliasesOf: string -> seq<string>)
    returns (aliasesToQids: OrderedMap<string, seq<string>>)
    requires nameDict.Valid()
    requires forall name :: aliasesOf(name) == Candidates(Normalize(ling, name))
    ensures aliasesToQids == Group(AliasPairs(aliasesOf, nameDict, |nameDict.keys|))
  {
    aliasesToQids := Empty();
    for idx := 0 to |nameDict.keys|
      invariant aliasesToQids == Group(AliasPairs(aliasesOf, nameDict, idx))
    {
      aliasesToQids := GroupEntity(ling, nameDict, aliasesOf, idx, aliasesToQids);
    }
  }

  /** One pass of the loop over `name_dict`: the aliases of entity idx. */
  method GroupEntity(ling: Linguistics, nameDict: OrderedMap<string, string>, ghost aliasesOf: string -> seq<string>,
                     idx: nat, m: OrderedMap<string, seq<string>>)
    returns (aliasesToQids: OrderedMap<string, seq<string>>)
    requires nameDict.Valid() && idx < |nameDict.keys|
    requires forall name :: aliasesOf(name) == Candidates(Normalize(ling, name))
    requires m == Group(AliasPairs(aliasesOf, nameDict, idx))
    ensures aliasesToQids == Group(AliasPairs(aliasesOf, nameDict, idx + 1))
  {
    var qid := nameDict.keys[idx];
    var name := nameDict.values[qid];
    var aliases := GenerateCandidates(Normalize(ling, name));
    assert AliasPairs(aliasesOf, nameDict, idx + 1) == AliasPairs(aliasesOf, nameDict, idx) + Tagged(qid, aliases);
    aliasesToQids := AddAliases(m, qid, aliases, AliasPairs(aliasesOf, nameDict, idx));
  }

  /** The inner loop: each alias of one entity, in order, gets the entity's id appended. */
  method AddAliases(m: OrderedMap<string, seq<string>>, qid: string, aliases: seq<string>, ghost before: seq<Alias>)
    returns (aliasesToQids: OrderedMap<string, seq<string>>)
    requires m == Group(before)
    ensures aliasesToQids == Group(before + Tagged(qid, aliases))
  {
    aliasesToQids := m;
    ghost var tag := Tag(qid);
    assert before + MapSeq(tag, aliases[..0]) == before;
    for j := 0 to |aliases|
      invariant aliasesToQids == Group(before + MapSeq(tag, aliases[..j]))
    {
      var alias := aliases[j];
      MapSeqPrefixStep(tag, aliases, j);
      AppendAssoc(before, MapSeq(tag, aliases[..j]), [Alias(alias, qid)]);
      GroupSnoc(before + MapSeq(tag, aliases[..j]), Alias(alias, qid));
      if alias !in aliasesToQids.values {
        aliasesToQids := aliasesToQids.Put(alias, []);
      }
      aliasesToQids := aliasesToQids.Put(alias, aliasesToQids.values[alias] + [qid]);
    }
    assert aliases[..|aliases|] == aliases;
  }

  lemma GroupSnoc(pairs: seq<Alias>, a: Alias)
    ensures Group(pairs + [a]) == AddAlias(Group(pairs), a)
  {
    assert (pairs + [a])[..|pairs|] == pairs;
  }

  /** Each pair comes from an entity of `name_dict` (at the returned
      position) and one of the aliases of its name. */
  lemma {:induction false} AliasPairsSource(aliasesOf: string -> seq<string>, nameDict: OrderedMap<string, string>, n: nat, a: Alias)
    returns (i: nat)
    requires nameDict.Valid() && n <= |nameDict.keys|
    requires a in AliasPairs(aliasesOf, nameDict, n)
    ensures i < n && nameDict.keys[i] == a.qid && a.qid in nameDict.values
    ensures a.alias in aliasesOf(nameDict.values[a.qid])
  {
    i := 0;
    if n != 0 {
      var qid := nameDict.keys[n - 1];
      if a in AliasPairs(aliasesOf, nameDict, n - 1) {
        i := AliasPairsSource(aliasesOf, nameDict, n - 1, a);
      } else {
        TaggedMember(qid, aliasesOf(nameDict.values[qid]), a);
        i := n - 1;
      }
    }
  }

  /** Every alias of the name of each of the first n entities is paired
      with its id, at the returned position. */
  lemma {:induction false} AliasPairsContains(aliasesOf: string -> seq<string>, nameDict: OrderedMap<string, string>, n: nat, i: nat, a: Alias)
    returns (k: nat)
    requires nameDict.Valid() && i < n <= |nameDict.keys|
    requires nameDict.keys[i] == a.qid && a.qid in nameDict.values && a.alias in aliasesOf(nameDict.values[a.qid])
    ensures k < |AliasPairs(aliasesOf, nameDict, n)| && AliasPairs(aliasesOf, nameDict, n)[k] == a
  {
    var before := AliasPairs(aliasesOf, nameDict, n - 1);
    var aliases := aliasesOf(nameDict.values[nameDict.keys[n - 1]]);
    assert AliasPairs(aliasesOf, nameDict, n) == before + Tagged(nameDict.keys[n - 1], aliases);
    if i < n - 1 {
      k := AliasPairsContains(aliasesOf, nameDict, n - 1, i, a);
    } else {
      var j :| 0 <= j < |aliases| && aliases[j] == a.alias;
      MapSeqAt(Tag(a.qid), aliases, j);
      k := |before| + j;
    }
  }

  /** An alias is a key of the grouping exactly when it is an alias of some
      entity's name. An id is listed under an alias exactly when the id is
      in `name_dict` and the alias is an alias of its name; the ids under an
      alias are the ids paired with it, in `name_dict` order. */
  lemma GroupAliasesCharacterized(aliasesOf: string -> seq<string>, nameDict: OrderedMap<string, string>, alias: string, qid: string)
    requires nameDict.Valid()
    ensures var m := Group(AliasPairs(aliasesOf, nameDict, |nameDict.keys|));
      alias in m.values <==> exists q :: q in nameDict.values && alias in aliasesOf(nameDict.values[q])
    ensures var m := Group(AliasPairs(aliasesOf, nameDict, |nameDict.keys|));
      alias in m.values ==> (qid in m.values[alias] <==>
        qid in nameDict.values && alias in aliasesOf(nameDict.values[qid]))
  {
    GroupAliasesKeys(aliasesOf, nameDict, alias);
    var pairs := AliasPairs(aliasesOf, nameDict, |nameDict.keys|);
    GroupCharacterized(pairs, alias);
    QidsOfMembers(pairs, alias, qid);
    if Alias(alias, qid) in pairs {
      var i := AliasPairsSource(aliasesOf, nameDict, |nameDict.keys|, Alias(alias, qid));
    }
    if qid in nameDict.values && alias in aliasesOf(nameDict.values[qid]) {
      var i :| 0 <= i < |nameDict.keys| && nameDict.keys[i] == qid;
      var k := AliasPairsContains(aliasesOf, nameDict, |nameDict.keys|, i, Alias(alias, qid));
    }
  }

  lemma GroupAliasesKeys(aliasesOf: string -> seq<string>, nameDict: OrderedMap<string, string>, alias: string)
    requires nameDict.Valid()
    ensures var m := Group(AliasPairs(aliasesOf, nameDict, |nameDict.keys|));
      alias in m.values <==> exists q :: q in nameDict.values && alias in aliasesOf(nameDict.values[q])
  {
    var pairs := AliasPairs(aliasesOf, nameDict, |nameDict.keys|);
    GroupCharacterized(pairs, alias);
    if alias in Group(pairs).values {
      var k :| 0 <= k < |pairs| && pairs[k].alias == alias;
      var i := AliasPairsSource(aliasesOf, nameDict, |nameDict.keys|, pairs[k]);
    }
    if exists q :: q in nameDict.values && alias in aliasesOf(nameDict.values[q]) {
      var q :| q in nameDict.values && alias in aliasesOf(nameDict.values[q]);
      var i :| 0 <= i < |nameDict.keys| && nameDict.keys[i] == q;
      var k := AliasPairsContains(aliasesOf, nameDict, |nameDict.keys|, i, Alias(alias, q));
    }
  }

  lemma {:induction false} QidsOfMembers(pairs: seq<Alias>, alias: string, qid: string)
    ensures qid in QidsOf(pairs, alias) <==> Alias(alias, qid) in pairs
    decreases |pairs|
  {
    if pairs != [] {
      var n := |pairs| - 1;
      QidsOfMembers(pairs[..n], alias, qid);
      assert pairs == pairs[..n] + [pairs[n]];
    }
  }

  // ---------------------------------------------------------------------
  // The probabilities handed to `add_alias`

  /** `[1.0/len(qids) for i in qids]`, on exact reals. */
  function AliasProbabilities(qids: seq<string>): (ps: seq<real>)
    ensures |ps| == |qids|
  {
    seq(|qids|, i requires 0 <= i < |qids| => 1.0 / (|qids| as real))
  }

  function Sum(xs: seq<real>): real
    decreases |xs|
  {
    if xs == [] then 0.0 else Sum(xs[..|xs| - 1]) + xs[|xs| - 1]
  }

  lemma {:induction false} SumConstant(xs: seq<real>, c: real)
    requires forall i :: 0 <= i < |xs| ==> xs[i] == c
    ensures Sum(xs) == (|xs| as real) * c
    decreases |xs|
  {
    if xs != [] {
      SumConstant(xs[..|xs| - 1], c);
    }
  }

  /** The probabilities of a nonempty id list are equal and add up to one. */
  lemma ProbabilitiesSumToOne(qids: seq<string>)
    requires qids != []
    ensures Sum(AliasProbabilities(qids)) == 1.0
    ensures forall i, j :: 0 <= i < j < |qids| ==> AliasProbabilities(qids)[i] == AliasProbabilities(qids)[j]
  {
    var n := |qids| as real;
    SumConstant(AliasProbabilities(qids), 1.0 / n);
    assert n * (1.0 / n) == 1.0;
  }

  /** Every alias of the grouping gets probabilities that add up to one. */
  lemma GroupProbabilities(pairs: seq<Alias>, alias: string)
    requires alias in Group(pairs).values
    ensures Sum(AliasProbabilities(Group(pairs).values[alias])) == 1.0
  {
    GroupCharacterized(pairs, alias);
    ProbabilitiesSumToOne(Group(pairs).values[alias]);
  }
}
