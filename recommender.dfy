/**
 The recommendation query over a table of association rules.

 Given the rule table, a service key and a count, the query sorts the rules by
 lift (largest first), walks the sorted antecedents, and for every row whose
 antecedent holds the service collects a consequent set; the collected sets are
 flattened through a set (dropping repeats, losing order) and cut to the count.

 The collected consequent set is looked up by POSITION in the sorted table with
 the row's original label (`rowLabel`), so it is in general not the consequent of the row
 that matched. The model keeps that lookup as written; `RecommendByLabel` is
 the variant that reads the matched row's own consequent.
 */
module Recommender {

  type Item = string

  /** One row of the rule table. Only the antecedent, the consequent and the
      lift are read by the query; lift is used only for ordering. */
  datatype Rule = Rule(antecedents: set<Item>, consequents: set<Item>, lift: real)

  /** A rule together with its row label, the position it had in the input table. */
  datatype Row = Row(rowLabel: nat, rule: Rule)

  /** The input table with its default labels 0, 1, ..., n-1. */
  function Labelled(rules: seq<Rule>): (rows: seq<Row>)
    ensures |rows| == |rules|
    ensures forall k :: 0 <= k < |rows| ==> rows[k] == Row(k, rules[k])
  {
    seq(|rules|, k requires 0 <= k < |rules| => Row(k, rules[k]))
  }

  ghost predicate LiftOrdered(rows: seq<Row>) {
    forall i, j :: 0 <= i < j < |rows| ==> rows[i].rule.lift >= rows[j].rule.lift
  }

  ghost predicate NoDuplicates(s: seq<Item>) {
    forall i, j :: 0 <= i < j < |s| ==> s[i] != s[j]
  }

  /** Puts `x` in front of the first row whose lift it reaches. */
  function InsertByLift(x: Row, rows: seq<Row>): (r: seq<Row>)
    requires LiftOrdered(rows)
    ensures LiftOrdered(r)
    ensures multiset(r) == multiset(rows) + multiset{x}
  {
    if rows == [] || x.rule.lift >= rows[0].rule.lift then
      [x] + rows
    else
      var rest := InsertByLift(x, rows[1..]);
      HeadStaysFirst(x, rows, rest);
      [rows[0]] + rest
  }

  /** When `x` goes below the head of `rows`, the head stays in front of the rest. */
  lemma HeadStaysFirst(x: Row, rows: seq<Row>, rest: seq<Row>)
    requires rows != [] && LiftOrdered(rows) && x.rule.lift < rows[0].rule.lift
    requires LiftOrdered(rest) && multiset(rest) == multiset(rows[1..]) + multiset{x}
    ensures LiftOrdered([rows[0]] + rest)
    ensures multiset([rows[0]] + rest) == multiset(rows) + multiset{x}
  {
    assert rows == [rows[0]] + rows[1..];
    forall j | 0 <= j < |rest| ensures rows[0].rule.lift >= rest[j].rule.lift {
      assert rest[j] in multiset(rest);
      if rest[j] != x {
        assert rest[j] in rows[1..];
      }
    }
  }

  /** The rows in non-increasing order of lift; rows of equal lift keep their input order. */
  function SortByLift(rows: seq<Row>): (sorted: seq<Row>)
    ensures LiftOrdered(sorted)
    ensures multiset(sorted) == multiset(rows)
  {
    if rows == [] then []
    else
      assert rows == [rows[0]] + rows[1..];
      InsertByLift(rows[0], SortByLift(rows[1..]))
  }

  /** The input table sorted by lift, largest first: a permutation of the
      labelled rows, lift non-increasing, each row keeping its label. */
  function SortedTable(rules: seq<Rule>): (table: seq<Row>)
    ensures |table| == |rules|
    ensures LiftOrdered(table)
    ensures multiset(table) == multiset(Labelled(rules))
    ensures forall k :: 0 <= k < |table| ==> table[k].rowLabel < |rules| && table[k].rule == rules[table[k].rowLabel]
  {
    var table := SortByLift(Labelled(rules));
    assert |table| == |multiset(table)|;
    SortedRowsAreLabelled(rules, table);
    table
  }

  lemma SortedRowsAreLabelled(rules: seq<Rule>, table: seq<Row>)
    requires multiset(table) == multiset(Labelled(rules))
    ensures forall k :: 0 <= k < |table| ==> table[k].rowLabel < |rules| && table[k].rule == rules[table[k].rowLabel]
  {
    forall k | 0 <= k < |table|
      ensures table[k].rowLabel < |rules| && table[k].rule == rules[table[k].rowLabel]
    {
      assert table[k] in multiset(Labelled(rules));
      assert table[k] in Labelled(rules);
    }
  }

  /** Every label of the table is a position of the table, so reading the row at position `rowLabel` is defined. */
  ghost predicate LabelsInRange(table: seq<Row>) {
    forall k :: 0 <= k < |table| ==> table[k].rowLabel < |table|
  }

  /** The consequent sets appended by the first `n` rows of the sorted table:
      a row whose antecedent holds `productId` appends the consequent of the row
      at position `rowLabel`. */
  ghost function Appended(table: seq<Row>, productId: Item, n: nat): seq<set<Item>>
    requires n <= |table| && LabelsInRange(table)
  {
    if n == 0 then []
    else
      Appended(table, productId, n - 1) +
      (if productId in table[n - 1].rule.antecedents
       then [table[table[n - 1].rowLabel].rule.consequents] else [])
  }

  /** The items of all the sets in `lists`. */
  ghost function Union(lists: seq<set<Item>>): set<Item> {
    if lists == [] then {} else Union(lists[..|lists| - 1]) + lists[|lists| - 1]
  }

  lemma {:induction false} UnionMembers(lists: seq<set<Item>>, x: Item)
    ensures x in Union(lists) <==> exists i :: 0 <= i < |lists| && x in lists[i]
  {
    if lists != [] {
      var init := lists[..|lists| - 1];
      UnionMembers(init, x);
      if x in Union(init) {
        var i :| 0 <= i < |init| && x in init[i];
        assert x in lists[i];
      }
      if exists i :: 0 <= i < |lists| && x in lists[i] {
        var i :| 0 <= i < |lists| && x in lists[i];
        if i < |init| {
          assert x in init[i];
        }
      }
    }
  }

  /** Which sets are appended: each one comes from a row whose antecedent holds
      `productId`, and every such row appends one. */
  lemma {:induction false} AppendedMembers(table: seq<Row>, productId: Item, n: nat, s: set<Item>)
    requires n <= |table| && LabelsInRange(table)
    ensures s in Appended(table, productId, n) <==>
            exists k :: 0 <= k < n && productId in table[k].rule.antecedents &&
                        s == table[table[k].rowLabel].rule.consequents
  {
    if n > 0 {
      AppendedMembers(table, productId, n - 1, s);
      var before := Appended(table, productId, n - 1);
      var last := n - 1;
      if productId in table[last].rule.antecedents {
        var c := table[table[last].rowLabel].rule.consequents;
        assert Appended(table, productId, n) == before + [c];
        if s == c {
          assert productId in table[last].rule.antecedents && s == table[table[last].rowLabel].rule.consequents;
        }
      } else {
        assert Appended(table, productId, n) == before;
      }
    }
  }

  /** The rows whose antecedent holds `productId`, among the first `n`. */
  ghost function MatchingRows(table: seq<Row>, productId: Item, n: nat): set<nat>
    requires n <= |table|
  {
    set k: nat | k < n && productId in table[k].rule.antecedents
  }

  /** Each matching row appends exactly one set, and no other row appends one. */
  lemma {:induction false} AppendedLength(table: seq<Row>, productId: Item, n: nat)
    requires n <= |table| && LabelsInRange(table)
    ensures |Appended(table, productId, n)| == |MatchingRows(table, productId, n)|
  {
    if n > 0 {
      AppendedLength(table, productId, n - 1);
      var before := MatchingRows(table, productId, n - 1);
      if productId in table[n - 1].rule.antecedents {
        assert MatchingRows(table, productId, n) == before + {n - 1};
      } else {
        assert MatchingRows(table, productId, n) == before;
      }
    } else {
      assert MatchingRows(table, productId, n) == {};
    }
  }

  /** The items the query draws its recommendations from: the flattened,
      deduplicated appended sets for the sorted table of `rules`. */
  ghost function RecommendationPool(rules: seq<Rule>, productId: Item): set<Item> {
    var table := SortedTable(rules);
    Union(Appended(table, productId, |table|))
  }

  /** An item is in the pool exactly when some sorted row whose antecedent
      holds `productId` has a label whose position in the sorted table holds
      a consequent with that item. */
  lemma PoolMembers(rules: seq<Rule>, productId: Item, x: Item)
    ensures var table := SortedTable(rules);
            x in RecommendationPool(rules, productId) <==>
            exists k :: 0 <= k < |table| && productId in table[k].rule.antecedents &&
                        x in table[table[k].rowLabel].rule.consequents
  {
    var table := SortedTable(rules);
    var lists := Appended(table, productId, |table|);
    UnionMembers(lists, x);
    if x in Union(lists) {
      var i :| 0 <= i < |lists| && x in lists[i];
      AppendedMembers(table, productId, |table|, lists[i]);
    }
    if exists k :: 0 <= k < |table| && productId in table[k].rule.antecedents &&
                   x in table[table[k].rowLabel].rule.consequents {
      var k :| 0 <= k < |table| && productId in table[k].rule.antecedents &&
               x in table[table[k].rowLabel].rule.consequents;
      var s := table[table[k].rowLabel].rule.consequents;
      AppendedMembers(table, productId, |table|, s);
      var i :| 0 <= i < |lists| && lists[i] == s;
    }
  }

  /** A service that is in no antecedent gets nothing appended, so the pool is empty. */
  lemma NoMatchEmptyPool(rules: seq<Rule>, productId: Item)
    requires forall r :: r in rules ==> productId !in r.antecedents
    ensures RecommendationPool(rules, productId) == {}
  {
    var table := SortedTable(rules);
    forall k | 0 <= k < |table| ensures productId !in table[k].rule.antecedents {
      assert table[k].rule in rules;
    }
    forall x ensures x !in RecommendationPool(rules, productId) {
      PoolMembers(rules, productId, x);
    }
  }

  /** len(xs[:stop]) for a Python list xs of length n: a negative stop counts from the end. */
  function PrefixLength(n: nat, stop: int): (len: nat)
    ensures len <= n
  {
    if stop >= 0 then (if stop < n then stop else n)
    else if n + stop > 0 then n + stop else 0
  }

  /** The nested loops over the sorted table: for each row, each antecedent
      element equal to `productId` appends the consequents of the row whose
      POSITION is this row's label. */
  method CollectConsequents(sortedRules: seq<Row>, productId: Item) returns (recommendationList: seq<set<Item>>)
    requires LabelsInRange(sortedRules)
    ensures recommendationList == Appended(sortedRules, productId, |sortedRules|)
  {
    recommendationList := [];
    for k := 0 to |sortedRules|
      invariant recommendationList == Appended(sortedRules, productId, k)
    {
      var product := sortedRules[k].rule.antecedents;
      var consequents := sortedRules[sortedRules[k].rowLabel].rule.consequents;
      var remaining := product;
      while remaining != {}
        invariant remaining <= product
        invariant recommendationList == Appended(sortedRules, productId, k) +
                    (if productId in product - remaining then [consequents] else [])
        decreases remaining
      {
        var j :| j in remaining;
        if j == productId {
          recommendationList := recommendationList + [consequents];
        }
        remaining := remaining - {j};
      }
    }
  }

  /** The items of all collected sets, once each and in no
      particular order, cut with Python's slice `[:recCount]`. */
  method FlattenAndTruncate(lists: seq<set<Item>>, recCount: int) returns (recs: seq<Item>)
    ensures NoDuplicates(recs)
    ensures forall x :: x in recs ==> x in Union(lists)
    ensures |recs| == PrefixLength(|Union(lists)|, recCount)
    ensures |recs| == |Union(lists)| ==> forall x :: x in Union(lists) ==> x in recs
  {
    var pool: set<Item> := {};
    for k := 0 to |lists|
      invariant pool == Union(lists[..k])
    {
      assert lists[..k + 1][..k] == lists[..k];
      pool := pool + lists[k];
    }
    assert lists[..|lists|] == lists;
    var all: seq<Item> := [];
    var remaining := pool;
    while remaining != {}
      invariant remaining <= pool
      invariant NoDuplicates(all)
      invariant forall x :: x in all <==> x in pool && x !in remaining
      invariant |all| + |remaining| == |pool|
      decreases remaining
    {
      var x :| x in remaining;
      all := all + [x];
      remaining := remaining - {x};
    }
    recs := all[..PrefixLength(|all|, recCount)];
  }

  /** The recommendation query: sort the rules by lift, collect consequents for
      the rows whose antecedent holds `productId`, flatten without repeats and
      keep the first `recCount` (Python slice semantics, so a negative count
      drops items from the end). */
  method ArlRecommender(rules: seq<Rule>, productId: Item, recCount: int) returns (recs: seq<Item>)
    ensures NoDuplicates(recs)
    ensures forall x :: x in recs ==> x in RecommendationPool(rules, productId)
    ensures forall x :: x in recs ==>
              var table := SortedTable(rules);
              exists k :: 0 <= k < |table| && productId in table[k].rule.antecedents &&
                          x in table[table[k].rowLabel].rule.consequents
    ensures |recs| == PrefixLength(|RecommendationPool(rules, productId)|, recCount)
    ensures recCount >= 0 ==> |recs| <= recCount
    ensures 0 <= recCount <= |RecommendationPool(rules, productId)| ==> |recs| == recCount
    ensures recCount >= |RecommendationPool(rules, productId)| ==>
              forall x :: x in RecommendationPool(rules, productId) ==> x in recs
    ensures (forall r :: r in rules ==> productId !in r.antecedents) ==> recs == []
  {
    var sortedRules := SortedTable(rules);
    var recommendationList := CollectConsequents(sortedRules, productId);
    recs := FlattenAndTruncate(recommendationList, recCount);
    forall x | x in recs
      ensures exists k :: 0 <= k < |sortedRules| && productId in sortedRules[k].rule.antecedents &&
                          x in sortedRules[sortedRules[k].rowLabel].rule.consequents
    {
      PoolMembers(rules, productId, x);
    }
    if forall r :: r in rules ==> productId !in r.antecedents {
      NoMatchEmptyPool(rules, productId);
    }
  }

  /** The items of the consequents of those among the first `n` rows whose
      antecedent holds `productId`: what the query evidently means to collect. */
  ghost function MatchedItems(table: seq<Row>, productId: Item, n: nat): set<Item>
    requires n <= |table|
  {
    set k, x | 0 <= k < n && productId in table[k].rule.antecedents && x in table[k].rule.consequents :: x
  }

  /** The consequent items of the input rules whose antecedent holds `productId`. */
  ghost function IntendedPool(rules: seq<Rule>, productId: Item): set<Item> {
    MatchedItems(Labelled(rules), productId, |rules|)
  }

  /** Sorting does not change which rules match, so it does not change their items. */
  lemma SortingKeepsMatchedItems(rules: seq<Rule>, productId: Item)
    ensures MatchedItems(SortedTable(rules), productId, |rules|) == IntendedPool(rules, productId)
  {
    var table, rows := SortedTable(rules), Labelled(rules);
    forall x | x in MatchedItems(table, productId, |rules|) ensures x in IntendedPool(rules, productId) {
      var k :| 0 <= k < |rules| && productId in table[k].rule.antecedents && x in table[k].rule.consequents;
      var m := table[k].rowLabel;
      assert rows[m].rule == table[k].rule;
    }
    forall x | x in IntendedPool(rules, productId) ensures x in MatchedItems(table, productId, |rules|) {
      var m :| 0 <= m < |rules| && productId in rows[m].rule.antecedents && x in rows[m].rule.consequents;
      assert rows[m] in multiset(table);
      var k :| 0 <= k < |table| && table[k] == rows[m];
    }
  }

  /** The collecting loop corrected to read the matched row's own consequents. */
  method CollectMatchedConsequents(sortedRules: seq<Row>, productId: Item) returns (recommendationList: seq<set<Item>>)
    ensures Union(recommendationList) == MatchedItems(sortedRules, productId, |sortedRules|)
  {
    recommendationList := [];
    for k := 0 to |sortedRules|
      invariant Union(recommendationList) == MatchedItems(sortedRules, productId, k)
    {
      var before := recommendationList;
      if productId in sortedRules[k].rule.antecedents {
        recommendationList := recommendationList + [sortedRules[k].rule.consequents];
        assert recommendationList[..|before|] == before;
      }
      assert MatchedItems(sortedRules, productId, k + 1) ==
             MatchedItems(sortedRules, productId, k) +
             (if productId in sortedRules[k].rule.antecedents then sortedRules[k].rule.consequents else {});
    }
  }

  /** The recommendation query with the consequents read from the matched rule: every
      recommendation is a consequent item of a rule whose antecedent holds `productId`. */
  method RecommendByLabel(rules: seq<Rule>, productId: Item, recCount: int) returns (recs: seq<Item>)
    ensures NoDuplicates(recs)
    ensures forall x :: x in recs ==>
              exists k :: 0 <= k < |rules| && productId in rules[k].antecedents && x in rules[k].consequents
    ensures |recs| == PrefixLength(|IntendedPool(rules, productId)|, recCount)
    ensures recCount >= |IntendedPool(rules, productId)| ==>
              forall x :: x in IntendedPool(rules, productId) ==> x in recs
  {
    var sortedRules := SortedTable(rules);
    var recommendationList := CollectMatchedConsequents(sortedRules, productId);
    SortingKeepsMatchedItems(rules, productId);
    recs := FlattenAndTruncate(recommendationList, recCount);
  }

  /** The rows of an input already in non-increasing lift order stay where they are. */
  lemma {:induction false} SortByLiftOfOrdered(rows: seq<Row>)
    requires LiftOrdered(rows)
    ensures SortByLift(rows) == rows
  {
    if rows != [] {
      SortByLiftOfOrdered(rows[1..]);
      assert rows == [rows[0]] + rows[1..];
    }
  }

  /** On a table already in non-increasing lift order every label equals its
      position, so the positional lookup reads the matched row after all. */
  lemma AlreadyOrderedLookupIsHarmless(rules: seq<Rule>, productId: Item)
    requires forall i, j :: 0 <= i < j < |rules| ==> rules[i].lift >= rules[j].lift
    ensures RecommendationPool(rules, productId) == IntendedPool(rules, productId)
  {
    var rows := Labelled(rules);
    SortByLiftOfOrdered(rows);
    var table := SortedTable(rules);
    assert table == rows;
    forall x ensures x in RecommendationPool(rules, productId) <==> x in IntendedPool(rules, productId) {
      PoolMembers(rules, productId, x);
    }
  }

  /** Sorting {a} -> {b} (lift 1) and {c} -> {d} (lift 2) puts label 1 first. */
  lemma ExampleSortedTable(r0: Rule, r1: Rule)
    requires r0 == Rule({"a"}, {"b"}, 1.0) && r1 == Rule({"c"}, {"d"}, 2.0)
    ensures SortedTable([r0, r1]) == [Row(1, r1), Row(0, r0)]
  {
    var rows := Labelled([r0, r1]);
    assert rows == [Row(0, r0), Row(1, r1)];
    assert rows[1..] == [Row(1, r1)];
    assert SortByLift(rows[1..]) == [Row(1, r1)];
    assert InsertByLift(Row(0, r0), [Row(1, r1)]) == [Row(1, r1)] + InsertByLift(Row(0, r0), []);
  }

  /** Two rules, {a} -> {b} with lift 1 and {c} -> {d} with lift 2. Sorting puts
      label 1 first; the row with antecedent {a} has label 0 and reads position 0
      of the sorted table, the rule {c} -> {d}. So "d" is recommended for "a",
      which is no consequent of any rule with "a" in its antecedent. */
  lemma PositionalLookupExample(r0: Rule, r1: Rule)
    requires r0 == Rule({"a"}, {"b"}, 1.0) && r1 == Rule({"c"}, {"d"}, 2.0)
    ensures RecommendationPool([r0, r1], "a") == {"d"}
    ensures IntendedPool([r0, r1], "a") == {"b"}
  {
    ExampleSortedTable(r0, r1);
    var table := SortedTable([r0, r1]);
    assert "a" !in r1.antecedents;
    assert Appended(table, "a", 1) == [];
    assert Appended(table, "a", 2) == [r1.consequents];
    assert Union([r1.consequents]) == {"d"} by {
      assert [r1.consequents][..0] == [];
    }
    var rows := Labelled([r0, r1]);
    assert rows == [Row(0, r0), Row(1, r1)];
    forall x ensures x in IntendedPool([r0, r1], "a") <==> x == "b" {
      if x == "b" {
        assert "a" in rows[0].rule.antecedents && x in rows[0].rule.consequents;
      }
    }
  }
}
