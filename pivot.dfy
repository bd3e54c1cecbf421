/**
 The basket × service incidence table.

 The prepared (BasketID, Service) rows are grouped by the pair and counted,
 unstacked into a table with one row per basket and one column per service,
 the missing combinations are filled with 0, and every count is turned into
 1 when it is positive. A cell of the result is 1 exactly when some row of the
 input has that basket and that service.
 */
module Pivot {
  import opened Keys

  /** How many rows of `entries` are the pair `cell`. */
  function Count(entries: seq<Entry>, cell: Entry): (n: nat)
    ensures n == multiset(entries)[cell]
  {
    if entries == [] then 0
    else
      assert entries == [entries[0]] + entries[1..];
      (if entries[0] == cell then 1 else 0) + Count(entries[1..], cell)
  }

  /** Grouping the rows by (basket, service) and counting each group: one
      group per pair that occurs, holding the number of rows with that pair. */
  function GroupCount(entries: seq<Entry>): (groups: map<Entry, nat>)
    ensures forall e :: e in groups <==> e in entries
    ensures forall e :: e in groups ==> groups[e] == multiset(entries)[e] && groups[e] > 0
  {
    map e | e in entries :: Count(entries, e)
  }

  /** The row labels of the table: every basket id that occurs. */
  function BasketIds(entries: seq<Entry>): (baskets: set<string>)
    ensures baskets == {} <==> entries == []
  {
    var labels := set e | e in entries :: e.basketId;
    assert entries != [] ==> entries[0].basketId in labels;
    labels
  }

  /** The column labels of the table: every service key that occurs. */
  function Services(entries: seq<Entry>): (services: set<string>)
    ensures services == {} <==> entries == []
  {
    var labels := set e | e in entries :: e.service;
    assert entries != [] ==> entries[0].service in labels;
    labels
  }

  /** A basket id is a row label exactly when some input row has it. */
  lemma BasketIdsOccur(entries: seq<Entry>, b: string)
    ensures b in BasketIds(entries) <==> exists i :: 0 <= i < |entries| && entries[i].basketId == b
  {
    if b in BasketIds(entries) {
      var e :| e in entries && e.basketId == b;
      var i :| 0 <= i < |entries| && entries[i] == e;
    }
  }

  /** A service key is a column label exactly when some input row has it. */
  lemma ServicesOccur(entries: seq<Entry>, s: string)
    ensures s in Services(entries) <==> exists i :: 0 <= i < |entries| && entries[i].service == s
  {
    if s in Services(entries) {
      var e :| e in entries && e.service == s;
      var i :| 0 <= i < |entries| && entries[i] == e;
    }
  }

  /** All cells of a table with the given row and column labels. */
  function Grid(baskets: set<string>, services: set<string>): set<Entry> {
    set b, s | b in baskets && s in services :: Entry(b, s)
  }

  /** The group counts spread over the whole basket × service grid, with 0 in
      every cell whose pair has no group. */
  function Unstack(groups: map<Entry, nat>, baskets: set<string>, services: set<string>): (table: map<Entry, nat>)
    ensures table.Keys == Grid(baskets, services)
    ensures forall c :: c in table ==> table[c] == (if c in groups then groups[c] else 0)
  {
    map c | c in Grid(baskets, services) :: if c in groups then groups[c] else 0
  }

  /** Before binarising, every cell of the grid holds the number of input rows
      with its pair: a positive count where the pair occurs, 0 where the grid
      combines a basket and a service that never meet. */
  lemma UnstackCounts(entries: seq<Entry>, cell: Entry)
    requires cell in Grid(BasketIds(entries), Services(entries))
    ensures var table := Unstack(GroupCount(entries), BasketIds(entries), Services(entries));
            cell in table && table[cell] == multiset(entries)[cell]
  {
    var groups := GroupCount(entries);
    if cell !in groups {
      assert cell !in entries;
    }
  }

  /** Every cell turned into 1 when its count is positive and 0 otherwise. */
  function Binarize(table: map<Entry, nat>): (bits: map<Entry, nat>)
    ensures bits.Keys == table.Keys
    ensures forall c :: c in bits ==> (bits[c] == 0 || bits[c] == 1) && (bits[c] == 1 <==> table[c] > 0)
  {
    map c | c in table :: if table[c] > 0 then 1 else 0
  }

  /** The binarised basket × service table: grouped, counted, spread over the
      grid and turned into 0/1. */
  function Incidence(entries: seq<Entry>): (table: map<Entry, nat>)
    ensures table.Keys == Grid(BasketIds(entries), Services(entries))
    ensures forall c :: c in table ==> table[c] == 0 || table[c] == 1
    ensures forall c :: c in table ==> (table[c] == 1 <==> c in entries)
  {
    Binarize(Unstack(GroupCount(entries), BasketIds(entries), Services(entries)))
  }

  /** Two inputs with the same pairs have the same row and column labels. */
  lemma SameLabels(e1: seq<Entry>, e2: seq<Entry>)
    requires forall e :: e in e1 <==> e in e2
    ensures BasketIds(e1) == BasketIds(e2) && Services(e1) == Services(e2)
  {
    forall b | b in BasketIds(e1) ensures b in BasketIds(e2) {
      var e :| e in e1 && e.basketId == b;
      assert e in e2;
    }
    forall b | b in BasketIds(e2) ensures b in BasketIds(e1) {
      var e :| e in e2 && e.basketId == b;
      assert e in e1;
    }
    forall s | s in Services(e1) ensures s in Services(e2) {
      var e :| e in e1 && e.service == s;
      assert e in e2;
    }
    forall s | s in Services(e2) ensures s in Services(e1) {
      var e :| e in e2 && e.service == s;
      assert e in e1;
    }
  }

  /** Two tables with the same cells, each 0 or 1, and 1 on the same cells, are equal. */
  lemma SameOnes(t1: map<Entry, nat>, t2: map<Entry, nat>)
    requires t1.Keys == t2.Keys
    requires forall c :: c in t1 ==> (t1[c] == 0 || t1[c] == 1) && (t2[c] == 0 || t2[c] == 1)
    requires forall c :: c in t1 ==> (t1[c] == 1 <==> t2[c] == 1)
    ensures t1 == t2
  {
  }

  /** The table depends only on which pairs occur, not on their order or repetition. */
  lemma IncidenceIgnoresOrderAndRepeats(e1: seq<Entry>, e2: seq<Entry>)
    requires forall e :: e in e1 <==> e in e2
    ensures Incidence(e1) == Incidence(e2)
  {
    SameLabels(e1, e2);
    var t1, t2 := Incidence(e1), Incidence(e2);
    assert Grid(BasketIds(e1), Services(e1)) == Grid(BasketIds(e2), Services(e2));
    assert t1.Keys == t2.Keys;
    forall c | c in t1
      ensures (t1[c] == 0 || t1[c] == 1) && (t2[c] == 0 || t2[c] == 1)
      ensures t1[c] == 1 <==> t2[c] == 1
    {
      assert c in t2;
      assert c in e1 <==> c in e2;
    }
    SameOnes(t1, t2);
  }

  /** A cell of the table is 1 exactly when its pair occurs in the input. */
  lemma OccurringPairIsOne(entries: seq<Entry>, cell: Entry)
    ensures (cell in Incidence(entries) && Incidence(entries)[cell] == 1) <==> cell in entries
  {
    if cell in entries {
      assert cell.basketId in BasketIds(entries) && cell.service in Services(entries);
      assert cell in Grid(BasketIds(entries), Services(entries));
    }
  }

  /** The prepared row of a purchase carries the keys of exactly that purchase. */
  lemma PreparedEntryOf(rows: seq<Purchase>, u: int, ym: string, s: int, c: int)
    ensures Entry(BasketKey(u, ym), ServiceKey(s, c)) in Prepare(rows) <==>
            exists i :: 0 <= i < |rows| && rows[i] == Purchase(u, s, c, ym)
  {
    var entries := Prepare(rows);
    var cell := Entry(BasketKey(u, ym), ServiceKey(s, c));
    if cell in entries {
      var i :| 0 <= i < |entries| && entries[i] == cell;
      assert SplitBasketKey(entries[i].basketId) == Some((u, ym));
      assert SplitServiceKey(entries[i].service) == Some((s, c));
      assert rows[i] == Purchase(u, s, c, ym);
    }
    if exists i :: 0 <= i < |rows| && rows[i] == Purchase(u, s, c, ym) {
      var i :| 0 <= i < |rows| && rows[i] == Purchase(u, s, c, ym);
      assert entries[i] == cell;
    }
  }

  /** From purchases to the table: the cell of user u's basket for month ym and
      of service (s, c) is 1 exactly when u bought service s of category c in ym. */
  lemma PurchaseIncidence(rows: seq<Purchase>, u: int, ym: string, s: int, c: int)
    ensures var table := Incidence(Prepare(rows));
            var cell := Entry(BasketKey(u, ym), ServiceKey(s, c));
            (cell in table && table[cell] == 1) <==>
            exists i :: 0 <= i < |rows| && rows[i] == Purchase(u, s, c, ym)
  {
    OccurringPairIsOne(Prepare(rows), Entry(BasketKey(u, ym), ServiceKey(s, c)));
    PreparedEntryOf(rows, u, ym, s, c);
  }
}
