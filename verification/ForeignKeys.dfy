// Foreign-key ordering and foreign-key values of the demo data generators
// (demo/synthetic-data-gen.py and demo/synthesize-workload.py).
module ForeignKeys {
  type Table = string
  type Graph = map<Table, set<Table>>

  datatype ForeignKey = ForeignKey(column: string, refTable: Table, refColumn: string)
  // `generated` says that the database fills the column in: an integer "id", a serial or an identity.
  datatype Column = Column(name: string, generated: bool)
  datatype Value = Number(n: int) | Other(text: string)
  type Row = map<string, Value>

  function Deps(graph: Graph, t: Table): set<Table> {
    if t in graph then graph[t] else {}
  }

  function Elems(s: seq<Table>): set<Table> {
    set x | x in s
  }

  ghost predicate Distinct(s: seq<Table>) {
    forall i, j :: 0 <= i < j < |s| ==> s[i] != s[j]
  }

  // A walk along references from a table to a different one.
  ghost predicate Walk(graph: Graph, w: seq<Table>) {
    forall i :: 0 < i < |w| ==> w[i] in Deps(graph, w[i - 1]) && w[i] != w[i - 1]
  }

  ghost predicate ClosedWalk(graph: Graph, w: seq<Table>) {
    Walk(graph, w) && |w| >= 2 && w[0] == w[|w| - 1]
  }

  /** Two or more tables refer to each other in a circle. */
  ghost predicate Cyclic(graph: Graph) {
    exists w :: ClosedWalk(graph, w)
  }

  // Every table a table refers to, except itself, comes before it.
  ghost predicate ParentsFirst(graph: Graph, order: seq<Table>) {
    forall i, d :: 0 <= i < |order| && d in Deps(graph, order[i]) && d != order[i] ==> d in order[..i]
  }

  // ---- the depth-first search ----

  // A reference back to a table on the stack closes a circle.
  lemma BackReference(graph: Graph, stack: seq<Table>, d: Table)
    requires stack != [] && Walk(graph, stack) && d in stack
    requires d in Deps(graph, stack[|stack| - 1]) && d != stack[|stack| - 1]
    ensures Cyclic(graph)
  {
    var j :| 0 <= j < |stack| && stack[j] == d;
    assert ClosedWalk(graph, stack[j..] + [d]);
  }

  // Following references goes backwards in an order that has parents first.
  lemma {:induction false} WalksGoBack(graph: Graph, order: seq<Table>, w: seq<Table>, p: nat)
    requires ParentsFirst(graph, order) && p < |order| && Walk(graph, w) && |w| >= 2 && w[0] == order[p]
    ensures w[|w| - 1] in order[..p]
  {
    assert w[1] in Deps(graph, w[0]);
    var q :| 0 <= q < p && order[q] == w[1];
    if |w| > 2 {
      forall i | 0 < i < |w[1..]| ensures w[1..][i] in Deps(graph, w[1..][i - 1]) && w[1..][i] != w[1..][i - 1] {
        assert w[i + 1] in Deps(graph, w[i]);
      }
      WalksGoBack(graph, order, w[1..], q);
    }
  }

  /** Only a graph without circles has an order with parents first, whatever search found it. */
  lemma OrderedIsAcyclic(graph: Graph, order: seq<Table>)
    requires ParentsFirst(graph, order) && Distinct(order) && graph.Keys <= Elems(order)
    ensures !Cyclic(graph)
  {
    if Cyclic(graph) {
      var w :| ClosedWalk(graph, w);
      assert w[1] in Deps(graph, w[0]);
      var p :| 0 <= p < |order| && order[p] == w[0];
      WalksGoBack(graph, order, w, p);
    }
  }

  /** For example two tables that refer to each other: no list of both has parents first. */
  lemma MutualReferences(a: Table, b: Table, order: seq<Table>)
    requires a != b && Distinct(order) && Elems(order) == {a, b}
    ensures Cyclic(map[a := {b}, b := {a}]) && !ParentsFirst(map[a := {b}, b := {a}], order)
  {
    var graph: Graph := map[a := {b}, b := {a}];
    assert ClosedWalk(graph, [a, b, a]);
    if ParentsFirst(graph, order) { OrderedIsAcyclic(graph, order); }
  }

  // Appending a table whose references are all listed, apart from itself.
  lemma AppendKeepsOrder(graph: Graph, order: seq<Table>, t: Table)
    requires ParentsFirst(graph, order) && Deps(graph, t) <= Elems(order) + {t}
    ensures ParentsFirst(graph, order + [t])
  {
    var longer := order + [t];
    forall i, d | 0 <= i < |longer| && d in Deps(graph, longer[i]) && d != longer[i] ensures d in longer[..i] {
      assert longer[..i] == order[..i];
      if i < |order| { assert longer[i] == order[i]; } else { assert order[..i] == order; }
    }
  }

  /** The closure variables of the nested function `visit`. */
  class Search {
    const graph: Graph
    var visited: set<Table>
    var order: seq<Table>

    constructor (graph: Graph)
      ensures this.graph == graph && Valid([])
      ensures visited == {} && order == []
    {
      this.graph, visited, order := graph, {}, [];
    }

    // `stack` are the tables whose visit is under way, each referred to by the one before.
    ghost predicate Valid(stack: seq<Table>)
      reads this
    {
      && Distinct(order)
      && Walk(graph, stack)
      && visited == Elems(order) + Elems(stack)
      && Elems(order) !! Elems(stack)
      && (Cyclic(graph) || ParentsFirst(graph, order))
    }

    /** The references of a table are followed in any order: the source iterates over a set. */
    method Visit(t: Table, ghost stack: seq<Table>, ghost tables: set<Table>)
      requires Valid(stack) && visited <= tables && t in tables
      requires forall x :: x in tables ==> Deps(graph, x) <= tables
      requires stack != [] ==> t in Deps(graph, stack[|stack| - 1])
      modifies this
      ensures Valid(stack) && visited <= tables
      ensures old(visited) + {t} <= visited
      decreases tables - visited
    {
      if t in visited { return; }
      ghost var path := stack + [t];
      visited := visited + {t};
      assert Elems(path) == Elems(stack) + {t};
      var remaining := Deps(graph, t);
      while remaining != {}
        invariant Valid(path) && visited <= tables
        invariant old(visited) + {t} <= visited
        invariant remaining <= Deps(graph, t) <= remaining + visited
        decreases remaining
      {
        var dep :| dep in remaining;
        remaining := remaining - {dep};
        Visit(dep, path, tables);
      }
      if !Cyclic(graph) {
        forall d | d in Deps(graph, t) ensures d in Elems(order) + {t} {
          if d in path && d != t { BackReference(graph, path, d); }
        }
        AppendKeepsOrder(graph, order, t);
      }
      assert Elems(order + [t]) == Elems(order) + {t};
      order := order + [t];
    }

    /** Visits every table of the list; the order exists with parents first exactly if there is no circle. */
    method Sort(tables: seq<Table>)
      requires visited == {} && order == []
      requires graph.Keys <= Elems(tables)
      requires forall x :: x in graph ==> graph[x] <= Elems(tables)
      modifies this
      ensures Distinct(order) && Elems(order) == Elems(tables)
      ensures ParentsFirst(graph, order) <==> !Cyclic(graph)
    {
      for i := 0 to |tables|
        invariant Valid([])
        invariant Elems(tables[..i]) <= visited <= Elems(tables)
      {
        Visit(tables[i], [], Elems(tables));
        assert Elems(tables[..i + 1]) == Elems(tables[..i]) + {tables[i]};
      }
      assert tables[..|tables|] == tables;
      if ParentsFirst(graph, order) { OrderedIsAcyclic(graph, order); }
    }
  }

  // ---- the reference graphs of the two generators ----

  // The tables of the list that the foreign keys refer to.
  function RefTables(keys: seq<ForeignKey>, tables: set<Table>): set<Table> {
    set k | k in keys && k.refTable in tables :: k.refTable
  }

  function Keys(fkMap: map<Table, seq<ForeignKey>>, t: Table): seq<ForeignKey> {
    if t in fkMap then fkMap[t] else []
  }

  function ReferenceGraph(fkMap: map<Table, seq<ForeignKey>>, tables: set<Table>): (graph: Graph)
    ensures graph.Keys == tables
    ensures forall t, d :: d in Deps(graph, t) <==>
              t in tables && d in tables && exists k :: k in Keys(fkMap, t) && k.refTable == d
  {
    map t | t in tables :: RefTables(Keys(fkMap, t), tables)
  }

  // The columns that a generated row has.
  function Kept(columns: seq<Column>): set<string> {
    set c | c in columns && !c.generated :: c.name
  }

  // The columns that every row has.
  ghost predicate RowsHave(rows: seq<Row>, columns: seq<Column>) {
    forall i, n :: 0 <= i < |rows| ==> (n in rows[i] <==> exists c :: c in columns && c.name == n && !c.generated)
  }

  lemma ShapedHave(rows: seq<Row>, n: int, columns: seq<Column>)
    requires Shaped(rows, n, Kept(columns))
    ensures RowsHave(rows, columns)
  {
    forall i, n | 0 <= i < |rows| ensures n in rows[i] <==> exists c :: c in columns && c.name == n && !c.generated {
      assert n in rows[i] <==> n in Kept(columns);
    }
  }

  // The last foreign key of a column wins.
  function Effective(keys: seq<ForeignKey>): map<string, ForeignKey> {
    if keys == [] then map[]
    else Effective(keys[..|keys| - 1])[keys[|keys| - 1].column := keys[|keys| - 1]]
  }

  // The value of a column in row i once the database has numbered the rows from 1.
  function StoredKey(rows: seq<Row>, i: nat, column: string): Value
    requires i < |rows|
  {
    if column in rows[i] then rows[i][column] else Number(i + 1)
  }

  ghost predicate NamesRow(v: Value, rows: seq<Row>, column: string) {
    exists i :: 0 <= i < |rows| && v == StoredKey(rows, i, column)
  }

  // What a foreign-key column may hold, given the tables generated so far.
  ghost predicate Reference(v: Value, k: ForeignKey, data: map<Table, seq<Row>>, numRows: int) {
    if k.refTable in data && data[k.refTable] != [] then NamesRow(v, data[k.refTable], k.refColumn)
    else v.Number? && 1 <= v.n <= (if numRows > 1 then numRows else 1)
  }

  ghost predicate References(row: Row, keys: map<string, ForeignKey>, data: map<Table, seq<Row>>, numRows: int) {
    forall c :: c in row && c in keys ==> Reference(row[c], keys[c], data, numRows)
  }

  // Whether a foreign key must hit: its table is generated before, or is the table itself and the
  // referenced column is left to the database.
  predicate MustHit(t: Table, k: ForeignKey, tables: set<Table>, kept: set<string>) {
    k.refTable in tables && (k.refTable != t || k.refColumn !in kept)
  }

  ghost predicate AllHit(t: Table, rows: seq<Row>, data: map<Table, seq<Row>>, keys: map<string, ForeignKey>,
                         tables: set<Table>, kept: set<string>)
  {
    forall i, c :: 0 <= i < |rows| && c in rows[i] && c in keys && MustHit(t, keys[c], tables, kept) ==>
      keys[c].refTable in data && NamesRow(rows[i][c], data[keys[c].refTable], keys[c].refColumn)
  }

  function Count(scaled: int): int {
    if scaled > 10 then scaled else 10
  }

  ghost predicate Shaped(rows: seq<Row>, n: int, kept: set<string>) {
    |rows| == n && forall i :: 0 <= i < |rows| ==> rows[i].Keys == kept
  }

  // Every foreign key in the rows made for a table hits, once the table itself is stored.
  lemma StoredTableHits(t: Table, rows: seq<Row>, before: map<Table, seq<Row>>, after: map<Table, seq<Row>>,
                        keys: map<string, ForeignKey>, tables: set<Table>, kept: set<string>)
    requires Shaped(rows, |rows|, kept) && rows != []
    requires forall i :: 0 <= i < |rows| ==> References(rows[i], keys, before, |rows|)
    requires t !in before && after == before[t := rows]
    requires forall c :: c in keys && keys[c].refTable in tables && keys[c].refTable != t ==>
               keys[c].refTable in before && before[keys[c].refTable] != []
    ensures AllHit(t, rows, after, keys, tables, kept)
  {
    forall i, c | 0 <= i < |rows| && c in rows[i] && c in keys && MustHit(t, keys[c], tables, kept)
      ensures keys[c].refTable in after && NamesRow(rows[i][c], after[keys[c].refTable], keys[c].refColumn)
    {
      assert Reference(rows[i][c], keys[c], before, |rows|);
      if keys[c].refTable == t {
        assert rows[i][c] == StoredKey(rows, rows[i][c].n - 1, keys[c].refColumn);
      }
    }
  }

  lemma {:induction false} EffectiveIsOne(keys: seq<ForeignKey>, c: string)
    requires c in Effective(keys)
    ensures Effective(keys)[c] in keys && Effective(keys)[c].column == c
  {
    if c != keys[|keys| - 1].column { EffectiveIsOne(keys[..|keys| - 1], c); }
  }

  /** Which foreign key fills a column: the last one that is declared for it. */
  lemma {:induction false} LastKeyCounts(keys: seq<ForeignKey>, i: nat)
    requires i < |keys| && forall j :: i < j < |keys| ==> keys[j].column != keys[i].column
    ensures keys[i].column in Effective(keys) && Effective(keys)[keys[i].column] == keys[i]
  {
    var n := |keys| - 1;
    if i < n {
      LastKeyCounts(keys[..n], i);
      assert keys[n].column != keys[i].column;
    }
  }

  // In an order with parents first, the tables that the foreign keys of a table refer to come earlier.
  lemma ReferredEarlier(fkMap: map<Table, seq<ForeignKey>>, tables: set<Table>, order: seq<Table>, k: nat)
    requires ParentsFirst(ReferenceGraph(fkMap, tables), order) && k < |order| && order[k] in tables
    ensures forall c :: c in Effective(Keys(fkMap, order[k])) ==>
              var p := Effective(Keys(fkMap, order[k]))[c].refTable; p in tables && p != order[k] ==> p in order[..k]
  {
    var keys := Keys(fkMap, order[k]);
    forall c | c in Effective(keys) && Effective(keys)[c].refTable in tables && Effective(keys)[c].refTable != order[k]
      ensures Effective(keys)[c].refTable in order[..k]
    {
      EffectiveIsOne(keys, c);
      assert Effective(keys)[c].refTable in Deps(ReferenceGraph(fkMap, tables), order[k]);
    }
  }

  // ---- everything that one run can generate ----

  // The inputs of a run, and the order that was found.
  datatype Plan = Plan(
    fkMap: map<Table, seq<ForeignKey>>, columns: map<Table, seq<Column>>, scaled: map<Table, int>, order: seq<Table>)

  ghost predicate Complete(p: Plan) {
    Distinct(p.order) && forall i :: 0 <= i < |p.order| ==> p.order[i] in p.columns && p.order[i] in p.scaled
  }

  // The tables that are stored before table i is generated.
  function Earlier(p: Plan, data: map<Table, seq<Row>>, i: nat): map<Table, seq<Row>>
    requires i <= |p.order|
  {
    map t | t in data && t in p.order[..i] :: data[t]
  }

  // The rows of table i are such as the generator makes; its other columns hold anything.
  ghost predicate RowsFit(p: Plan, i: nat, rows: seq<Row>, before: map<Table, seq<Row>>)
    requires Complete(p) && i < |p.order|
  {
    var t := p.order[i];
    && Shaped(rows, Count(p.scaled[t]), Kept(p.columns[t]))
    && forall r :: 0 <= r < |rows| ==> References(rows[r], Effective(Keys(p.fkMap, t)), before, |rows|)
  }

  // The first n tables have been generated into an empty store.
  ghost predicate Possible(p: Plan, n: nat, data: map<Table, seq<Row>>) {
    && Complete(p) && n <= |p.order| && data.Keys == Elems(p.order[..n])
    && forall i :: 0 <= i < n ==> p.order[i] in data && RowsFit(p, i, data[p.order[i]], Earlier(p, data, i))
  }

  lemma NonePossible(p: Plan)
    requires Complete(p)
    ensures Possible(p, 0, map[])
  {
  }

  lemma EarlierStays(p: Plan, n: nat, data: map<Table, seq<Row>>, rows: seq<Row>, i: nat)
    requires Distinct(p.order) && i <= n < |p.order| && data.Keys == Elems(p.order[..n])
    ensures Earlier(p, data[p.order[n] := rows], i) == Earlier(p, data, i) && (i == n ==> Earlier(p, data, i) == data)
  {
    assert p.order[n] !in p.order[..i];
  }

  lemma PossibleNext(p: Plan, n: nat, data: map<Table, seq<Row>>, rows: seq<Row>)
    requires Possible(p, n, data) && n < |p.order| && RowsFit(p, n, rows, data)
    ensures Possible(p, n + 1, data[p.order[n] := rows])
  {
    hide RowsFit, Earlier;
    var after := data[p.order[n] := rows];
    assert p.order[..n + 1] == p.order[..n] + [p.order[n]];
    forall i | 0 <= i <= n ensures p.order[i] in after && RowsFit(p, i, after[p.order[i]], Earlier(p, after, i)) {
      EarlierStays(p, n, data, rows, i);
      assert i < n ==> p.order[i] in data && p.order[i] != p.order[n];
    }
  }

  class DataGenerator {
    const fkMap: map<Table, seq<ForeignKey>>
    const columns: map<Table, seq<Column>>
    var tableData: map<Table, seq<Row>>

    constructor (fkMap: map<Table, seq<ForeignKey>>, columns: map<Table, seq<Column>>)
      ensures this.fkMap == fkMap && this.columns == columns && tableData == map[]
    {
      this.fkMap, this.columns, tableData := fkMap, columns, map[];
    }

    // The references of each table to tables of the list.
    method BuildGraph(tables: seq<Table>) returns (graph: Graph)
      ensures graph == ReferenceGraph(fkMap, Elems(tables))
    {
      graph := map[];
      for i := 0 to |tables|
        invariant graph.Keys == Elems(tables[..i])
        invariant forall t :: t in graph ==> graph[t] == RefTables(Keys(fkMap, t), Elems(tables))
      {
        var refs: set<Table> := {};
        var keys := Keys(fkMap, tables[i]);
        for j := 0 to |keys|
          invariant refs == RefTables(keys[..j], Elems(tables))
        {
          assert keys[..j + 1] == keys[..j] + [keys[j]];
          if keys[j].refTable in tables { refs := refs + {keys[j].refTable}; }
        }
        assert keys[..|keys|] == keys;
        assert tables[..i + 1] == tables[..i] + [tables[i]];
        graph := graph[tables[i] := refs];
      }
      assert tables[..|tables|] == tables;
    }

    /** Lists every table once, and the tables it refers to first exactly if no circle makes that impossible. */
    method TopoSortTables(tables: seq<Table>) returns (order: seq<Table>)
      ensures Distinct(order) && Elems(order) == Elems(tables)
      ensures ParentsFirst(ReferenceGraph(fkMap, Elems(tables)), order)
         <==> !Cyclic(ReferenceGraph(fkMap, Elems(tables)))
    {
      var graph := BuildGraph(tables);
      var search := new Search(graph);
      search.Sort(tables);
      order := search.order;
    }

    // One random foreign key, as `rng.randint` may choose it.
    method ForeignKeyValue(k: ForeignKey, numRows: int) returns (v: Value)
      ensures Reference(v, k, tableData, numRows)
    {
      if k.refTable in tableData && tableData[k.refTable] != [] {
        var parents := tableData[k.refTable];
        var i :| 0 <= i < |parents|;
        v := StoredKey(parents, i, k.refColumn);
      } else {
        var n :| 1 <= n <= (if numRows > 1 then numRows else 1);
        v := Number(n);
      }
    }

    method GenerateTable(table: Table, numRows: nat) returns (rows: seq<Row>)
      requires table in columns
      ensures Shaped(rows, numRows, Kept(columns[table])) && RowsHave(rows, columns[table])
      ensures forall i :: 0 <= i < |rows| ==> References(rows[i], Effective(Keys(fkMap, table)), tableData, numRows)
    {
      hide RowsHave;
      var fks := Effective(Keys(fkMap, table));
      var cols := columns[table];
      rows := [];
      for i := 0 to numRows
        invariant Shaped(rows, i, Kept(cols))
        invariant forall i :: 0 <= i < |rows| ==> References(rows[i], fks, tableData, numRows)
      {
        var row: Row := map[];
        for j := 0 to |cols|
          invariant row.Keys == Kept(cols[..j])
          invariant References(row, fks, tableData, numRows)
        {
          assert cols[..j + 1] == cols[..j] + [cols[j]];
          if cols[j].generated { continue; }
          var v: Value := *;
          if cols[j].name in fks {
            v := ForeignKeyValue(fks[cols[j].name], numRows);
          }
          row := row[cols[j].name := v];
        }
        assert cols[..|cols|] == cols;
        rows := rows + [row];
      }
      ShapedHave(rows, numRows, cols);
    }

    // The rows stored for a table have only references that hit.
    ghost predicate StoredHits(t: Table, data: map<Table, seq<Row>>, tables: set<Table>) {
      t in data && t in columns && AllHit(t, data[t], data, Effective(Keys(fkMap, t)), tables, Kept(columns[t]))
    }

    ghost predicate HitsUpTo(ordered: seq<Table>, i: nat, data: map<Table, seq<Row>>, was: set<Table>,
                             tables: set<Table>)
      requires i <= |ordered|
    {
      forall k :: 0 <= k < i && ordered[k] !in was ==> StoredHits(ordered[k], data, tables)
    }

    // Storing the next table keeps the references stored before and adds references that hit.
    lemma StoreNext(ordered: seq<Table>, i: nat, before: map<Table, seq<Row>>, rows: seq<Row>, was: set<Table>,
                    tables: set<Table>)
      requires ParentsFirst(ReferenceGraph(fkMap, tables), ordered) && Distinct(ordered) && Elems(ordered) == tables
      requires i < |ordered| && ordered[i] in columns && rows != []
      requires before.Keys == was + Elems(ordered[..i])
      requires forall k :: 0 <= k < i ==> before[ordered[k]] != []
      requires HitsUpTo(ordered, i, before, was, tables)
      requires Shaped(rows, |rows|, Kept(columns[ordered[i]]))
      requires forall r :: 0 <= r < |rows| ==> References(rows[r], Effective(Keys(fkMap, ordered[i])), before, |rows|)
      ensures HitsUpTo(ordered, i + 1, before[ordered[i] := rows], was, tables)
    {
      var after := before[ordered[i] := rows];
      forall k | 0 <= k <= i && ordered[k] !in was ensures StoredHits(ordered[k], after, tables) {
        assert ordered[k] in Elems(ordered);
        ReferredEarlier(fkMap, tables, ordered, k);
        if k < i {
          assert StoredHits(ordered[k], before, tables);
        } else {
          StoredTableHits(ordered[i], rows, before, after, Effective(Keys(fkMap, ordered[i])), tables,
                          Kept(columns[ordered[i]]));
        }
      }
    }

    // The first i tables are stored with their rows; the others are as they were.
    ghost predicate FilledUpTo(ordered: seq<Table>, i: nat, scaled: map<Table, int>, was: map<Table, seq<Row>>,
                               data: map<Table, seq<Row>>)
    {
      && i <= |ordered|
      && (forall k :: 0 <= k < |ordered| ==> ordered[k] in columns && ordered[k] in scaled)
      && data.Keys == was.Keys + Elems(ordered[..i])
      && (forall k :: 0 <= k < i ==> Shaped(data[ordered[k]], Count(scaled[ordered[k]]), Kept(columns[ordered[k]])))
      && (forall t :: t in was && t !in ordered[..i] ==> data[t] == was[t])
    }

    lemma NoneFilled(ordered: seq<Table>, scaled: map<Table, int>, was: map<Table, seq<Row>>, tables: set<Table>)
      requires forall k :: 0 <= k < |ordered| ==> ordered[k] in columns && ordered[k] in scaled
      ensures FilledUpTo(ordered, 0, scaled, was, was) && HitsUpTo(ordered, 0, was, was.Keys, tables)
    {
    }

    lemma FilledHaveRows(ordered: seq<Table>, i: nat, scaled: map<Table, int>, was: map<Table, seq<Row>>,
                         data: map<Table, seq<Row>>)
      requires FilledUpTo(ordered, i, scaled, was, data)
      ensures i <= |ordered| && data.Keys == was.Keys + Elems(ordered[..i])
      ensures forall k :: 0 <= k < i ==> ordered[k] in data && data[ordered[k]] != []
    {
      assert forall k :: 0 <= k < i ==> ordered[k] in Elems(ordered[..i]);
    }

    lemma FilledNext(ordered: seq<Table>, i: nat, scaled: map<Table, int>, was: map<Table, seq<Row>>,
                     data: map<Table, seq<Row>>, rows: seq<Row>)
      requires FilledUpTo(ordered, i, scaled, was, data) && i < |ordered| && Distinct(ordered)
      requires Shaped(rows, Count(scaled[ordered[i]]), Kept(columns[ordered[i]]))
      ensures FilledUpTo(ordered, i + 1, scaled, was, data[ordered[i] := rows])
    {
      assert ordered[..i + 1] == ordered[..i] + [ordered[i]];
    }

    lemma FilledAll(ordered: seq<Table>, tables: seq<Table>, scaled: map<Table, int>, was: map<Table, seq<Row>>,
                    data: map<Table, seq<Row>>)
      requires FilledUpTo(ordered, |ordered|, scaled, was, data) && Elems(ordered) == Elems(tables)
      ensures data.Keys == was.Keys + Elems(tables)
      ensures forall t :: t in tables ==>
                t in columns && t in scaled && Shaped(data[t], Count(scaled[t]), Kept(columns[t]))
      ensures forall t :: t in was && t !in tables ==> data[t] == was[t]
    {
      assert ordered[..|ordered|] == ordered;
      assert forall t :: t in tables <==> t in Elems(ordered);
    }

    lemma HitsAll(ordered: seq<Table>, tables: seq<Table>, data: map<Table, seq<Row>>, was: set<Table>)
      requires HitsUpTo(ordered, |ordered|, data, was, Elems(tables)) && Elems(ordered) == Elems(tables)
      ensures forall t :: t in tables && t !in was ==> StoredHits(t, data, Elems(tables))
    {
      forall t | t in tables && t !in was ensures StoredHits(t, data, Elems(tables)) {
        assert t in Elems(ordered);
        var k :| 0 <= k < |ordered| && ordered[k] == t;
      }
    }

    /**
     * Fills every table. Without a circle, every foreign key to one of the tables names a row of it, save
     * a reference from a table to a column of its own that is generated here.
     */
    method GenerateAll(tables: seq<Table>, scaled: map<Table, int>) returns (ghost plan: Plan)
      requires forall t :: t in tables ==> t in columns && t in scaled
      modifies this`tableData
      ensures plan.fkMap == fkMap && plan.columns == columns && plan.scaled == scaled && Complete(plan)
      ensures Elems(plan.order) == Elems(tables)
      ensures ParentsFirst(ReferenceGraph(fkMap, Elems(tables)), plan.order)
         <==> !Cyclic(ReferenceGraph(fkMap, Elems(tables)))
      ensures old(tableData) == map[] ==> Possible(plan, |plan.order|, tableData)
      ensures tableData.Keys == old(tableData.Keys) + Elems(tables)
      ensures forall t :: t in tables ==> Shaped(tableData[t], Count(scaled[t]), Kept(columns[t]))
      ensures forall t :: t in tables ==> |tableData[t]| == if scaled[t] > 10 then scaled[t] else 10
      ensures forall t :: t in old(tableData) && t !in tables ==> tableData[t] == old(tableData)[t]
      ensures !Cyclic(ReferenceGraph(fkMap, Elems(tables))) ==>
        forall t :: t in tables && t !in old(tableData) ==>
          StoredHits(t, tableData, Elems(tables))
    {
      hide StoredHits, References, ReferenceGraph, Cyclic, ParentsFirst, Effective, FilledUpTo, HitsUpTo, Possible;
      var ordered := TopoSortTables(tables);
      ghost var graph := ReferenceGraph(fkMap, Elems(tables));
      assert forall k :: 0 <= k < |ordered| ==> ordered[k] in Elems(tables);
      NoneFilled(ordered, scaled, tableData, Elems(tables));
      plan := Plan(fkMap, columns, scaled, ordered);
      NonePossible(plan);
      for i := 0 to |ordered|
        invariant FilledUpTo(ordered, i, scaled, old(tableData), tableData)
        invariant !Cyclic(graph) ==> HitsUpTo(ordered, i, tableData, old(tableData.Keys), Elems(tables))
        invariant old(tableData) == map[] ==> Possible(plan, i, tableData)
      {
        var table := ordered[i];
        ghost var before := tableData;
        var rows := GenerateTable(table, Count(scaled[table]));
        tableData := tableData[table := rows];
        FilledNext(ordered, i, scaled, old(tableData), before, rows);
        if old(tableData) == map[] { PossibleNext(plan, i, before, rows); }
        if !Cyclic(graph) {
          FilledHaveRows(ordered, i, scaled, old(tableData), before);
          StoreNext(ordered, i, before, rows, old(tableData.Keys), Elems(tables));
        }
      }
      FilledAll(ordered, tables, scaled, old(tableData), tableData);
      if !Cyclic(graph) { HitsAll(ordered, tables, tableData, old(tableData.Keys)); }
    }
  }

  datatype TableInfo = TableInfo(fkRefs: seq<(string, Table)>)

  /** The workload generator runs the same search over its schema, whose table names come in insertion order. */
  class WorkloadSynthesizer {
    const schema: map<Table, TableInfo>
    const tables: seq<Table>

    constructor (schema: map<Table, TableInfo>, tables: seq<Table>)
      requires Elems(tables) == schema.Keys
      ensures this.schema == schema && this.tables == tables
    {
      this.schema, this.tables := schema, tables;
    }

    ghost predicate Valid() { Elems(tables) == schema.Keys }

    function Graph(): (graph: Graph)
      ensures graph.Keys == schema.Keys
      ensures forall t, d :: d in Deps(graph, t) <==>
                t in schema && d in schema && exists r :: r in schema[t].fkRefs && r.1 == d
    {
      map t | t in schema :: set r | r in schema[t].fkRefs && r.1 in schema :: r.1
    }

    method FkSortedTables() returns (order: seq<Table>)
      requires Valid()
      ensures Distinct(order) && Elems(order) == schema.Keys
      ensures ParentsFirst(Graph(), order) <==> !Cyclic(Graph())
    {
      var search := new Search(Graph());
      search.Sort(tables);
      order := search.order;
    }
  }
}
