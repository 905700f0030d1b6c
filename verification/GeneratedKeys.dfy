/** Which foreign keys of the generated data can miss (demo/synthetic-data-gen.py, generate_all): a run is
    possible if its random choices can lead to it. */
module GeneratedKeys {
  import opened ForeignKeys

  // Column c of table i is a foreign key that the generator fills in.
  predicate IsKey(p: Plan, i: nat, c: string) {
    && i < |p.order| && p.order[i] in p.columns && p.order[i] in p.scaled
    && c in Kept(p.columns[p.order[i]]) && c in Effective(Keys(p.fkMap, p.order[i]))
  }

  function KeyOf(p: Plan, i: nat, c: string): ForeignKey
    requires IsKey(p, i, c)
  {
    Effective(Keys(p.fkMap, p.order[i]))[c]
  }

  ghost predicate Hits(v: Value, k: ForeignKey, data: map<Table, seq<Row>>) {
    k.refTable in data && NamesRow(v, data[k.refTable], k.refColumn)
  }

  // The table referred to is not generated before, and a number drawn for it need not be one of its keys:
  // it has no rows here, or its keys are generated values other than the key itself, or it has fewer rows.
  predicate CanMiss(p: Plan, i: nat, c: string)
    requires IsKey(p, i, c)
  {
    var t, k := p.order[i], KeyOf(p, i, c);
    && k.refTable !in p.order[..i]
    && (k.refTable in p.order && k.refTable in p.columns && k.refTable in p.scaled ==>
          if k.refColumn in Kept(p.columns[k.refTable]) then !(k.refTable == t && k.refColumn == c)
          else Count(p.scaled[t]) > Count(p.scaled[k.refTable]))
  }

  ghost predicate MissAt(p: Plan, i: nat, c: string, data: map<Table, seq<Row>>, r: nat)
    requires IsKey(p, i, c)
  {
    && Possible(p, |p.order|, data) && p.order[i] in data && r < |data[p.order[i]]| && c in data[p.order[i]][r]
    && !Hits(data[p.order[i]][r][c], KeyOf(p, i, c), data)
  }

  // ---- the keys that always hit ----

  lemma StoredTables(p: Plan, n: nat, data: map<Table, seq<Row>>)
    requires Possible(p, n, data)
    ensures Complete(p) && n <= |p.order| && data.Keys == Elems(p.order[..n])
  {
  }

  lemma RowsOf(p: Plan, i: nat, data: map<Table, seq<Row>>)
    requires Possible(p, |p.order|, data) && i < |p.order|
    ensures p.order[i] in data && RowsFit(p, i, data[p.order[i]], Earlier(p, data, i))
  {
  }

  lemma NumberNamesRow(rows: seq<Row>, column: string, n: int)
    requires 1 <= n <= |rows| && forall r :: 0 <= r < |rows| ==> column !in rows[r]
    ensures NamesRow(Number(n), rows, column)
  {
    assert StoredKey(rows, n - 1, column) == Number(n);
  }

  lemma OwnColumnHits(rows: seq<Row>, column: string, r: nat)
    requires r < |rows| && column in rows[r]
    ensures NamesRow(rows[r][column], rows, column)
  {
    assert StoredKey(rows, r, column) == rows[r][column];
  }

  // The key's value, by what the store held when it was made.
  lemma ValueOfKey(p: Plan, i: nat, c: string, data: map<Table, seq<Row>>, r: nat)
    requires IsKey(p, i, c) && Possible(p, |p.order|, data) && p.order[i] in data && r < |data[p.order[i]]|
    requires c in data[p.order[i]][r]
    ensures var v, k := data[p.order[i]][r][c], KeyOf(p, i, c);
            if k.refTable in p.order[..i] then Hits(v, k, data)
            else v.Number? && 1 <= v.n <= Count(p.scaled[p.order[i]])
  {
    var t, k := p.order[i], KeyOf(p, i, c);
    RowsOf(p, i, data);
    var before := Earlier(p, data, i);
    assert Reference(data[t][r][c], k, before, |data[t]|);
    if k.refTable in p.order[..i] {
      var j :| 0 <= j < i && p.order[j] == k.refTable;
      RowsOf(p, j, data);
      assert k.refTable in before && before[k.refTable] == data[k.refTable] != [];
    }
  }

  lemma OthersHit(p: Plan, i: nat, c: string, data: map<Table, seq<Row>>, r: nat)
    requires IsKey(p, i, c) && !CanMiss(p, i, c)
    requires Possible(p, |p.order|, data) && p.order[i] in data && r < |data[p.order[i]]| && c in data[p.order[i]][r]
    ensures Hits(data[p.order[i]][r][c], KeyOf(p, i, c), data)
  {
    hide Possible, Earlier, References, Effective;
    var t, k := p.order[i], KeyOf(p, i, c);
    StoredTables(p, |p.order|, data);
    ValueOfKey(p, i, c, data, r);
    RowsOf(p, i, data);
    if k.refTable !in p.order[..i] {
      var j :| 0 <= j < |p.order| && p.order[j] == k.refTable;
      RowsOf(p, j, data);
      if k.refColumn in Kept(p.columns[k.refTable]) {
        OwnColumnHits(data[t], c, r);
      } else {
        NumberNamesRow(data[k.refTable], k.refColumn, data[t][r][c].n);
      }
    }
  }

  // ---- a run in which one key misses ----

  // Every key refers to the first row that is there, or is 1; row 1 of table i holds n in column c.
  datatype Odd = Odd(i: nat, c: string, n: int)

  function PlainValue(k: ForeignKey, before: map<Table, seq<Row>>): Value {
    if k.refTable in before && before[k.refTable] != [] then StoredKey(before[k.refTable], 0, k.refColumn)
    else Number(1)
  }

  function PlainRow(kept: set<string>, keys: map<string, ForeignKey>, before: map<Table, seq<Row>>): Row {
    map c | c in kept :: if c in keys then PlainValue(keys[c], before) else Other("")
  }

  function SampleRows(p: Plan, i: nat, before: map<Table, seq<Row>>, odd: Odd): seq<Row>
    requires Complete(p) && i < |p.order|
  {
    var t := p.order[i];
    var plain := PlainRow(Kept(p.columns[t]), Effective(Keys(p.fkMap, t)), before);
    seq(Count(p.scaled[t]), r requires 0 <= r < Count(p.scaled[t]) =>
      if i == odd.i && r == 1 then plain[odd.c := Number(odd.n)] else plain)
  }

  function Sample(p: Plan, n: nat, odd: Odd): map<Table, seq<Row>>
    requires Complete(p) && n <= |p.order|
  {
    if n == 0 then map[]
    else
      var before := Sample(p, n - 1, odd);
      before[p.order[n - 1] := SampleRows(p, n - 1, before, odd)]
  }

  // The odd value may be drawn.
  predicate Drawable(p: Plan, odd: Odd) {
    && IsKey(p, odd.i, odd.c) && KeyOf(p, odd.i, odd.c).refTable !in p.order[..odd.i]
    && 1 <= odd.n <= Count(p.scaled[p.order[odd.i]])
  }

  lemma PlainFits(kept: set<string>, keys: map<string, ForeignKey>, before: map<Table, seq<Row>>, numRows: int)
    ensures References(PlainRow(kept, keys, before), keys, before, numRows)
  {
    forall c | c in kept && c in keys ensures Reference(PlainValue(keys[c], before), keys[c], before, numRows) {
      var k := keys[c];
      if k.refTable in before && before[k.refTable] != [] {
        assert PlainValue(k, before) == StoredKey(before[k.refTable], 0, k.refColumn);
      }
    }
  }

  lemma SampleFits(p: Plan, i: nat, before: map<Table, seq<Row>>, odd: Odd)
    requires Complete(p) && i < |p.order| && Drawable(p, odd) && before.Keys == Elems(p.order[..i])
    ensures RowsFit(p, i, SampleRows(p, i, before, odd), before)
  {
    var t, rows := p.order[i], SampleRows(p, i, before, odd);
    var keys := Effective(Keys(p.fkMap, t));
    var plain := PlainRow(Kept(p.columns[t]), keys, before);
    PlainFits(Kept(p.columns[t]), keys, before, |rows|);
    forall r | 0 <= r < |rows| ensures References(rows[r], keys, before, |rows|) {
      if i == odd.i && r == 1 {
        assert rows[r] == plain[odd.c := Number(odd.n)];
        forall c | c in rows[r] && c in keys ensures Reference(rows[r][c], keys[c], before, |rows|) {
          if c != odd.c { assert rows[r][c] == plain[c]; }
        }
      } else {
        assert rows[r] == plain;
      }
    }
  }

  lemma {:induction false} SampleIsPossible(p: Plan, n: nat, odd: Odd)
    requires Complete(p) && n <= |p.order| && Drawable(p, odd)
    ensures Possible(p, n, Sample(p, n, odd))
  {
    hide RowsFit, SampleRows, Drawable, Possible;
    if n == 0 {
      NonePossible(p);
    } else {
      SampleIsPossible(p, n - 1, odd);
      StoredTables(p, n - 1, Sample(p, n - 1, odd));
      SampleFits(p, n - 1, Sample(p, n - 1, odd), odd);
      PossibleNext(p, n - 1, Sample(p, n - 1, odd), SampleRows(p, n - 1, Sample(p, n - 1, odd), odd));
    }
  }

  predicate IsPlain(v: Value) {
    v == Number(1) || v == Other("")
  }

  // All values but the odd one are plain.
  ghost predicate PlainBut(rows: seq<Row>, own: bool, c: string) {
    forall r, d :: 0 <= r < |rows| && d in rows[r] && !(own && r == 1 && d == c) ==> IsPlain(rows[r][d])
  }

  ghost predicate AllPlain(p: Plan, data: map<Table, seq<Row>>, odd: Odd)
    requires odd.i < |p.order|
  {
    forall t :: t in data ==> data[t] != [] && PlainBut(data[t], t == p.order[odd.i], odd.c)
  }

  lemma PlainRowIsPlain(p: Plan, kept: set<string>, keys: map<string, ForeignKey>, before: map<Table, seq<Row>>,
                        odd: Odd)
    requires odd.i < |p.order| && AllPlain(p, before, odd)
    ensures forall c :: c in PlainRow(kept, keys, before) ==> IsPlain(PlainRow(kept, keys, before)[c])
  {
    forall c | c in kept && c in keys ensures IsPlain(PlainValue(keys[c], before)) {
      var k := keys[c];
      if k.refTable in before && k.refColumn in before[k.refTable][0] {
        assert PlainBut(before[k.refTable], k.refTable == p.order[odd.i], odd.c);
        assert IsPlain(before[k.refTable][0][k.refColumn]);
      }
    }
  }

  lemma AllPlainNext(p: Plan, before: map<Table, seq<Row>>, t: Table, rows: seq<Row>, odd: Odd)
    requires odd.i < |p.order| && AllPlain(p, before, odd)
    requires rows != [] && PlainBut(rows, t == p.order[odd.i], odd.c)
    ensures AllPlain(p, before[t := rows], odd)
  {
  }

  lemma {:induction false} SampleIsPlain(p: Plan, n: nat, odd: Odd)
    requires Complete(p) && n <= |p.order| && odd.i < |p.order|
    ensures Sample(p, n, odd).Keys == Elems(p.order[..n]) && AllPlain(p, Sample(p, n, odd), odd)
  {
    hide SampleRows, PlainRow, PlainBut, Effective, Kept;
    if n == 0 {
    } else {
      hide AllPlain;
      var before, t := Sample(p, n - 1, odd), p.order[n - 1];
      SampleIsPlain(p, n - 1, odd);
      PlainRowIsPlain(p, Kept(p.columns[t]), Effective(Keys(p.fkMap, t)), before, odd);
      RowsArePlain(p, n - 1, before, odd, PlainRow(Kept(p.columns[t]), Effective(Keys(p.fkMap, t)), before));
      AllPlainNext(p, before, t, SampleRows(p, n - 1, before, odd), odd);
      assert p.order[..n] == p.order[..n - 1] + [t];
    }
  }

  lemma RowsArePlain(p: Plan, i: nat, before: map<Table, seq<Row>>, odd: Odd, plain: Row)
    requires Complete(p) && i < |p.order| && odd.i < |p.order|
    requires plain == PlainRow(Kept(p.columns[p.order[i]]), Effective(Keys(p.fkMap, p.order[i])), before)
    requires forall c :: c in plain ==> IsPlain(plain[c])
    ensures SampleRows(p, i, before, odd) != []
    ensures PlainBut(SampleRows(p, i, before, odd), p.order[i] == p.order[odd.i], odd.c)
  {
    hide PlainRow, Effective, Kept;
    var rows := SampleRows(p, i, before, odd);
    forall r, d | 0 <= r < |rows| && d in rows[r] && !(p.order[i] == p.order[odd.i] && r == 1 && d == odd.c)
      ensures IsPlain(rows[r][d])
    {
      if i == odd.i && r == 1 {
        assert rows[r] == plain[odd.c := Number(odd.n)] && d != odd.c;
      } else {
        assert rows[r] == plain;
      }
      assert d in plain && rows[r][d] == plain[d];
    }
  }

  // Later tables leave the rows of table i alone.
  lemma {:induction false} SampleAt(p: Plan, n: nat, i: nat, odd: Odd)
    requires Complete(p) && i < n <= |p.order|
    ensures p.order[i] in Sample(p, n, odd)
         && Sample(p, n, odd)[p.order[i]] == SampleRows(p, i, Sample(p, i, odd), odd)
  {
    if i < n - 1 { SampleAt(p, n - 1, i, odd); }
  }

  lemma OddMisses(p: Plan, odd: Odd)
    requires Complete(p) && Drawable(p, odd) && CanMiss(p, odd.i, odd.c)
    requires var k := KeyOf(p, odd.i, odd.c);
             odd.n == if k.refTable in p.order && k.refColumn !in Kept(p.columns[k.refTable])
                      then Count(p.scaled[k.refTable]) + 1 else 2
    ensures !Hits(Number(odd.n), KeyOf(p, odd.i, odd.c), Sample(p, |p.order|, odd))
  {
    var k, data := KeyOf(p, odd.i, odd.c), Sample(p, |p.order|, odd);
    SampleIsPossible(p, |p.order|, odd);
    SampleIsPlain(p, |p.order|, odd);
    assert p.order[..|p.order|] == p.order;
    if k.refTable in data {
      var j :| 0 <= j < |p.order| && p.order[j] == k.refTable;
      RowsOf(p, j, data);
      var rows := data[k.refTable];
      assert PlainBut(rows, k.refTable == p.order[odd.i], odd.c);
      forall r | 0 <= r < |rows| ensures StoredKey(rows, r, k.refColumn) != Number(odd.n) {
        if k.refColumn in rows[r] { assert IsPlain(rows[r][k.refColumn]); }
      }
    }
  }

  lemma MissHappens(p: Plan, i: nat, c: string) returns (data: map<Table, seq<Row>>)
    requires Complete(p) && IsKey(p, i, c) && CanMiss(p, i, c)
    ensures MissAt(p, i, c, data, 1)
  {
    var k := KeyOf(p, i, c);
    var n := if k.refTable in p.order && k.refColumn !in Kept(p.columns[k.refTable])
             then Count(p.scaled[k.refTable]) + 1 else 2;
    var odd := Odd(i, c, n);
    data := Sample(p, |p.order|, odd);
    SampleIsPossible(p, |p.order|, odd);
    SampleAt(p, |p.order|, i, odd);
    OddMisses(p, odd);
  }

  /** For every order of the tables, with or without circles: a foreign key misses in some run exactly if
      the table it refers to is not generated before its own, and is outside the list, or its key column is
      generated here and is not the foreign key itself, or it has fewer rows. */
  lemma KeyMissesIff(p: Plan, i: nat, c: string)
    requires Complete(p) && IsKey(p, i, c)
    ensures (exists data, r :: MissAt(p, i, c, data, r)) <==> CanMiss(p, i, c)
  {
    if CanMiss(p, i, c) {
      var data := MissHappens(p, i, c);
      assert MissAt(p, i, c, data, 1);
    } else {
      forall data, r | MissAt(p, i, c, data, r) ensures false {
        OthersHit(p, i, c, data, r);
      }
    }
  }
}
