/** CREATE TABLE, SELECT, INSERT, UPDATE and DELETE as they run on a transaction. */
module SqlProgram {
  import opened Bytes
  import opened Keys
  import opened SqlAst
  import opened Catalog
  import opened SqlEval
  import opened MvccRules
  import opened MvccProgram
  import opened SqlTable
  import opened SqlChanges
  import opened SqlView
  import opened SqlSchemas
  import opened SqlSelect
  import opened SqlMeaning

  /** The store and the transaction as values. */
  ghost function Now(t: Transaction): (Store, Txn)
    reads t, t.store
  {
    (t.store.State(), t.State())
  }

  ghost function View(t: Transaction): Data
    reads t, t.store
  {
    ViewOf(t.store.State(), t.State())
  }

  method Lookup(t: Transaction, k: Key) returns (r: Option<Key>)
    requires !t.finished
    ensures r == if k in View(t) then Some(View(t)[k]) else None
  {
    hide MvccVersions.Visible;
    var got := t.Get(k);
    ViewSees(t.store.State(), t.State(), k);
    return got.value;
  }

  method Scan(t: Transaction, prefix: Key) returns (list: seq<(Key, Key)>)
    requires !t.finished
    ensures Lists(list, View(t), prefix)
  {
    hide MvccVersions.Visible, Less, Sorted;
    var got := t.ScanPrefix(prefix);
    list := got.value;
    forall k, v
      ensures (k, v) in list <==> prefix <= k && k in View(t) && View(t)[k] == v
    {
      ViewSees(t.store.State(), t.State(), k);
    }
  }

  method WriteText(t: Transaction, k: Key, text: Key) returns (ok: bool)
    requires !t.finished
    modifies t, t.store
    ensures !t.finished && ok == Storable(k, text)
    ensures Now(t) == Performed(old(Now(t)), if ok then [Put(k, Some(text))] else [])
    ensures View(t) == if ok then old(View(t))[k := text] else old(View(t))
  {
    hide MvccVersions.Visible, ViewOf;
    var r := t.Put(k, Some(text));
    PerformedOne(old(Now(t)), Put(k, Some(text)));
    TookView(old(t.store.State()), old(t.State()), Put(k, Some(text)));
    return r.Done?;
  }

  method Remove(t: Transaction, k: Key) returns (ok: bool)
    requires !t.finished
    modifies t, t.store
    ensures !t.finished && ok == Deletable(k)
    ensures Now(t) == Performed(old(Now(t)), if ok then [Put(k, None)] else [])
    ensures View(t) == if ok then old(View(t)) - {k} else old(View(t))
  {
    hide MvccVersions.Visible, ViewOf;
    var r := t.Put(k, None);
    PerformedOne(old(Now(t)), Put(k, None));
    TookView(old(t.store.State()), old(t.State()), Put(k, None));
    return r.Done?;
  }

  // ----- Schemas -----

  method DecodeSchema(name: Key, text: Key) returns (r: Option<Schema>)
    ensures r == DecodedSchema(name, text)
  {
    hide ColumnFrom, Validated;
    var lines := Lines(text);
    var columns: seq<ColumnDef> := [];
    for n := 0 to |lines|
      invariant ColumnsTo(lines, n) == Some(columns)
    {
      var column := ColumnFrom(lines[n]);
      if column.None? {
        ColumnsStuck(lines, n + 1, |lines|);
        return None;
      }
      columns := columns + [column.value];
    }
    return if Validated(Schema(name, columns)) then Some(Schema(name, columns)) else None;
  }

  lemma {:induction false} ColumnsStuck(lines: seq<Key>, n: nat, m: nat)
    requires n <= m <= |lines| && ColumnsTo(lines, n).None?
    ensures ColumnsTo(lines, m).None?
    decreases m
  {
    hide ColumnFrom;
    if n < m {
      ColumnsStuck(lines, n, m - 1);
    }
  }

  method LoadSchema(t: Transaction, table: Key) returns (r: Option<Schema>)
    requires !t.finished
    ensures r == SchemaIn(View(t), table)
  {
    hide ViewOf, DecodedSchema;
    var text := Lookup(t, CatalogKey(table));
    if text.None? {
      return None;
    }
    r := DecodeSchema(table, text.value);
  }

  /** Creates exactly a validated table the transaction does not see, and then finds it as it was given. */
  method CreateTable(t: Transaction, s: Schema) returns (ok: bool)
    requires !t.finished
    modifies t, t.store
    ensures !t.finished && Now(t) == Performed(old(Now(t)), CreatePuts(old(View(t)), s))
    ensures ok <==>
      Validated(s) && CatalogKey(s.name) !in old(View(t)) && Storable(CatalogKey(s.name), EncodedSchema(s))
    ensures if ok then PlainColumns(s.columns) ==> SchemaIn(View(t), s.name) == Some(s) else View(t) == old(View(t))
  {
    hide Validated, ViewOf, DecodedSchema, EncodedSchema, Performed, Storable;
    PerformedOne(old(Now(t)), Put([], None));
    if !Validated(s) {
      return false;
    }
    if PlainColumns(s.columns) {
      SchemaRoundTrip(s);
    }
    var existing := Lookup(t, CatalogKey(s.name));
    if existing.Some? {
      return false;
    }
    ok := WriteText(t, CatalogKey(s.name), EncodedSchema(s));
  }

  // ----- INSERT -----

  method BuildRow(s: Schema, columns: seq<Key>, values: seq<Value>) returns (r: Option<Row>)
    requires Validated(s) && |columns| == |values|
    ensures r == RowTo(s, columns, values, |columns|)
  {
    hide Validated, HasType, Position, ColumnIndex;
    var row: Row := seq(|s.columns|, _ => Null);
    var taken := new bool[|s.columns|](_ => false);
    for n := 0 to |columns|
      invariant RowTo(s, columns, values, n) == Some(row)
      invariant forall i :: 0 <= i < |s.columns| ==> (taken[i] <==> s.columns[i].name in columns[..n])
    {
      var index := ColumnIndex(s, columns[n]);
      if index.None? {
        RowStuck(s, columns, values, n + 1, |columns|);
        return None;
      }
      NameAt(s, columns[n]);
      var i := index.value;
      if taken[i] || !HasType(values[n], s.columns[i].dataType) {
        RowStuck(s, columns, values, n + 1, |columns|);
        return None;
      }
      row := row[i := values[n]];
      taken[i] := true;
      NamesApart(s, i);
      ColumnsNext(columns, n);
    }
    return Some(row);
  }

  lemma ColumnsNext(columns: seq<Key>, n: nat)
    requires n < |columns|
    ensures forall k :: k in columns[..n + 1] <==> k in columns[..n] || k == columns[n]
  {
    assert columns[..n + 1] == columns[..n] + [columns[n]];
  }

  lemma NamesApart(s: Schema, i: nat)
    requires Validated(s) && i < |s.columns|
    ensures forall j :: 0 <= j < |s.columns| && j != i ==> s.columns[j].name != s.columns[i].name
  {
  }

  lemma {:induction false} RowStuck(s: Schema, columns: seq<Key>, values: seq<Value>, n: nat, m: nat)
    requires n <= m <= |columns| == |values| && RowTo(s, columns, values, n).None?
    ensures RowTo(s, columns, values, m).None?
    decreases m
  {
    hide ColumnIndex, HasType;
    if n < m {
      RowStuck(s, columns, values, n, m - 1);
    }
  }

  method Insert(t: Transaction, s: Schema, columns: seq<Key>, values: seq<Value>) returns (ok: bool)
    requires !t.finished && Validated(s) && AllInRange(values)
    modifies t, t.store
    ensures !t.finished && Change(View(t), !ok) == Inserted(old(View(t)), s, columns, values)
    ensures ok <==> exists k, row :: InsertsRow(old(View(t)), s, columns, values, k, row)
    ensures forall k, row :: InsertsRow(old(View(t)), s, columns, values, k, row) ==>
      View(t) == old(View(t))[k := EncodedRow(row)]
    ensures !ok ==> View(t) == old(View(t))
    ensures Now(t) == Performed(old(Now(t)), InsertPuts(old(View(t)), s, columns, values))
  {
    hide Validated, RowTo, RowKey, EncodedRow, ViewOf, Storable, MvccVersions.Visible, Took, InsertsRow;
    InsertExact(View(t), s, columns, values);
    PerformedOne(old(Now(t)), Put([], None));
    if |columns| != |values| {
      return false;
    }
    var row := BuildRow(s, columns, values);
    if row.None? {
      return false;
    }
    RowBuilt(s, columns, values, |columns|);
    var key := RowKey(s, row.value);
    if key.None? {
      return false;
    }
    var existing := Lookup(t, key.value);
    if existing.Some? {
      return false;
    }
    ok := WriteText(t, key.value, EncodedRow(row.value));
  }

  // ----- SELECT -----

  method AllRows(t: Transaction, s: Schema) returns (r: Option<seq<(Key, Row)>>, ghost list: seq<(Key, Key)>)
    requires !t.finished
    ensures Lists(list, View(t), RowPrefix(s.name)) && r == RowsTo(list, s, |list|)
  {
    hide ViewOf, DecodedRow, Lists, RowPrefix;
    var pairs := Scan(t, RowPrefix(s.name));
    list := pairs;
    var rows: seq<(Key, Row)> := [];
    for n := 0 to |pairs|
      invariant RowsTo(pairs, s, n) == Some(rows)
    {
      var row := DecodedRow(pairs[n].1, s);
      if row.None? {
        RowsStuck(pairs, s, n + 1, |pairs|);
        r := None;
        return;
      }
      rows := rows + [(pairs[n].0, row.value)];
    }
    r := Some(rows);
  }

  lemma {:induction false} RowsStuck(list: seq<(Key, Key)>, s: Schema, n: nat, m: nat)
    requires n <= m <= |list| && RowsTo(list, s, n).None?
    ensures RowsTo(list, s, m).None?
    decreases m
  {
    hide DecodedRow;
    if n < m {
      RowsStuck(list, s, n, m - 1);
    }
  }

  method FilterRows(rows: seq<(Key, Row)>, filter: Option<Expr>, s: Schema) returns (r: Option<seq<Row>>)
    requires Fitting(rows, s)
    ensures r == FilteredTo(rows, filter, s, |rows|)
  {
    hide Matches;
    var kept: seq<Row> := [];
    for n := 0 to |rows|
      invariant FilteredTo(rows, filter, s, n) == Some(kept)
    {
      var keep := Matches(filter, rows[n].1, s);
      if keep.None? {
        FilterStuck(rows, filter, s, n + 1, |rows|);
        return None;
      }
      if keep.value {
        kept := kept + [rows[n].1];
      }
    }
    return Some(kept);
  }

  lemma {:induction false} FilterStuck(rows: seq<(Key, Row)>, filter: Option<Expr>, s: Schema, n: nat, m: nat)
    requires Fitting(rows, s) && n <= m <= |rows| && FilteredTo(rows, filter, s, n).None?
    ensures FilteredTo(rows, filter, s, m).None?
    decreases m
  {
    hide Matches;
    if n < m {
      FilterStuck(rows, filter, s, n, m - 1);
    }
  }

  /** As the rows of `list`, a full scan, that the filter keeps. */
  ghost predicate AsScanned(r: Option<seq<Row>>, list: seq<(Key, Key)>, kv: Data, filter: Option<Expr>, s: Schema)
    requires Validated(s) && (PlanFor(filter, s).PrimaryKey? ==> InRange(PlanFor(filter, s).value))
  {
    match PlanFor(filter, s)
    case FullScan => r == Scanned(list, filter, s)
    case PrimaryKey(v) =>
      r == Scanned(list, filter, s) <==> v.Null? || KeyForPrimary(s, v).Some? || TableKeys(kv, s) != {}
  }

  /** The rows SELECT works on, by whichever plan is chosen. */
  method SelectRows(t: Transaction, s: Schema, filter: Option<Expr>) returns (r: Option<seq<Row>>)
    requires !t.finished && Validated(s) && TableOk(View(t), s)
    requires PlanFor(filter, s).PrimaryKey? ==> InRange(PlanFor(filter, s).value)
    ensures forall list :: Lists(list, View(t), RowPrefix(s.name)) ==> AsScanned(r, list, View(t), filter, s)
    ensures r.Some? ==> forall j :: 0 <= j < |r.value| ==> |r.value[j]| == |s.columns|
  {
    hide Validated, ViewOf, Lists, RowPrefix, PlanFor, TableOk, KeyForPrimary, LookedUp, Scanned;
    match PlanFor(filter, s)
    case FullScan =>
      r := ScanRows(t, s, filter);
    case PrimaryKey(v) =>
      PlanFilter(filter, s);
      r := LookupRow(t, s, v, filter);
      if r.Some? {
        LookedUpWide(View(t), v, filter, s);
      }
      forall list | Lists(list, View(t), RowPrefix(s.name))
        ensures AsScanned(r, list, View(t), filter, s)
      {
        PlanPreservesMeaning(View(t), s, list, filter.value, v);
      }
  }

  /** SELECT: whatever the plan, it returns what a full scan, the filter, ORDER BY, LIMIT and the projection give. */
  method RunSelect(t: Transaction, s: Schema, q: Select) returns (r: Option<(seq<Key>, seq<Row>)>)
    requires !t.finished && Validated(s) && TableOk(View(t), s)
    requires PlanFor(q.filter, s).PrimaryKey? ==> InRange(PlanFor(q.filter, s).value)
    ensures PlanAgrees(q.filter, s, View(t)) ==>
      forall list :: Lists(list, View(t), RowPrefix(s.name)) ==> r == Answer(list, q, s)
    ensures PlanAgrees(q.filter, s, View(t)) ==>
      if r.None? then MustFail(View(t), q, s) else IsAnswer(View(t), q, s, r.value.0, r.value.1)
  {
    hide Validated, ViewOf, Lists, RowPrefix, PlanFor, TableOk, KeyForPrimary, Scanned, Presented, LookedUp;
    hide MustFail, IsAnswer;
    var rows := SelectRows(t, s, q.filter);
    if rows.None? {
      r := None;
    } else {
      r := Present(rows.value, q, s);
    }
    ghost var list := SomeList(View(t), RowPrefix(s.name));
    AnswerExact(list, View(t), q, s);
  }

  /** The exact condition under which the index plan means the scan. */
  ghost predicate PlanAgrees(filter: Option<Expr>, s: Schema, kv: Data)
    requires Validated(s) && (PlanFor(filter, s).PrimaryKey? ==> InRange(PlanFor(filter, s).value))
  {
    match PlanFor(filter, s)
    case FullScan => true
    case PrimaryKey(v) => v.Null? || KeyForPrimary(s, v).Some? || TableKeys(kv, s) != {}
  }

  method ScanRows(t: Transaction, s: Schema, filter: Option<Expr>) returns (r: Option<seq<Row>>)
    requires !t.finished && Validated(s) && TableOk(View(t), s)
    ensures forall list :: Lists(list, View(t), RowPrefix(s.name)) ==> r == Scanned(list, filter, s)
    ensures r.Some? ==> forall j :: 0 <= j < |r.value| ==> |r.value[j]| == |s.columns|
  {
    hide Validated, ViewOf, Lists, RowPrefix, RowsTo, FilteredTo, TableOk;
    var all; ghost var list;
    all, list := AllRows(t, s);
    AllRowsRead(list, View(t), s);
    RowsFit(all.value, View(t), s);
    r := FilterRows(all.value, filter, s);
    if r.Some? {
      FilteredWide(all.value, filter, s, |all.value|);
    }
    forall other | Lists(other, View(t), RowPrefix(s.name))
      ensures r == Scanned(other, filter, s)
    {
      ListsUnique(list, other, View(t), RowPrefix(s.name));
    }
  }

  method LookupRow(t: Transaction, s: Schema, v: Value, filter: Option<Expr>) returns (r: Option<seq<Row>>)
    requires !t.finished && Validated(s) && InRange(v)
    ensures r == LookedUp(View(t), v, filter, s)
  {
    hide Validated, ViewOf, DecodedRow, KeyForPrimary, FilteredTo;
    if v.Null? {
      return Some([]);
    }
    var key := KeyForPrimary(s, v);
    if key.None? {
      return None;
    }
    var found := Lookup(t, key.value);
    if found.None? {
      return Some([]);
    }
    var row := DecodedRow(found.value, s);
    if row.None? {
      return None;
    }
    DecodedFits(found.value, s);
    r := FilterRows([(key.value, row.value)], filter, s);
  }

  lemma PlanFilter(filter: Option<Expr>, s: Schema)
    requires Validated(s) && PlanFor(filter, s).PrimaryKey?
    ensures filter.Some? && filter == Some(filter.value)
  {
  }

  lemma DecodedFits(text: Key, s: Schema)
    requires DecodedRow(text, s).Some?
    ensures |DecodedRow(text, s).value| == |s.columns|
  {
  }

  // ----- UPDATE -----

  method AssignRow(before: Row, a: Assignments, s: Schema) returns (r: Option<Row>)
    requires |before| == |s.columns|
    ensures r == AssignedTo(before, a, s, |a|)
  {
    hide ColumnIndex, HasType;
    var row := before;
    for n := 0 to |a|
      invariant |row| == |s.columns| && AssignedTo(before, a, s, n) == Some(row)
    {
      var index := ColumnIndex(s, a[n].0);
      if index.Some? {
        NameAt(s, a[n].0);
      }
      if index.None? || !HasType(a[n].1, s.columns[index.value].dataType) {
        AssignStuck(before, a, s, n + 1, |a|);
        return None;
      }
      row := row[index.value := a[n].1];
    }
    return Some(row);
  }

  lemma {:induction false} AssignStuck(row: Row, a: Assignments, s: Schema, n: nat, m: nat)
    requires n <= m <= |a| && |row| == |s.columns| && AssignedTo(row, a, s, n).None?
    ensures AssignedTo(row, a, s, m).None?
    decreases m
  {
    hide ColumnIndex, HasType;
    if n < m {
      AssignStuck(row, a, s, n, m - 1);
    }
  }

  /** One row of the UPDATE loop; `done` tells whether the row was selected and written. */
  method UpdateRow(t: Transaction, s: Schema, key: Key, row: Row, a: Assignments, filter: Option<Expr>)
    returns (failed: bool, done: bool)
    requires !t.finished && Validated(s) && AssignmentsInRange(a) && RowFits(row, s.columns)
    modifies t, t.store
    ensures !t.finished && Change(View(t), failed) == Moved(old(View(t)), key, FateOf(row, filter, a, s))
    ensures Now(t) == Performed(old(Now(t)), MovePuts(old(View(t)), key, FateOf(row, filter, a, s)))
    ensures !failed ==> (done <==> FateOf(row, filter, a, s).Moves?)
  {
    hide Validated, ViewOf, Matches, RowKey, EncodedRow, Storable, Deletable, HasType, Took, Performed;
    PerformedOne(old(Now(t)), Put([], None));
    var matched := Matches(filter, row, s);
    if matched.None? {
      return true, false;
    }
    if !matched.value {
      return false, false;
    }
    var next := AssignRow(row, a, s);
    if next.None? {
      return true, false;
    }
    AssignedFits(row, a, s, |a|);
    var newKey := RowKey(s, next.value);
    if newKey.None? {
      return true, false;
    }
    if newKey.value != key {
      var existing := Lookup(t, newKey.value);
      if existing.Some? {
        return true, false;
      }
      var removed := Remove(t, key);
      if !removed {
        return true, false;
      }
    }
    ghost var before := if newKey.value != key then [Put(key, None)] else [];
    assert Now(t) == Performed(old(Now(t)), before);
    var ok := WriteText(t, newKey.value, EncodedRow(next.value));
    PerformedParts(old(Now(t)), before, if ok then [Put(newKey.value, Some(EncodedRow(next.value)))] else []);
    return !ok, ok;
  }

  /** Runs over the rows found at the start; `None` after a failure, which leaves the rows before it changed. */
  method Update(t: Transaction, s: Schema, a: Assignments, filter: Option<Expr>)
    returns (r: Option<nat>, ghost rows: seq<(Key, Row)>, ghost fates: Fates)
    requires !t.finished && Validated(s) && AssignmentsInRange(a) && TableOk(View(t), s)
    modifies t, t.store
    ensures !t.finished && TableOk(View(t), s) && SameOutside(old(View(t)), View(t), s)
    ensures RowsOf(rows, old(View(t)), s) && (forall i :: 0 <= i < |rows| ==> RowFits(rows[i].1, s.columns))
    ensures fates == FatesOf(rows, filter, a, s) && FatesOk(fates, old(View(t)), s)
    ensures Change(View(t), r.None?) == MovedTo(old(View(t)), fates, |fates|)
    ensures Now(t) == Performed(old(Now(t)), MovePutsTo(old(View(t)), fates, |fates|))
    ensures r.Some? ==>
      && Fitting(rows, s) && UpdateMeans(old(View(t)), View(t), rows, filter, a, s)
      && r.value == |Passing(rows, filter, s, |rows|)|
  {
    hide Validated, ViewOf, RowFits, RowsOf, TableOk, FateOf, Moved, FatesOk, Lists, RowsTo, RowPrefix, SameOutside;
    hide MovePuts, Performed, UpdateMeans, Passing;
    var all; ghost var list;
    all, list := AllRows(t, s);
    AllRowsRead(list, View(t), s);
    var found := all.value;
    rows := found;
    ghost var kv := View(t);
    RowsFates(rows, kv, filter, a, s);
    fates := FatesOf(rows, filter, a, s);
    var affected := 0;
    PerformedOne(old(Now(t)), Put([], None));
    for n := 0 to |found|
      invariant !t.finished && Change(View(t), false) == MovedTo(kv, fates, n) && affected == Movers(fates, n)
      invariant Now(t) == Performed(old(Now(t)), MovePutsTo(kv, fates, n))
    {
      PerformedParts(old(Now(t)), MovePutsTo(kv, fates, n), MovePuts(View(t), fates[n].0, fates[n].1));
      var failed, done := UpdateRow(t, s, found[n].0, found[n].1, a, filter);
      if failed {
        MoveStuck(kv, fates, n + 1, |fates|);
        MovePutsStuck(kv, fates, n + 1, |fates|);
        UpdateKeeps(kv, fates, s, |fates|);
        r := None;
        return;
      }
      if done {
        affected := affected + 1;
      }
    }
    UpdateKeeps(kv, fates, s, |fates|);
    UpdateDone(kv, rows, filter, a, s);
    r := Some(affected);
  }

  // ----- DELETE -----

  method Delete(t: Transaction, s: Schema, filter: Option<Expr>) returns (r: Option<nat>, ghost rows: seq<(Key, Row)>)
    requires !t.finished && Validated(s) && TableOk(View(t), s)
    modifies t, t.store
    ensures !t.finished && TableOk(View(t), s) && RowsOf(rows, old(View(t)), s) && Fitting(rows, s)
    ensures r.Some? ==>
      && View(t) == old(View(t)) - Going(VerdictsOf(rows, filter, s), |rows|)
      && DeleteMeans(old(View(t)), View(t), rows, filter, s)
      && r.value == |Passing(rows, filter, s, |rows|)|
    ensures Now(t) == Performed(old(Now(t)), DropPutsTo(old(View(t)), VerdictsOf(rows, filter, s), |rows|))
  {
    hide Validated, ViewOf, RowsOf, TableOk, Matches, Lists, RowsTo, RowPrefix, Going, Deletable, Performed;
    hide DeleteMeans, Passing;
    var all; ghost var list;
    all, list := AllRows(t, s);
    AllRowsRead(list, View(t), s);
    var found := all.value;
    rows := found;
    RowsFit(rows, View(t), s);
    ghost var kv := View(t);
    ghost var verdicts := VerdictsOf(rows, filter, s);
    var affected := 0;
    PerformedOne(old(Now(t)), Put([], None));
    for n := 0 to |found|
      invariant !t.finished && Change(View(t), false) == DroppedTo(kv, verdicts, n)
      invariant affected == Selected(verdicts, n)
      invariant Now(t) == Performed(old(Now(t)), DropPutsTo(kv, verdicts, n))
    {
      DeleteExact(kv, verdicts, s, n);
      ghost var puts := DropPutsTo(kv, verdicts, n);
      assert puts + [] == puts;
      PerformedParts(old(Now(t)), puts, [Put(found[n].0, None)]);
      PerformedParts(old(Now(t)), puts, []);
      var matched := Matches(filter, found[n].1, s);
      if matched.None? {
        DropPutsStuck(kv, verdicts, n + 1, |verdicts|);
        r := None;
        return;
      }
      if matched.value {
        var removed := Remove(t, found[n].0);
        if !removed {
          DropPutsStuck(kv, verdicts, n + 1, |verdicts|);
          r := None;
          return;
        }
        affected := affected + 1;
      }
    }
    DeleteExact(kv, verdicts, s, |found|);
    DeleteMeaning(kv, rows, filter, s);
    SelectedPass(rows, filter, s, |rows|);
    r := Some(affected);
  }
}
