/** INSERT, UPDATE and DELETE as changes of what a transaction sees. */
module SqlChanges {
  import opened Bytes
  import opened Keys
  import opened SqlAst
  import opened Catalog
  import opened SqlEval
  import opened MvccLog
  import opened MvccRules
  import opened SqlTable

  /** The log takes the write. */
  predicate Storable(k: Key, text: Key) {
    RecordFits(Set(0, k, text))
  }

  predicate Deletable(k: Key) {
    RecordFits(Delete(0, k))
  }

  ghost predicate AllInRange(values: seq<Value>) {
    forall i :: 0 <= i < |values| ==> InRange(values[i])
  }

  // ----- INSERT -----

  /** The row after the first `n` columns of an INSERT; unnamed columns are NULL. */
  function RowTo(s: Schema, columns: seq<Key>, values: seq<Value>, n: nat): (r: Option<Row>)
    requires n <= |columns| == |values|
    ensures r.Some? ==> |r.value| == |s.columns|
  {
    if n == 0 then Some(seq(|s.columns|, _ => Null))
    else
      match (RowTo(s, columns, values, n - 1), ColumnIndex(s, columns[n - 1]))
      case (Some(row), Some(i)) =>
        if columns[n - 1] in columns[..n - 1] || !HasType(values[n - 1], s.columns[i].dataType) then None
        else Some(row[i := values[n - 1]])
      case _ => None
  }

  /** Every named column has its value, every other is NULL. */
  ghost predicate Says(row: Row, s: Schema, columns: seq<Key>, values: seq<Value>, n: nat)
    requires n <= |columns| == |values| && |row| == |s.columns|
  {
    forall i :: 0 <= i < |row| ==>
      && (s.columns[i].name !in columns[..n] ==> row[i] == Null)
      && (forall j :: 0 <= j < n && columns[j] == s.columns[i].name ==> row[i] == values[j])
  }

  lemma {:induction false} RowBuilt(s: Schema, columns: seq<Key>, values: seq<Value>, n: nat)
    requires Validated(s) && n <= |columns| == |values| && AllInRange(values) && RowTo(s, columns, values, n).Some?
    ensures var row := RowTo(s, columns, values, n).value;
      RowFits(row, s.columns) && Says(row, s, columns, values, n)
  {
    hide PrimaryCount, Position;
    if n > 0 {
      RowBuilt(s, columns, values, n - 1);
      var before, row := RowTo(s, columns, values, n - 1).value, RowTo(s, columns, values, n).value;
      NameAt(s, columns[n - 1]);
      var i := ColumnIndex(s, columns[n - 1]).value;
      assert columns[..n] == columns[..n - 1] + [columns[n - 1]];
      SaysMore(before, s, columns, values, n, i, row);
    }
  }

  lemma SaysMore(before: Row, s: Schema, columns: seq<Key>, values: seq<Value>, n: nat, i: nat, row: Row)
    requires Validated(s) && 0 < n <= |columns| == |values| && |before| == |s.columns| && i < |before|
    requires Says(before, s, columns, values, n - 1) && s.columns[i].name == columns[n - 1]
    requires columns[n - 1] !in columns[..n - 1] && row == before[i := values[n - 1]]
    ensures Says(row, s, columns, values, n)
  {
    hide PrimaryCount;
    assert columns[..n] == columns[..n - 1] + [columns[n - 1]];
    forall m | 0 <= m < |row|
      ensures s.columns[m].name !in columns[..n] ==> row[m] == Null
      ensures forall j :: 0 <= j < n && columns[j] == s.columns[m].name ==> row[m] == values[j]
    {
      assert forall j :: 0 <= j < n - 1 ==> columns[j] in columns[..n - 1];
    }
  }

  lemma NameAt(s: Schema, name: Key)
    requires ColumnIndex(s, name).Some?
    ensures var i := ColumnIndex(s, name).value; i < |s.columns| && s.columns[i].name == name
  {
  }

  datatype Change = Change(kv: Data, failed: bool)

  /** The key and text an INSERT stores, unless it fails. */
  function NewEntry(kv: Data, s: Schema, columns: seq<Key>, values: seq<Value>): Option<(Key, Key)>
    requires Validated(s)
  {
    if |columns| != |values| then None
    else
      match RowTo(s, columns, values, |columns|)
      case None => None
      case Some(row) =>
        if !(forall i :: 0 <= i < |row| ==> InRange(row[i]) && HasType(row[i], s.columns[i].dataType)) then None
        else
          match RowKey(s, row)
          case None => None
          case Some(k) => if k in kv || !Storable(k, EncodedRow(row)) then None else Some((k, EncodedRow(row)))
  }

  function Inserted(kv: Data, s: Schema, columns: seq<Key>, values: seq<Value>): Change
    requires Validated(s)
  {
    match NewEntry(kv, s, columns, values)
    case None => Change(kv, true)
    case Some((k, text)) => Change(kv[k := text], false)
  }

  lemma EntryStored(kv: Data, s: Schema, columns: seq<Key>, values: seq<Value>)
    requires Validated(s) && NewEntry(kv, s, columns, values).Some?
    ensures var (k, text) := NewEntry(kv, s, columns, values).value;
      k !in kv && Storable(k, text) && RowStored(s, k, text) && RowPrefix(s.name) <= k
  {
    hide Validated, EncodedRow, RowKey, RowPrefix, HasType, RowTo, Storable, RowStored;
    var row := RowTo(s, columns, values, |columns|).value;
    StoredHere(s, row);
    OwnKey(s, row);
  }

  /** An entry stored under the key of its own row keeps every table sound. */
  lemma StoreKeeps(kv: Data, s: Schema, k: Key, text: Key, t: Schema)
    requires Validated(s) && Validated(t) && RowStored(s, k, text) && RowPrefix(s.name) <= k
    requires TableOk(kv, t) && (t == s || (t.name != s.name && COLON !in s.name && COLON !in t.name))
    ensures TableOk(kv[k := text], t)
  {
    hide Validated, RowStored, RowPrefix;
    if t != s && RowPrefix(t.name) <= k {
      TablesApart(s.name, t.name, k);
    }
  }

  lemma StoredHere(s: Schema, row: Row)
    requires Validated(s) && RowFits(row, s.columns) && RowKey(s, row).Some?
    ensures RowStored(s, RowKey(s, row).value, EncodedRow(row))
  {
    hide Validated, EncodedRow, RowKey;
  }

  lemma OwnKey(s: Schema, row: Row)
    requires Validated(s) && RowFits(row, s.columns) && RowKey(s, row).Some?
    ensures RowPrefix(s.name) <= RowKey(s, row).value
  {
    hide Validated, EncodedValue, Hex, PrimaryIndex, RowPrefix;
    PrimaryFound(s);
    RowKeyUnder(s, row[PrimaryIndex(s)]);
  }

  lemma DropKeeps(kv: Data, k: Key, t: Schema)
    requires Validated(t) && TableOk(kv, t)
    ensures TableOk(kv - {k}, t)
  {
    hide Validated, RowStored, RowPrefix;
  }

  /** INSERT keeps its own and every other table sound, and adds exactly one row when it succeeds. */
  lemma InsertKeeps(kv: Data, s: Schema, columns: seq<Key>, values: seq<Value>, t: Schema)
    requires Validated(s) && Validated(t) && TableOk(kv, t)
    requires t == s || (t.name != s.name && COLON !in s.name && COLON !in t.name)
    ensures var c := Inserted(kv, s, columns, values);
      TableOk(c.kv, t) && |TableKeys(c.kv, s)| == |TableKeys(kv, s)| + (if c.failed then 0 else 1)
  {
    hide Validated, RowPrefix, TableOk, NewEntry, Storable, RowStored;
    var c := Inserted(kv, s, columns, values);
    if !c.failed {
      var (k, text) := NewEntry(kv, s, columns, values).value;
      EntryStored(kv, s, columns, values);
      StoreKeeps(kv, s, k, text, t);
      assert TableKeys(c.kv, s) == TableKeys(kv, s) + {k};
    }
  }

  // ----- UPDATE -----

  type Assignments = seq<(Key, Value)>

  function AssignedTo(row: Row, assignments: Assignments, s: Schema, n: nat): (r: Option<Row>)
    requires n <= |assignments| && |row| == |s.columns|
    ensures r.Some? ==> |r.value| == |s.columns|
  {
    if n == 0 then Some(row)
    else
      match (AssignedTo(row, assignments, s, n - 1), ColumnIndex(s, assignments[n - 1].0))
      case (Some(before), Some(i)) =>
        if HasType(assignments[n - 1].1, s.columns[i].dataType) then Some(before[i := assignments[n - 1].1]) else None
      case _ => None
  }

  ghost predicate AssignmentsInRange(a: Assignments) {
    forall i :: 0 <= i < |a| ==> InRange(a[i].1)
  }

  lemma {:induction false} AssignedFits(row: Row, a: Assignments, s: Schema, n: nat)
    requires RowFits(row, s.columns) && AssignmentsInRange(a) && n <= |a| && AssignedTo(row, a, s, n).Some?
    ensures RowFits(AssignedTo(row, a, s, n).value, s.columns)
  {
    hide ColumnIndex, HasType;
    if n > 0 {
      AssignedFits(row, a, s, n - 1);
    }
  }

  /** What UPDATE means for one row: nothing, a new text under a key, or an error. */
  datatype Fate = Untouched | Moves(key: Key, text: Key) | Errs

  ghost function FateOf(row: Row, filter: Option<Expr>, a: Assignments, s: Schema): Fate
    requires Validated(s) && RowFits(row, s.columns) && AssignmentsInRange(a)
  {
    match Matches(filter, row, s)
    case None => Errs
    case Some(false) => Untouched
    case Some(true) =>
      match AssignedTo(row, a, s, |a|)
      case None => Errs
      case Some(next) =>
        AssignedFits(row, a, s, |a|);
        match RowKey(s, next)
        case None => Errs
        case Some(k) => Moves(k, EncodedRow(next))
  }

  lemma FateStored(row: Row, filter: Option<Expr>, a: Assignments, s: Schema)
    requires Validated(s) && RowFits(row, s.columns) && AssignmentsInRange(a) && FateOf(row, filter, a, s).Moves?
    ensures var f := FateOf(row, filter, a, s); RowStored(s, f.key, f.text) && RowPrefix(s.name) <= f.key
  {
    hide Validated, EncodedRow, RowKey, Matches, RowPrefix, RowStored;
    AssignedFits(row, a, s, |a|);
    var next := AssignedTo(row, a, s, |a|).value;
    StoredHere(s, next);
    OwnKey(s, next);
  }

  /** One turn of the UPDATE loop. */
  ghost function Moved(kv: Data, key: Key, fate: Fate): Change {
    match fate
    case Errs => Change(kv, true)
    case Untouched => Change(kv, false)
    case Moves(k, text) =>
      if k != key && (k in kv || !Deletable(key)) then Change(kv, true)
      else
        var rest := if k != key then kv - {key} else kv;
        if Storable(k, text) then Change(rest[k := text], false) else Change(rest, true)
  }

  type Fates = seq<(Key, Fate)>

  /** The loop over the rows found at the start, up to the first failure. */
  ghost function MovedTo(kv: Data, fates: Fates, n: nat): Change
    requires n <= |fates|
  {
    if n == 0 then Change(kv, false)
    else
      var before := MovedTo(kv, fates, n - 1);
      if before.failed then before else Moved(before.kv, fates[n - 1].0, fates[n - 1].1)
  }

  /** The fates belong to rows of the table under distinct keys, and what moves is a row under its own key. */
  ghost predicate FatesOk(fates: Fates, kv: Data, s: Schema)
    requires Validated(s)
  {
    && (forall i :: 0 <= i < |fates| ==> fates[i].0 in TableKeys(kv, s))
    && (forall i, j :: 0 <= i < j < |fates| ==> fates[i].0 != fates[j].0)
    && (forall i :: 0 <= i < |fates| ==> FateSound(fates[i].1, s))
  }

  ghost predicate FateSound(f: Fate, s: Schema)
    requires Validated(s)
  {
    f.Moves? ==> RowStored(s, f.key, f.text) && RowPrefix(s.name) <= f.key
  }

  /** Rows still to come are as they were; rows done are where they should be and out of the way. */
  ghost predicate Midway(kv: Data, now: Data, fates: Fates, n: nat)
    requires n <= |fates|
  {
    && (forall j :: n <= j < |fates| ==> Settled(kv, now, fates[j].0, Untouched))
    && (forall i :: 0 <= i < n ==> Settled(kv, now, fates[i].0, fates[i].1))
    && (forall i, j :: 0 <= i < n <= j < |fates| && fates[i].1.Moves? ==> fates[i].1.key != fates[j].0)
  }

  ghost predicate Settled(kv: Data, now: Data, key: Key, f: Fate) {
    match f
    case Errs => false
    case Untouched => key in kv && key in now && now[key] == kv[key]
    case Moves(k, text) => k in now && now[k] == text
  }

  lemma MoveKeepsRows(kv: Data, now: Data, fates: Fates, n: nat, s: Schema)
    requires Validated(s) && FatesOk(fates, kv, s) && n < |fates| && Midway(kv, now, fates, n)
    requires !Moved(now, fates[n].0, fates[n].1).failed
    ensures Midway(kv, Moved(now, fates[n].0, fates[n].1).kv, fates, n + 1)
  {
    hide Validated, RowStored, TableKeys, Storable, Deletable, RowPrefix;
    var (key, f) := fates[n];
    var next := Moved(now, key, f).kv;
    forall i | 0 <= i < n + 1
      ensures Settled(kv, next, fates[i].0, fates[i].1)
    {
      if i < n {
        assert Settled(kv, now, fates[i].0, fates[i].1);
      }
    }
  }

  /** Nothing outside the table differs. */
  ghost predicate SameOutside(kv: Data, now: Data, s: Schema) {
    forall k :: !(RowPrefix(s.name) <= k) ==> (k in now <==> k in kv) && (k in kv ==> now[k] == kv[k])
  }

  /** A change inside one table leaves every other sound. */
  lemma OtherTableKept(kv: Data, now: Data, s: Schema, t: Schema)
    requires Validated(t) && TableOk(kv, t) && SameOutside(kv, now, s)
    requires t.name != s.name && COLON !in s.name && COLON !in t.name
    ensures TableOk(now, t)
  {
    hide Validated, RowStored, RowPrefix;
    forall k | k in now && RowPrefix(t.name) <= k
      ensures RowStored(t, k, now[k])
    {
      assert !(RowPrefix(s.name) <= k) by {
        if RowPrefix(s.name) <= k {
          TablesApart(s.name, t.name, k);
        }
      }
    }
  }

  lemma MoveKeepsTable(now: Data, key: Key, f: Fate, s: Schema)
    requires Validated(s) && TableOk(now, s) && FateSound(f, s) && key in TableKeys(now, s)
    ensures var c := Moved(now, key, f);
      TableOk(c.kv, s) && (!c.failed ==> |TableKeys(c.kv, s)| == |TableKeys(now, s)|)
  {
    hide Validated, RowStored, Storable, Deletable, RowPrefix;
    var c := Moved(now, key, f);
    if f.Moves? && !c.failed {
      var before, after := TableKeys(now, s), TableKeys(c.kv, s);
      if f.key == key {
        assert after == before;
      } else {
        assert after == before - {key} + {f.key};
      }
    }
  }

  lemma MoveKeepsOutside(now: Data, key: Key, f: Fate, s: Schema)
    requires Validated(s) && FateSound(f, s) && RowPrefix(s.name) <= key
    ensures SameOutside(now, Moved(now, key, f).kv, s)
  {
    hide Validated, RowStored, Storable, Deletable, RowPrefix;
  }

  /** However far UPDATE gets, the table stays sound; as long as it succeeds no row is lost or gained. */
  lemma {:induction false} UpdateKeeps(kv: Data, fates: Fates, s: Schema, n: nat)
    requires Validated(s) && TableOk(kv, s) && FatesOk(fates, kv, s) && n <= |fates|
    ensures var c := MovedTo(kv, fates, n);
      && TableOk(c.kv, s) && SameOutside(kv, c.kv, s)
      && (!c.failed ==> Midway(kv, c.kv, fates, n) && |TableKeys(c.kv, s)| == |TableKeys(kv, s)|)
  {
    hide Validated, TableOk, Moved, RowPrefix, RowStored;
    if n > 0 {
      UpdateKeeps(kv, fates, s, n - 1);
      var before := MovedTo(kv, fates, n - 1);
      if !before.failed {
        var (key, f) := fates[n - 1];
        assert key in TableKeys(kv, s);
        MoveKeepsTable(before.kv, key, f, s);
        MoveKeepsOutside(before.kv, key, f, s);
        if !Moved(before.kv, key, f).failed {
          MoveKeepsRows(kv, before.kv, fates, n - 1, s);
        }
      }
    }
  }

  /**
   * A successful UPDATE leaves every row it selects under its new key with its new text,
   * the others in place, and as many rows as before.
   */
  lemma UpdateExact(kv: Data, fates: Fates, s: Schema)
    requires Validated(s) && TableOk(kv, s) && FatesOk(fates, kv, s) && !MovedTo(kv, fates, |fates|).failed
    ensures var now := MovedTo(kv, fates, |fates|).kv;
      && TableOk(now, s) && |TableKeys(now, s)| == |TableKeys(kv, s)|
      && (forall i :: 0 <= i < |fates| ==> Settled(kv, now, fates[i].0, fates[i].1))
  {
    hide Validated, TableOk, MovedTo, Settled;
    UpdateKeeps(kv, fates, s, |fates|);
  }

  ghost function FatesOf(rows: seq<(Key, Row)>, filter: Option<Expr>, a: Assignments, s: Schema): (fates: Fates)
    requires Validated(s) && AssignmentsInRange(a)
    requires forall i :: 0 <= i < |rows| ==> RowFits(rows[i].1, s.columns)
    ensures |fates| == |rows|
  {
    seq(|rows|, i requires 0 <= i < |rows| => (rows[i].0, FateOf(rows[i].1, filter, a, s)))
  }

  lemma RowsFates(rows: seq<(Key, Row)>, kv: Data, filter: Option<Expr>, a: Assignments, s: Schema)
    requires Validated(s) && AssignmentsInRange(a) && RowsOf(rows, kv, s)
    ensures forall i :: 0 <= i < |rows| ==> RowFits(rows[i].1, s.columns)
    ensures FatesOk(FatesOf(rows, filter, a, s), kv, s)
  {
    hide Validated, RowKey, EncodedRow, RowPrefix, FateOf, Less, RowStored, RowFits, TableKeys;
    RowsPresent(rows, kv, s);
    var fates := FatesOf(rows, filter, a, s);
    forall i | 0 <= i < |fates|
      ensures FateSound(fates[i].1, s)
    {
      if fates[i].1.Moves? {
        FateStored(rows[i].1, filter, a, s);
      }
    }
    forall i, j | 0 <= i < j < |fates|
      ensures fates[i].0 != fates[j].0
    {
      LessIrreflexive(rows[i].0);
    }
  }

  lemma RowsPresent(rows: seq<(Key, Row)>, kv: Data, s: Schema)
    requires Validated(s) && RowsOf(rows, kv, s)
    ensures forall i :: 0 <= i < |rows| ==> RowFits(rows[i].1, s.columns) && rows[i].0 in TableKeys(kv, s)
  {
    hide Validated, RowKey, EncodedRow, RowPrefix, Less;
    forall i | 0 <= i < |rows|
      ensures RowFits(rows[i].1, s.columns) && rows[i].0 in TableKeys(kv, s)
    {
      assert RowPresent(rows[i].0, rows[i].1, kv, s);
    }
  }

  /** How many of the first `n` rows are to go. */
  ghost function Selected(verdicts: Verdicts, n: nat): nat
    requires n <= |verdicts|
  {
    if n == 0 then 0 else Selected(verdicts, n - 1) + (if verdicts[n - 1].1 == Some(true) then 1 else 0)
  }

  ghost function Movers(fates: Fates, n: nat): nat
    requires n <= |fates|
  {
    if n == 0 then 0 else Movers(fates, n - 1) + (if fates[n - 1].1.Moves? then 1 else 0)
  }

  lemma {:induction false} MoveStuck(kv: Data, fates: Fates, n: nat, m: nat)
    requires n <= m <= |fates| && MovedTo(kv, fates, n).failed
    ensures MovedTo(kv, fates, m) == MovedTo(kv, fates, n)
    decreases m
  {
    hide Moved;
    if n < m {
      MoveStuck(kv, fates, n, m - 1);
    }
  }

  // ----- DELETE -----

  /** Whether each row is to go: `None` if the filter fails on it. */
  type Verdicts = seq<(Key, Option<bool>)>

  ghost function VerdictsOf(rows: seq<(Key, Row)>, filter: Option<Expr>, s: Schema): (v: Verdicts)
    requires Fitting(rows, s)
    ensures |v| == |rows|
  {
    seq(|rows|, i requires 0 <= i < |rows| => (rows[i].0, Matches(filter, rows[i].1, s)))
  }

  ghost function DroppedTo(kv: Data, verdicts: Verdicts, n: nat): Change
    requires n <= |verdicts|
  {
    if n == 0 then Change(kv, false)
    else
      var before := DroppedTo(kv, verdicts, n - 1);
      var (key, go) := verdicts[n - 1];
      if before.failed then before
      else if go.None? || (go.value && !Deletable(key)) then Change(before.kv, true)
      else if go.value then Change(before.kv - {key}, false)
      else before
  }

  lemma {:induction false} DropStuck(kv: Data, verdicts: Verdicts, n: nat, m: nat)
    requires n <= m <= |verdicts| && DroppedTo(kv, verdicts, n).failed
    ensures DroppedTo(kv, verdicts, m) == DroppedTo(kv, verdicts, n)
    decreases m
  {
    hide Deletable;
    if n < m {
      DropStuck(kv, verdicts, n, m - 1);
    }
  }

  ghost function Going(verdicts: Verdicts, n: nat): set<Key>
    requires n <= |verdicts|
  {
    set i | 0 <= i < n && verdicts[i].1 == Some(true) :: verdicts[i].0
  }

  /** DELETE removes exactly the keys of the rows it selects, and keeps every table sound. */
  lemma {:induction false} DeleteExact(kv: Data, verdicts: Verdicts, s: Schema, n: nat)
    requires Validated(s) && TableOk(kv, s) && n <= |verdicts|
    ensures var c := DroppedTo(kv, verdicts, n);
      TableOk(c.kv, s) && (!c.failed ==> c.kv == kv - Going(verdicts, n))
  {
    hide Validated, TableOk, Deletable;
    if n > 0 {
      DeleteExact(kv, verdicts, s, n - 1);
      var before := DroppedTo(kv, verdicts, n - 1);
      var (key, go) := verdicts[n - 1];
      DropKeeps(before.kv, key, s);
      if go == Some(true) {
        assert Going(verdicts, n) == Going(verdicts, n - 1) + {key};
      } else {
        assert Going(verdicts, n) == Going(verdicts, n - 1);
      }
    }
  }

  // ----- Statements as lists of writes -----

  /** One write of a transaction; `None` deletes. */
  datatype Put = Put(key: Key, value: Option<Key>)

  predicate Takes(p: Put) {
    if p.value.Some? then Storable(p.key, p.value.value) else Deletable(p.key)
  }

  function PutOne(kv: Data, p: Put): Data {
    if p.value.Some? then kv[p.key := p.value.value] else kv - {p.key}
  }

  function PutAll(kv: Data, puts: seq<Put>): Data {
    if puts == [] then kv else PutOne(PutAll(kv, puts[..|puts| - 1]), puts[|puts| - 1])
  }

  lemma {:induction false} PutParts(kv: Data, ps: seq<Put>, qs: seq<Put>)
    ensures PutAll(kv, ps + qs) == PutAll(PutAll(kv, ps), qs)
  {
    hide PutOne;
    if qs == [] {
      assert ps + qs == ps;
    } else {
      PutParts(kv, ps, qs[..|qs| - 1]);
      assert (ps + qs)[..|ps + qs| - 1] == ps + qs[..|qs| - 1];
    }
  }

  lemma PutSnoc(kv: Data, ps: seq<Put>, p: Put)
    ensures PutAll(kv, ps + [p]) == PutOne(PutAll(kv, ps), p)
  {
    hide PutOne;
    assert (ps + [p])[..|ps|] == ps;
  }

  lemma PutFew(kv: Data, p: Put, q: Put)
    ensures PutAll(kv, []) == kv && PutAll(kv, [p]) == PutOne(kv, p) && PutAll(kv, [q]) == PutOne(kv, q)
    ensures PutAll(kv, [p, q]) == PutOne(PutOne(kv, p), q)
  {
    hide PutOne;
    PutSnoc(kv, [], p);
    PutSnoc(kv, [], q);
    PutSnoc(kv, [p], q);
    assert [] + [p] == [p] && [] + [q] == [q] && [p] + [q] == [p, q];
  }

  /** A write under the prefix of `s`: a deletion, or a row of `s` under its own key. */
  ghost predicate RowWrite(p: Put, s: Schema)
    requires Validated(s)
  {
    RowPrefix(s.name) <= p.key && (p.value.Some? ==> RowStored(s, p.key, p.value.value))
  }

  ghost predicate RowWrites(puts: seq<Put>, s: Schema)
    requires Validated(s)
  {
    forall i :: 0 <= i < |puts| ==> Takes(puts[i]) && RowWrite(puts[i], s)
  }

  ghost function InsertPuts(kv: Data, s: Schema, columns: seq<Key>, values: seq<Value>): seq<Put>
    requires Validated(s)
  {
    match NewEntry(kv, s, columns, values)
    case None => []
    case Some((k, text)) => [Put(k, Some(text))]
  }

  lemma InsertPutsExact(kv: Data, s: Schema, columns: seq<Key>, values: seq<Value>)
    requires Validated(s)
    ensures var puts := InsertPuts(kv, s, columns, values);
      PutAll(kv, puts) == Inserted(kv, s, columns, values).kv && RowWrites(puts, s)
  {
    hide Validated, RowStored, RowPrefix, NewEntry, Storable;
    var puts := InsertPuts(kv, s, columns, values);
    if puts != [] {
      EntryStored(kv, s, columns, values);
      assert puts[..0] == [];
    }
  }

  /** The writes of one turn of the UPDATE loop, up to one the log refuses. */
  ghost function MovePuts(kv: Data, key: Key, fate: Fate): seq<Put> {
    if !fate.Moves? || (fate.key != key && (fate.key in kv || !Deletable(key))) then []
    else (if fate.key != key then [Put(key, None)] else [])
         + (if Storable(fate.key, fate.text) then [Put(fate.key, Some(fate.text))] else [])
  }

  ghost function MovePutsTo(kv: Data, fates: Fates, n: nat): seq<Put>
    requires n <= |fates|
  {
    if n == 0 then []
    else
      var before := MovedTo(kv, fates, n - 1);
      MovePutsTo(kv, fates, n - 1)
      + (if before.failed then [] else MovePuts(before.kv, fates[n - 1].0, fates[n - 1].1))
  }

  lemma {:induction false} MovePutsStuck(kv: Data, fates: Fates, n: nat, m: nat)
    requires n <= m <= |fates| && MovedTo(kv, fates, n).failed
    ensures MovePutsTo(kv, fates, m) == MovePutsTo(kv, fates, n)
    decreases m
  {
    hide Moved, MovePuts;
    if n < m {
      MovePutsStuck(kv, fates, n, m - 1);
      MoveStuck(kv, fates, n, m - 1);
    }
  }

  lemma MovePutsExact(kv: Data, key: Key, fate: Fate, s: Schema)
    requires Validated(s) && FateSound(fate, s) && RowPrefix(s.name) <= key
    ensures PutAll(kv, MovePuts(kv, key, fate)) == Moved(kv, key, fate).kv && RowWrites(MovePuts(kv, key, fate), s)
  {
    hide Validated, RowStored, RowPrefix, Storable, Deletable;
    var puts := MovePuts(kv, key, fate);
    if fate.Moves? {
      PutFew(kv, Put(key, None), Put(fate.key, Some(fate.text)));
      var both := [Put(key, None)] + [Put(fate.key, Some(fate.text))];
      assert both == [Put(key, None), Put(fate.key, Some(fate.text))];
      assert forall ps: seq<Put> :: ps + [] == ps && [] + ps == ps;
    }
  }

  lemma {:induction false} UpdatePutsExact(kv: Data, fates: Fates, s: Schema, n: nat)
    requires Validated(s) && FatesOk(fates, kv, s) && n <= |fates|
    ensures PutAll(kv, MovePutsTo(kv, fates, n)) == MovedTo(kv, fates, n).kv && RowWrites(MovePutsTo(kv, fates, n), s)
  {
    hide Validated, RowStored, RowPrefix, Moved, MovePuts, RowWrite, Takes, PutAll, FateSound;
    if n == 0 {
      PutFew(kv, Put([], None), Put([], None));
    } else {
      UpdatePutsExact(kv, fates, s, n - 1);
      var before := MovedTo(kv, fates, n - 1);
      if !before.failed {
        var (key, fate) := fates[n - 1];
        assert key in TableKeys(kv, s);
        MovePutsExact(before.kv, key, fate, s);
        PutParts(kv, MovePutsTo(kv, fates, n - 1), MovePuts(before.kv, key, fate));
      } else {
        assert MovePutsTo(kv, fates, n) == MovePutsTo(kv, fates, n - 1);
      }
    }
  }

  /** The deletions of the DELETE loop, up to a failure. */
  ghost function DropPutsTo(kv: Data, verdicts: Verdicts, n: nat): seq<Put>
    requires n <= |verdicts|
  {
    if n == 0 then []
    else
      var before := DroppedTo(kv, verdicts, n - 1);
      var (key, go) := verdicts[n - 1];
      DropPutsTo(kv, verdicts, n - 1)
      + (if !before.failed && go == Some(true) && Deletable(key) then [Put(key, None)] else [])
  }

  lemma {:induction false} DropPutsStuck(kv: Data, verdicts: Verdicts, n: nat, m: nat)
    requires n <= m <= |verdicts| && DroppedTo(kv, verdicts, n).failed
    ensures DropPutsTo(kv, verdicts, m) == DropPutsTo(kv, verdicts, n)
    decreases m
  {
    hide Deletable;
    if n < m {
      DropPutsStuck(kv, verdicts, n, m - 1);
      DropStuck(kv, verdicts, n, m - 1);
    }
  }

  lemma {:induction false} DeletePutsExact(kv: Data, verdicts: Verdicts, s: Schema, n: nat)
    requires Validated(s) && n <= |verdicts| && forall i :: 0 <= i < n ==> RowPrefix(s.name) <= verdicts[i].0
    ensures PutAll(kv, DropPutsTo(kv, verdicts, n)) == DroppedTo(kv, verdicts, n).kv
    ensures RowWrites(DropPutsTo(kv, verdicts, n), s)
  {
    hide Validated, Deletable, RowStored, RowPrefix, PutAll;
    if n > 0 {
      DeletePutsExact(kv, verdicts, s, n - 1);
      var (key, go) := verdicts[n - 1];
      var before := DropPutsTo(kv, verdicts, n - 1);
      PutSnoc(kv, before, Put(key, None));
      assert before + [] == before;
    } else {
      PutFew(kv, Put([], None), Put([], None));
    }
  }
}
