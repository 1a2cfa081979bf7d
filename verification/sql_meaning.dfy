module SqlMeaning {
  // What statements mean, said without the functions that compute it: expressions, SELECT, INSERT, UPDATE, DELETE.

  import opened Bytes
  import opened Keys
  import opened SqlAst
  import opened Catalog
  import opened SqlEval
  import opened SqlTable
  import opened SqlChanges
  import opened SqlSelect

  // ----- Expressions -----

  ghost predicate SameType(a: Value, b: Value) {
    (a.Integer? && b.Integer?) || (a.Text? && b.Text?) || (a.Boolean? && b.Boolean?)
  }

  /** A comparison in terms of the order of values. */
  ghost predicate Related(op: BinaryOp, a: Value, b: Value)
    requires Comparing(op)
  {
    match op
    case Eq => a == b
    case Ne => a != b
    case Le => AtMost(a, b)
    case Lt => AtMost(a, b) && a != b
    case Ge => AtMost(b, a)
    case Gt => AtMost(b, a) && a != b
  }

  /** Truth values: false, then NULL, then true. */
  ghost predicate Truthlike(v: Value) {
    v.Null? || v.Boolean?
  }

  ghost function Level(v: Value): nat {
    if v == Boolean(false) then 0 else if v == Boolean(true) then 2 else 1
  }

  /** AND is the lesser and OR the greater truth value; a comparison with NULL is NULL. */
  ghost predicate OpStands(op: BinaryOp, a: Value, b: Value, v: Value) {
    match op
    case And =>
      && Truthlike(a) && Truthlike(b) && Truthlike(v)
      && Level(v) == if Level(a) <= Level(b) then Level(a) else Level(b)
    case Or =>
      && Truthlike(a) && Truthlike(b) && Truthlike(v)
      && Level(v) == if Level(a) <= Level(b) then Level(b) else Level(a)
    case _ =>
      if a.Null? || b.Null? then v.Null? else SameType(a, b) && v == Boolean(Related(op, a, b))
  }

  /** `e` stands for `v` on this row. */
  ghost predicate Stands(e: Expr, row: Row, s: Schema, v: Value)
    requires |row| == |s.columns|
  {
    match e
    case Literal(w) => v == w
    case Column(name) => exists i :: 0 <= i < |s.columns| && s.columns[i].name == name && row[i] == v
    case Binary(op, left, right) =>
      exists a, b :: Stands(left, row, s, a) && Stands(right, row, s, b) && OpStands(op, a, b, v)
  }

  lemma OpExact(op: BinaryOp, a: Value, b: Value, v: Value)
    ensures OpStands(op, a, b, v) <==>
      Some(v) == if op.And? then LogicAnd(a, b) else if op.Or? then LogicOr(a, b) else Compared(op, a, b)
  {
    if a.Text? && b.Text? {
      LessTotal(a.text, b.text);
      if Less(a.text, b.text) && Less(b.text, a.text) {
        LessTrans(a.text, b.text, a.text);
        LessIrreflexive(a.text);
        assert false;
      }
    }
  }

  lemma ColumnExact(s: Schema, name: Key, i: nat)
    requires Validated(s)
    ensures ColumnIndex(s, name) == Some(i) <==> i < |s.columns| && s.columns[i].name == name
  {
    hide PrimaryCount;
  }

  /** Evaluation gives a value exactly if the expression stands for it, and an error if it stands for none. */
  lemma {:induction false} EvalExact(e: Expr, row: Row, s: Schema, v: Value)
    requires Validated(s) && |row| == |s.columns|
    ensures Eval(e, row, s) == Some(v) <==> Stands(e, row, s, v)
  {
    hide Validated, OpStands, LogicAnd, LogicOr, Compared, ColumnIndex;
    match e
    case Literal(w) =>
    case Column(name) =>
      if Stands(e, row, s, v) {
        var i :| 0 <= i < |s.columns| && s.columns[i].name == name && row[i] == v;
        ColumnExact(s, name, i);
      }
      if Eval(e, row, s) == Some(v) {
        ColumnExact(s, name, ColumnIndex(s, name).value);
      }
    case Binary(op, left, right) =>
      if Stands(e, row, s, v) {
        var a, b :| Stands(left, row, s, a) && Stands(right, row, s, b) && OpStands(op, a, b, v);
        EvalExact(left, row, s, a);
        EvalExact(right, row, s, b);
        OpExact(op, a, b, v);
      }
      if Eval(e, row, s) == Some(v) {
        var a, b := Eval(left, row, s).value, Eval(right, row, s).value;
        EvalExact(left, row, s, a);
        EvalExact(right, row, s, b);
        OpExact(op, a, b, v);
      }
  }

  /** The filter is true of the row. */
  ghost predicate Passes(filter: Option<Expr>, row: Row, s: Schema)
    requires |row| == |s.columns|
  {
    filter.None? || Stands(filter.value, row, s, Boolean(true))
  }

  /** The filter has no value on the row. */
  ghost predicate Senseless(filter: Option<Expr>, row: Row, s: Schema)
    requires |row| == |s.columns|
  {
    filter.Some? && forall v :: !Stands(filter.value, row, s, v)
  }

  lemma MatchesExact(filter: Option<Expr>, row: Row, s: Schema)
    requires Validated(s) && |row| == |s.columns|
    ensures Matches(filter, row, s) == if Senseless(filter, row, s) then None else Some(Passes(filter, row, s))
  {
    hide Validated, Eval, Stands;
    if filter.Some? {
      EvalExact(filter.value, row, s, Boolean(true));
      var r := Eval(filter.value, row, s);
      if r.Some? {
        EvalExact(filter.value, row, s, r.value);
      } else {
        forall v: Value
          ensures !Stands(filter.value, row, s, v)
        {
          EvalExact(filter.value, row, s, v);
        }
      }
    }
  }

  /** AND and OR on whole rows, wherever both sides have a value. */
  lemma AndOrPass(p: Expr, q: Expr, row: Row, s: Schema)
    requires Validated(s) && |row| == |s.columns|
    requires Stands(p, row, s, Boolean(true)) || Stands(p, row, s, Boolean(false)) || Stands(p, row, s, Null)
    requires Stands(q, row, s, Boolean(true)) || Stands(q, row, s, Boolean(false)) || Stands(q, row, s, Null)
    ensures Matches(Some(Binary(And, p, q)), row, s)
      == Some(Passes(Some(p), row, s) && Passes(Some(q), row, s))
    ensures Matches(Some(Binary(Or, p, q)), row, s)
      == Some(Passes(Some(p), row, s) || Passes(Some(q), row, s))
  {
    hide Validated, Stands;
    Valued(p, row, s);
    Valued(q, row, s);
  }

  lemma Valued(p: Expr, row: Row, s: Schema)
    requires Validated(s) && |row| == |s.columns|
    requires Stands(p, row, s, Boolean(true)) || Stands(p, row, s, Boolean(false)) || Stands(p, row, s, Null)
    ensures Eval(p, row, s).Some? && Truthlike(Eval(p, row, s).value)
    ensures Eval(p, row, s) == Some(Boolean(true)) <==> Passes(Some(p), row, s)
  {
    hide Validated, Stands, Eval;
    EvalExact(p, row, s, Boolean(true));
    EvalExact(p, row, s, Boolean(false));
    EvalExact(p, row, s, Null);
  }

  // ----- SELECT -----

  /** `kept` are, in order, exactly those of the first `n` rows on which the filter is true. */
  ghost predicate Picks(
    all: seq<(Key, Row)>, picks: seq<nat>, kept: seq<Row>, filter: Option<Expr>, s: Schema, n: nat)
    requires n <= |all| && Fitting(all, s)
  {
    && |picks| == |kept|
    && (forall j :: 0 <= j < |picks| ==> picks[j] < n && kept[j] == all[picks[j]].1)
    && (forall j, k :: 0 <= j < k < |picks| ==> picks[j] < picks[k])
    && (forall i :: 0 <= i < n ==> (i in picks <==> Passes(filter, all[i].1, s)))
  }

  lemma {:induction false} FilterExact(all: seq<(Key, Row)>, filter: Option<Expr>, s: Schema, n: nat)
    returns (picks: seq<nat>)
    requires Validated(s) && n <= |all| && Fitting(all, s)
    ensures FilteredTo(all, filter, s, n).None? <==> exists i :: 0 <= i < n && Senseless(filter, all[i].1, s)
    ensures FilteredTo(all, filter, s, n).Some? ==> Picks(all, picks, FilteredTo(all, filter, s, n).value, filter, s, n)
  {
    hide Validated, Matches, Passes, Senseless;
    picks := [];
    if n > 0 {
      picks := FilterExact(all, filter, s, n - 1);
      MatchesExact(filter, all[n - 1].1, s);
      if Passes(filter, all[n - 1].1, s) {
        picks := picks + [n - 1];
      }
    }
  }

  ghost predicate HasColumn(s: Schema, name: Key) {
    exists i :: 0 <= i < |s.columns| && s.columns[i].name == name
  }

  /** By the column at `i`, upwards or downwards. */
  ghost predicate InDirection(rows: seq<Row>, i: nat, ascending: bool)
    requires forall j :: 0 <= j < |rows| ==> i < |rows[j]|
  {
    forall j, k :: 0 <= j < k < |rows| ==>
      if ascending then AtMost(rows[j][i], rows[k][i]) else AtMost(rows[k][i], rows[j][i])
  }

  /** The rows in the order asked for, ties as they were. */
  ghost predicate OrderedBy(kept: seq<Row>, sorted: seq<Row>, orderBy: Option<(Key, bool)>, s: Schema)
    requires Wide(kept, |s.columns|)
  {
    match orderBy
    case None => sorted == kept
    case Some((name, ascending)) =>
      && |sorted| == |kept| && Wide(sorted, |s.columns|)
      && exists i :: 0 <= i < |s.columns| && s.columns[i].name == name && InDirection(sorted, i, ascending)
           && forall y: Row :: |y| == |s.columns| ==> TiedWith(sorted, y, i) == TiedWith(kept, y, i)
  }

  /** The first rows up to the limit, with the columns asked for under their names. */
  ghost predicate ShownAs(sorted: seq<Row>, q: Select, s: Schema, names: seq<Key>, out: seq<Row>)
    requires Wide(sorted, |s.columns|)
  {
    && |out| == (if q.limit.Some? && q.limit.value <= |sorted| then q.limit.value else |sorted|)
    && match q.projection
       case All =>
         && |names| == |s.columns| && (forall j :: 0 <= j < |names| ==> names[j] == s.columns[j].name)
         && out == sorted[..|out|]
       case Columns(asked) =>
         names == asked && forall k :: 0 <= k < |out| ==> |out[k]| == |asked| && Cells(out[k], sorted[k], asked, s)
  }

  /** Every cell is the row's value in the column asked for. */
  ghost predicate Cells(out: Row, row: Row, asked: seq<Key>, s: Schema)
    requires |out| == |asked| && |row| == |s.columns|
  {
    forall j, i :: 0 <= j < |asked| && 0 <= i < |s.columns| && s.columns[i].name == asked[j] ==> out[j] == row[i]
  }

  ghost predicate UnknownColumn(q: Select, s: Schema) {
    || (q.orderBy.Some? && !HasColumn(s, q.orderBy.value.0))
    || (q.projection.Columns? && exists j :: 0 <= j < |q.projection.names| && !HasColumn(s, q.projection.names[j]))
  }

  lemma {:induction false} IndexesExact(s: Schema, names: seq<Key>, k: nat)
    requires Validated(s) && k <= |names|
    ensures IndexesTo(s, names, k).None? <==> exists j :: 0 <= j < k && !HasColumn(s, names[j])
    ensures IndexesTo(s, names, k).Some? ==>
      forall j :: 0 <= j < k ==> s.columns[IndexesTo(s, names, k).value[j]].name == names[j]
  {
    hide Validated, ColumnIndex;
    if k > 0 {
      IndexesExact(s, names, k - 1);
      ColumnKnown(s, names[k - 1]);
    }
  }

  lemma ColumnKnown(s: Schema, name: Key)
    requires Validated(s)
    ensures ColumnIndex(s, name).Some? <==> HasColumn(s, name)
    ensures ColumnIndex(s, name).Some? ==>
      ColumnIndex(s, name).value < |s.columns| && s.columns[ColumnIndex(s, name).value].name == name
  {
    hide PrimaryCount;
  }

  lemma OrderExact(kept: seq<Row>, q: Select, s: Schema)
    requires Validated(s) && Wide(kept, |s.columns|)
    ensures InOrderOf(kept, q.orderBy, s).None? <==> q.orderBy.Some? && !HasColumn(s, q.orderBy.value.0)
    ensures InOrderOf(kept, q.orderBy, s).Some? ==>
      var sorted := InOrderOf(kept, q.orderBy, s).value;
      Wide(sorted, |s.columns|) && OrderedBy(kept, sorted, q.orderBy, s)
  {
    hide Validated, ColumnIndex, Sort, TiedWith, AtMost;
    if q.orderBy.Some? {
      ColumnKnown(s, q.orderBy.value.0);
      if HasColumn(s, q.orderBy.value.0) {
        var i := ColumnIndex(s, q.orderBy.value.0).value;
        SortIsStable(kept, i, |s.columns|, q.orderBy.value.1);
        var sorted := Sort(kept, i, |s.columns|, q.orderBy.value.1);
        assert forall j, k :: 0 <= j < k < |sorted| ==> MayPrecede(sorted[j], sorted[k], i, q.orderBy.value.1);
        assert InDirection(sorted, i, q.orderBy.value.1);
      }
    }
  }

  /** What SELECT makes of the rows it keeps. */
  lemma PresentedExact(kept: seq<Row>, q: Select, s: Schema)
    requires Validated(s) && Wide(kept, |s.columns|)
    ensures Presented(kept, q, s).None? <==> UnknownColumn(q, s)
    ensures Presented(kept, q, s).Some? ==>
      var (names, out) := Presented(kept, q, s).value;
      exists sorted :: Wide(sorted, |s.columns|) && OrderedBy(kept, sorted, q.orderBy, s)
        && ShownAs(sorted, q, s, names, out)
  {
    hide Validated, InOrderOf, OrderedBy, IndexesTo, HasColumn;
    OrderExact(kept, q, s);
    if q.projection.Columns? {
      IndexesExact(s, q.projection.names, |q.projection.names|);
    }
    if Presented(kept, q, s).Some? {
      var (names, out) := Presented(kept, q, s).value;
      var sorted := InOrderOf(kept, q.orderBy, s).value;
      ShownExact(sorted, q, s, names, out);
      assert OrderedBy(kept, sorted, q.orderBy, s) && ShownAs(sorted, q, s, names, out);
    }
  }

  lemma ShownExact(sorted: seq<Row>, q: Select, s: Schema, names: seq<Key>, out: seq<Row>)
    requires Validated(s) && Wide(sorted, |s.columns|)
    requires match q.projection
      case All => names == NamesOf(s) && out == Limited(sorted, q.limit)
      case Columns(asked) =>
        && names == asked && IndexesTo(s, asked, |asked|).Some?
        && out == ProjectedAll(Limited(sorted, q.limit), IndexesTo(s, asked, |asked|).value, |s.columns|)
    ensures ShownAs(sorted, q, s, names, out)
  {
    hide PrimaryCount, IndexesTo;
    if q.projection.Columns? {
      var asked := q.projection.names;
      IndexesExact(s, asked, |asked|);
      var indexes := IndexesTo(s, asked, |asked|).value;
      forall k | 0 <= k < |out|
        ensures |out[k]| == |asked| && Cells(out[k], sorted[k], asked, s)
      {
        assert out[k] == Projected(sorted[k], indexes);
      }
    }
  }

  /** SELECT's answer by a full scan. */
  ghost function Answer(list: seq<(Key, Key)>, q: Select, s: Schema): Option<(seq<Key>, seq<Row>)> {
    match Scanned(list, q.filter, s)
    case None => None
    case Some(rows) => ScannedWide(list, q.filter, s); Presented(rows, q, s)
  }

  /** The names and rows are those SELECT promises for a table. */
  ghost predicate IsAnswer(kv: Data, q: Select, s: Schema, names: seq<Key>, out: seq<Row>)
    requires Validated(s)
  {
    exists all, picks, kept, sorted ::
      && RowsOf(all, kv, s) && Fitting(all, s) && Picks(all, picks, kept, q.filter, s, |all|)
      && Wide(kept, |s.columns|) && OrderedBy(kept, sorted, q.orderBy, s)
      && Wide(sorted, |s.columns|) && ShownAs(sorted, q, s, names, out)
  }

  /** SELECT has to fail: the filter has no value on some row, or a column is unknown. */
  ghost predicate MustFail(kv: Data, q: Select, s: Schema)
    requires Validated(s)
  {
    || UnknownColumn(q, s)
    || exists k, row :: RowPresent(k, row, kv, s) && Senseless(q.filter, row, s)
  }

  /** The scan gives exactly the answer SELECT promises, and fails exactly when it has to. */
  lemma AnswerExact(list: seq<(Key, Key)>, kv: Data, q: Select, s: Schema)
    requires Validated(s) && TableOk(kv, s) && Lists(list, kv, RowPrefix(s.name))
    ensures Answer(list, q, s).None? <==> MustFail(kv, q, s)
    ensures Answer(list, q, s).Some? ==> IsAnswer(kv, q, s, Answer(list, q, s).value.0, Answer(list, q, s).value.1)
  {
    hide Validated, TableOk, Lists, RowPrefix, RowsTo, RowsOf, FilteredTo, Presented, Picks, OrderedBy, ShownAs;
    hide UnknownColumn, Senseless, RowPresent;
    AllRowsRead(list, kv, s);
    var all := RowsTo(list, s, |list|).value;
    RowsFit(all, kv, s);
    var picks := FilterExact(all, q.filter, s, |all|);
    SenselessRow(all, kv, q.filter, s);
    if Scanned(list, q.filter, s).Some? {
      ScannedWide(list, q.filter, s);
      var kept := Scanned(list, q.filter, s).value;
      PresentedExact(kept, q, s);
    }
  }

  lemma SenselessRow(all: seq<(Key, Row)>, kv: Data, filter: Option<Expr>, s: Schema)
    requires Validated(s) && RowsOf(all, kv, s) && Fitting(all, s)
    ensures (exists i :: 0 <= i < |all| && Senseless(filter, all[i].1, s))
      <==> exists k, row :: RowPresent(k, row, kv, s) && Senseless(filter, row, s)
  {
    hide Validated, Senseless, RowKey, EncodedRow, RowPrefix, Less;
    if i :| 0 <= i < |all| && Senseless(filter, all[i].1, s) {
      assert RowPresent(all[i].0, all[i].1, kv, s);
    }
    if k, row :| RowPresent(k, row, kv, s) && Senseless(filter, row, s) {
      var i := RowListed(all, kv, s, k, row);
    }
  }

  lemma RowListed(all: seq<(Key, Row)>, kv: Data, s: Schema, k: Key, row: Row) returns (i: nat)
    requires Validated(s) && RowsOf(all, kv, s) && RowPresent(k, row, kv, s)
    ensures i < |all| && all[i] == (k, row)
  {
    hide Validated, RowKey, RowPrefix, Less, DecodedRow, EncodedRow;
    assert k in TableKeys(kv, s);
    i :| 0 <= i < |all| && all[i].0 == k;
    assert RowPresent(all[i].0, all[i].1, kv, s);
    PrimaryPresent(k, row, kv, s);
    PrimaryPresent(k, all[i].1, kv, s);
  }

  // ----- Plans -----

  /** The plan looks a key up exactly for a filter that compares the primary column with a literal. */
  lemma PlanExact(filter: Option<Expr>, s: Schema, v: Value)
    requires Validated(s)
    ensures PlanFor(filter, s) == PrimaryKey(v) <==>
      exists i :: 0 <= i < |s.columns| && s.columns[i].primaryKey && (
        || filter == Some(Binary(Eq, Column(s.columns[i].name), Literal(v)))
        || filter == Some(Binary(Eq, Literal(v), Column(s.columns[i].name))))
  {
    hide PrimaryIndex, PrimaryCount;
    PrimaryFound(s);
    forall i | 0 <= i < |s.columns| && s.columns[i].primaryKey
      ensures i == PrimaryIndex(s)
    {
      OnlyPrimary(s.columns, i, PrimaryIndex(s));
    }
  }

  lemma {:induction false} OnlyPrimary(columns: seq<ColumnDef>, i: nat, j: nat)
    requires i < |columns| && j < |columns| && columns[i].primaryKey && columns[j].primaryKey
    requires PrimaryCount(columns) <= 1
    ensures i == j
  {
    var front := columns[..|columns| - 1];
    if i < |front| && j < |front| {
      OnlyPrimary(front, i, j);
    } else if i < |front| {
      PrimaryCounted(front, i);
    } else if j < |front| {
      PrimaryCounted(front, j);
    }
  }

  lemma {:induction false} PrimaryCounted(columns: seq<ColumnDef>, i: nat)
    requires i < |columns| && columns[i].primaryKey
    ensures PrimaryCount(columns) > 0
  {
    if i < |columns| - 1 {
      PrimaryCounted(columns[..|columns| - 1], i);
    }
  }

  // ----- INSERT -----

  /** Every name is a column that takes its value. */
  ghost predicate Takeable(s: Schema, name: Key, v: Value) {
    exists i :: 0 <= i < |s.columns| && s.columns[i].name == name && HasType(v, s.columns[i].dataType)
  }

  ghost predicate Insertable(s: Schema, columns: seq<Key>, values: seq<Value>, n: nat)
    requires n <= |columns| == |values|
  {
    && (forall j :: 0 <= j < n ==> Takeable(s, columns[j], values[j]))
    && (forall j, k :: 0 <= j < k < n ==> columns[j] != columns[k])
  }

  lemma {:induction false} RowToExact(s: Schema, columns: seq<Key>, values: seq<Value>, n: nat)
    requires Validated(s) && n <= |columns| == |values|
    ensures RowTo(s, columns, values, n).Some? <==> Insertable(s, columns, values, n)
  {
    hide Validated, ColumnIndex, HasType, Insertable, Takeable;
    if n == 0 {
      NothingNamed(s, columns, values);
    } else {
      RowToExact(s, columns, values, n - 1);
      TakeableExact(s, columns[n - 1], values[n - 1]);
      OneNamed(s, columns, values, n);
    }
  }

  lemma NothingNamed(s: Schema, columns: seq<Key>, values: seq<Value>)
    requires |columns| == |values|
    ensures Insertable(s, columns, values, 0)
  {
  }

  lemma OneNamed(s: Schema, columns: seq<Key>, values: seq<Value>, n: nat)
    requires 0 < n <= |columns| == |values|
    ensures Insertable(s, columns, values, n) <==>
      && Insertable(s, columns, values, n - 1) && Takeable(s, columns[n - 1], values[n - 1])
      && columns[n - 1] !in columns[..n - 1]
  {
    hide Takeable;
    if columns[n - 1] in columns[..n - 1] {
      var j :| 0 <= j < n - 1 && columns[j] == columns[n - 1];
    } else {
      assert forall j :: 0 <= j < n - 1 ==> columns[j] in columns[..n - 1];
    }
  }

  lemma TakeableExact(s: Schema, name: Key, v: Value)
    requires Validated(s)
    ensures ColumnIndex(s, name).Some? ==> ColumnIndex(s, name).value < |s.columns|
    ensures Takeable(s, name, v) <==>
      ColumnIndex(s, name).Some? && HasType(v, s.columns[ColumnIndex(s, name).value].dataType)
  {
    hide PrimaryCount, HasType;
  }

  /** The row an INSERT is to store. */
  ghost predicate InsertsRow(kv: Data, s: Schema, columns: seq<Key>, values: seq<Value>, k: Key, row: Row)
    requires Validated(s)
  {
    && |columns| == |values| && Insertable(s, columns, values, |columns|)
    && RowFits(row, s.columns) && Says(row, s, columns, values, |columns|)
    && RowKey(s, row) == Some(k) && k !in kv && Storable(k, EncodedRow(row))
  }

  /** INSERT succeeds exactly if there is a row to store, and stores that row. */
  lemma InsertExact(kv: Data, s: Schema, columns: seq<Key>, values: seq<Value>)
    requires Validated(s) && AllInRange(values)
    ensures Inserted(kv, s, columns, values).failed <==> !exists k, row :: InsertsRow(kv, s, columns, values, k, row)
    ensures forall k, row :: InsertsRow(kv, s, columns, values, k, row) ==>
      Inserted(kv, s, columns, values).kv == kv[k := EncodedRow(row)]
    ensures Inserted(kv, s, columns, values).failed ==> Inserted(kv, s, columns, values).kv == kv
  {
    hide Validated, RowTo, Says, RowKey, EncodedRow, Storable, Insertable, HasType;
    if |columns| == |values| {
      RowToExact(s, columns, values, |columns|);
      if RowTo(s, columns, values, |columns|).Some? {
        var row := RowTo(s, columns, values, |columns|).value;
        RowBuilt(s, columns, values, |columns|);
        forall k, other | InsertsRow(kv, s, columns, values, k, other)
          ensures other == row
        {
          SaysOne(s, columns, values, row, other);
        }
        if !Inserted(kv, s, columns, values).failed {
          assert InsertsRow(kv, s, columns, values, RowKey(s, row).value, row);
        }
      }
    }
  }

  lemma SaysOne(s: Schema, columns: seq<Key>, values: seq<Value>, row: Row, other: Row)
    requires |columns| == |values| && |row| == |other| == |s.columns|
    requires Says(row, s, columns, values, |columns|) && Says(other, s, columns, values, |columns|)
    ensures row == other
  {
    assert columns[..|columns|] == columns;
    forall i | 0 <= i < |row|
      ensures row[i] == other[i]
    {
      if s.columns[i].name in columns {
        var j :| 0 <= j < |columns| && columns[j] == s.columns[i].name;
      }
    }
  }

  // ----- UPDATE -----

  /** No assignment from `m` on names the column. */
  ghost predicate Unnamed(a: Assignments, n: nat, m: nat, name: Key)
    requires n <= |a|
  {
    forall l :: m <= l < n ==> a[l].0 != name
  }

  /** Every column has the value of the last of the first `n` assignments that names it, or its old one. */
  ghost predicate Assigns(before: Row, after: Row, a: Assignments, s: Schema, n: nat)
    requires n <= |a|
  {
    && |before| == |after| == |s.columns|
    && (forall i :: 0 <= i < |after| && Unnamed(a, n, 0, s.columns[i].name) ==> after[i] == before[i])
    && (forall i, m ::
          (0 <= i < |after| && 0 <= m < n && a[m].0 == s.columns[i].name && Unnamed(a, n, m + 1, s.columns[i].name)) ==>
            after[i] == a[m].1)
  }

  ghost predicate Assignable(a: Assignments, s: Schema, n: nat)
    requires n <= |a|
  {
    forall m :: 0 <= m < n ==> Takeable(s, a[m].0, a[m].1)
  }

  lemma {:induction false} AssignedExact(row: Row, a: Assignments, s: Schema, n: nat)
    requires Validated(s) && n <= |a| && |row| == |s.columns|
    ensures AssignedTo(row, a, s, n).Some? <==> Assignable(a, s, n)
    ensures AssignedTo(row, a, s, n).Some? ==> Assigns(row, AssignedTo(row, a, s, n).value, a, s, n)
  {
    hide Validated, ColumnIndex, HasType, Assigns, Takeable;
    if n == 0 {
      NothingAssigned(row, a, s);
    } else {
      AssignedExact(row, a, s, n - 1);
      TakeableExact(s, a[n - 1].0, a[n - 1].1);
      if AssignedTo(row, a, s, n).Some? {
        NameAt(s, a[n - 1].0);
        var before := AssignedTo(row, a, s, n - 1).value;
        OneAssigned(row, before, a, s, n, ColumnIndex(s, a[n - 1].0).value);
      }
    }
  }

  lemma NothingAssigned(row: Row, a: Assignments, s: Schema)
    requires |row| == |s.columns|
    ensures Assigns(row, row, a, s, 0)
  {
  }

  lemma OneAssigned(row: Row, before: Row, a: Assignments, s: Schema, n: nat, i: nat)
    requires Validated(s) && 0 < n <= |a| && Assigns(row, before, a, s, n - 1)
    requires i < |s.columns| && s.columns[i].name == a[n - 1].0
    ensures Assigns(row, before[i := a[n - 1].1], a, s, n)
  {
    hide PrimaryCount;
    var after := before[i := a[n - 1].1];
    forall j | 0 <= j < |after| && Unnamed(a, n, 0, s.columns[j].name)
      ensures after[j] == row[j]
    {
      assert a[n - 1].0 != s.columns[j].name;
      assert Unnamed(a, n - 1, 0, s.columns[j].name);
    }
    forall j, m | 0 <= j < |after| && 0 <= m < n && a[m].0 == s.columns[j].name
      && Unnamed(a, n, m + 1, s.columns[j].name)
      ensures after[j] == a[m].1
    {
      if m < n - 1 {
        assert a[n - 1].0 != s.columns[j].name;
        assert Unnamed(a, n - 1, m + 1, s.columns[j].name);
      }
    }
  }

  /** The row becomes `next`, which fits and has a key. */
  ghost predicate Rewritten(row: Row, next: Row, a: Assignments, s: Schema)
    requires Validated(s)
  {
    RowFits(next, s.columns) && Assigns(row, next, a, s, |a|) && RowKey(s, next).Some?
  }

  /** What UPDATE means for one row, error cases included. */
  lemma FateExact(row: Row, filter: Option<Expr>, a: Assignments, s: Schema)
    requires Validated(s) && RowFits(row, s.columns) && AssignmentsInRange(a)
    ensures var f := FateOf(row, filter, a, s);
      && (f.Untouched? <==> !Senseless(filter, row, s) && !Passes(filter, row, s))
      && (f.Moves? <==> Passes(filter, row, s) && Assignable(a, s, |a|) && exists next :: Rewritten(row, next, a, s))
      && (forall next :: f.Moves? && Rewritten(row, next, a, s) ==>
            f.key == RowKey(s, next).value && f.text == EncodedRow(next))
  {
    hide Validated, Matches, Passes, Senseless, RowKey, EncodedRow, Assigns, Assignable, RowFits;
    RowWide(row, s);
    MatchesExact(filter, row, s);
    OnePasses(filter, row, s);
    AssignedExact(row, a, s, |a|);
    if AssignedTo(row, a, s, |a|).Some? {
      AssignedFits(row, a, s, |a|);
      var next := AssignedTo(row, a, s, |a|).value;
      forall other | Rewritten(row, other, a, s)
        ensures other == next
      {
        AssignsOne(row, other, next, a, s);
      }
      assert RowKey(s, next).Some? ==> Rewritten(row, next, a, s);
    }
  }

  lemma RowWide(row: Row, s: Schema)
    requires RowFits(row, s.columns)
    ensures |row| == |s.columns|
  {
  }

  /** A filter that is true of a row has a value there. */
  lemma OnePasses(filter: Option<Expr>, row: Row, s: Schema)
    requires |row| == |s.columns|
    ensures Passes(filter, row, s) ==> !Senseless(filter, row, s)
  {
  }

  lemma AssignsOne(row: Row, x: Row, y: Row, a: Assignments, s: Schema)
    requires Assigns(row, x, a, s, |a|) && Assigns(row, y, a, s, |a|)
    ensures x == y
  {
    forall i | 0 <= i < |x|
      ensures x[i] == y[i]
    {
      if !Unnamed(a, |a|, 0, s.columns[i].name) {
        var m := LastNamed(a, |a|, s.columns[i].name);
      }
    }
  }

  lemma {:induction false} LastNamed(a: Assignments, n: nat, name: Key) returns (m: nat)
    requires n <= |a| && !Unnamed(a, n, 0, name)
    ensures m < n && a[m].0 == name && Unnamed(a, n, m + 1, name)
  {
    if a[n - 1].0 == name {
      m := n - 1;
    } else {
      m := LastNamed(a, n - 1, name);
    }
  }

  /** One row of the table after a successful UPDATE. */
  ghost predicate Became(now: Data, k: Key, row: Row, filter: Option<Expr>, a: Assignments, s: Schema)
    requires Validated(s) && |row| == |s.columns|
  {
    if Passes(filter, row, s) then
      exists next :: Rewritten(row, next, a, s) && RowPresent(RowKey(s, next).value, next, now, s)
    else RowPresent(k, row, now, s)
  }

  /** An entry of the table after an UPDATE that one of its rows became. */
  ghost predicate Origin(fates: Fates, n: nat, k: Key)
    requires n <= |fates|
  {
    exists j :: 0 <= j < |fates| && Whereabouts(fates, n, j) == k
  }

  /** Where a row is after the first `n` turns. */
  ghost function Whereabouts(fates: Fates, n: nat, j: nat): Key
    requires n <= |fates| && j < |fates|
  {
    if j < n && fates[j].1.Moves? then fates[j].1.key else fates[j].0
  }

  /** UPDATE brings nothing into the table but its own rows. */
  lemma {:induction false} NothingElse(kv: Data, fates: Fates, s: Schema, n: nat, k: Key)
    requires Validated(s) && FatesOk(fates, kv, s) && n <= |fates| && !MovedTo(kv, fates, n).failed
    requires forall j :: j in TableKeys(kv, s) ==> exists i :: 0 <= i < |fates| && fates[i].0 == j
    requires k in TableKeys(MovedTo(kv, fates, n).kv, s)
    ensures Origin(fates, n, k)
  {
    hide Validated, RowPrefix, FatesOk, Storable, Deletable;
    if n == 0 {
      var j :| 0 <= j < |fates| && fates[j].0 == k;
      assert Whereabouts(fates, n, j) == k;
    } else {
      var now := MovedTo(kv, fates, n - 1).kv;
      var (key, f) := fates[n - 1];
      if f.Moves? && k == f.key {
        assert Whereabouts(fates, n, n - 1) == k;
      } else {
        assert k in TableKeys(now, s);
        NothingElse(kv, fates, s, n - 1, k);
        var j :| 0 <= j < |fates| && Whereabouts(fates, n - 1, j) == k;
        assert Whereabouts(fates, n, j) == k;
      }
    }
  }

  /**
   * What a successful UPDATE makes of a table: every row the filter is true of has its assigned
   * values under its own new key, every other row is as it was, and nothing else is there.
   */
  ghost predicate UpdateMeans(
    kv: Data, now: Data, rows: seq<(Key, Row)>, filter: Option<Expr>, a: Assignments, s: Schema)
    requires Validated(s) && Fitting(rows, s)
  {
    && (forall j :: 0 <= j < |rows| ==> Became(now, rows[j].0, rows[j].1, filter, a, s))
    && |TableKeys(now, s)| == |TableKeys(kv, s)|
    && (forall k :: k in TableKeys(now, s) ==> exists j :: 0 <= j < |rows| && CameFrom(k, rows[j], filter, a, s))
  }

  /** The key is that of this row, or of what the assignments made of it. */
  ghost predicate CameFrom(k: Key, source: (Key, Row), filter: Option<Expr>, a: Assignments, s: Schema)
    requires Validated(s) && |source.1| == |s.columns|
  {
    if Passes(filter, source.1, s) then exists next :: Rewritten(source.1, next, a, s) && RowKey(s, next) == Some(k)
    else k == source.0
  }

  lemma UpdateMeaning(kv: Data, rows: seq<(Key, Row)>, filter: Option<Expr>, a: Assignments, s: Schema)
    requires Validated(s) && TableOk(kv, s) && AssignmentsInRange(a) && RowsOf(rows, kv, s)
    requires forall i :: 0 <= i < |rows| ==> RowFits(rows[i].1, s.columns)
    requires !MovedTo(kv, FatesOf(rows, filter, a, s), |rows|).failed
    ensures Fitting(rows, s)
    ensures UpdateMeans(kv, MovedTo(kv, FatesOf(rows, filter, a, s), |rows|).kv, rows, filter, a, s)
  {
    hide Validated, TableOk, RowsOf, RowFits, MovedTo, FateOf, Became, CameFrom, TableKeys, SqlChanges.Settled, FatesOk;
    RowsFates(rows, kv, filter, a, s);
    RowsFit(rows, kv, s);
    var fates := FatesOf(rows, filter, a, s);
    var now := MovedTo(kv, fates, |fates|).kv;
    UpdateExact(kv, fates, s);
    forall j | 0 <= j < |rows|
      ensures Became(now, rows[j].0, rows[j].1, filter, a, s)
    {
      assert fates[j] == (rows[j].0, FateOf(rows[j].1, filter, a, s));
      assert SqlChanges.Settled(kv, now, fates[j].0, fates[j].1);
      RowBecame(kv, now, rows, j, filter, a, s);
    }
    forall k | k in TableKeys(now, s)
      ensures exists j :: 0 <= j < |rows| && CameFrom(k, rows[j], filter, a, s)
    {
      RowsAll(rows, kv, s, fates);
      NothingElse(kv, fates, s, |fates|, k);
      var j :| 0 <= j < |fates| && Whereabouts(fates, |fates|, j) == k;
      assert fates[j] == (rows[j].0, FateOf(rows[j].1, filter, a, s));
      SettledWell(kv, now, fates[j].0, fates[j].1);
      RowCame(rows[j], filter, a, s, k);
    }
  }

  lemma RowsAll(rows: seq<(Key, Row)>, kv: Data, s: Schema, fates: Fates)
    requires Validated(s) && RowsOf(rows, kv, s) && |fates| == |rows|
    requires forall i :: 0 <= i < |rows| ==> fates[i].0 == rows[i].0
    ensures forall j :: j in TableKeys(kv, s) ==> exists i :: 0 <= i < |fates| && fates[i].0 == j
  {
    hide Validated, RowPresent, Less, TableKeys;
    forall k | k in TableKeys(kv, s)
      ensures exists i :: 0 <= i < |fates| && fates[i].0 == k
    {
      assert HasKey(rows, k);
      var i :| 0 <= i < |rows| && rows[i].0 == k;
      assert fates[i].0 == k;
    }
  }

  lemma RowBecame(kv: Data, now: Data, rows: seq<(Key, Row)>, j: nat, filter: Option<Expr>, a: Assignments, s: Schema)
    requires Validated(s) && AssignmentsInRange(a) && RowsOf(rows, kv, s) && j < |rows|
    requires RowFits(rows[j].1, s.columns)
    requires SqlChanges.Settled(kv, now, rows[j].0, FateOf(rows[j].1, filter, a, s))
    ensures Became(now, rows[j].0, rows[j].1, filter, a, s)
  {
    hide Validated, RowFits, FateOf, Passes, Senseless, Assigns, Assignable, RowKey, EncodedRow, RowPrefix, Less;
    var (k, row) := rows[j];
    RowWide(row, s);
    assert RowPresent(k, row, kv, s);
    FateExact(row, filter, a, s);
    var f := FateOf(row, filter, a, s);
    if f.Moves? {
      var next :| Rewritten(row, next, a, s);
      OwnKey(s, next);
      assert RowPresent(RowKey(s, next).value, next, now, s);
    }
  }

  lemma SettledWell(kv: Data, now: Data, key: Key, f: Fate)
    requires SqlChanges.Settled(kv, now, key, f)
    ensures !f.Errs?
  {
  }

  lemma RowCame(source: (Key, Row), filter: Option<Expr>, a: Assignments, s: Schema, k: Key)
    requires Validated(s) && AssignmentsInRange(a) && RowFits(source.1, s.columns) && |source.1| == |s.columns|
    requires var f := FateOf(source.1, filter, a, s);
      !f.Errs? && k == if f.Moves? then f.key else source.0
    ensures CameFrom(k, source, filter, a, s)
  {
    hide Validated, RowFits, FateOf, Passes, Senseless, Assigns, Assignable, RowKey, EncodedRow;
    var row := source.1;
    FateExact(row, filter, a, s);
    if FateOf(row, filter, a, s).Moves? {
      var next :| Rewritten(row, next, a, s);
    }
  }

  /** The new keys of an UPDATE are free and its new rows fit the log. */
  ghost predicate Unhindered(kv: Data, fates: Fates) {
    forall i :: 0 <= i < |fates| ==>
      && !fates[i].1.Errs?
      && (fates[i].1.Moves? ==>
            && Storable(fates[i].1.key, fates[i].1.text) && Deletable(fates[i].0)
            && (fates[i].1.key != fates[i].0 ==> fates[i].1.key !in kv && NewAlone(fates, i)))
  }

  ghost predicate NewAlone(fates: Fates, i: nat)
    requires i < |fates| && fates[i].1.Moves?
  {
    forall j :: 0 <= j < |fates| && j != i && fates[j].1.Moves? ==> fates[j].1.key != fates[i].1.key
  }

  /** Then it succeeds. */
  lemma {:induction false} UpdateSucceeds(kv: Data, fates: Fates, n: nat)
    requires Unhindered(kv, fates) && n <= |fates|
    ensures !MovedTo(kv, fates, n).failed
    ensures forall k :: k in MovedTo(kv, fates, n).kv ==>
      k in kv || exists j :: 0 <= j < n && fates[j].1.Moves? && fates[j].1.key == k
  {
    hide Storable, Deletable;
    if n > 0 {
      UpdateSucceeds(kv, fates, n - 1);
      var (key, f) := fates[n - 1];
      assert f.Moves? && f.key != key ==> NewAlone(fates, n - 1);
    }
  }

  // ----- DELETE -----

  /** The filter has no value on the row, or the log refuses its key. */
  ghost predicate Refusing(verdict: (Key, Option<bool>)) {
    verdict.1.None? || (verdict.1 == Some(true) && !Deletable(verdict.0))
  }

  /** DELETE fails exactly over a row the filter has no value on, or a key the log refuses. */
  lemma {:induction false} DeleteFails(kv: Data, verdicts: Verdicts, n: nat)
    requires n <= |verdicts|
    ensures DroppedTo(kv, verdicts, n).failed <==> exists i :: 0 <= i < n && Refusing(verdicts[i])
  {
    hide Deletable;
    if n > 0 {
      DeleteFails(kv, verdicts, n - 1);
    }
  }

  /** What a successful DELETE makes of a table: exactly the rows the filter is true of are gone. */
  ghost predicate DeleteMeans(kv: Data, now: Data, rows: seq<(Key, Row)>, filter: Option<Expr>, s: Schema)
    requires Validated(s) && Fitting(rows, s)
  {
    && (forall j :: 0 <= j < |rows| ==> (rows[j].0 in now <==> !Passes(filter, rows[j].1, s)))
    && (forall k :: k in now ==> k in kv && now[k] == kv[k])
    && (forall k :: k in kv && k !in now ==> HasKey(rows, k))
  }

  lemma DeleteMeaning(kv: Data, rows: seq<(Key, Row)>, filter: Option<Expr>, s: Schema)
    requires Validated(s) && TableOk(kv, s) && RowsOf(rows, kv, s) && Fitting(rows, s)
    requires !DroppedTo(kv, VerdictsOf(rows, filter, s), |rows|).failed
    ensures DeleteMeans(kv, DroppedTo(kv, VerdictsOf(rows, filter, s), |rows|).kv, rows, filter, s)
  {
    hide Validated, TableOk, Matches, Passes, Senseless, DroppedTo, Going, RowsOf, Deletable;
    var verdicts := VerdictsOf(rows, filter, s);
    DeleteExact(kv, verdicts, s, |rows|);
    DeleteFails(kv, verdicts, |rows|);
    RowsPresent(rows, kv, s);
    forall j | 0 <= j < |rows|
      ensures rows[j].0 in kv && (rows[j].0 in Going(verdicts, |rows|) <==> Passes(filter, rows[j].1, s))
    {
      MatchesExact(filter, rows[j].1, s);
      assert verdicts[j] == (rows[j].0, Matches(filter, rows[j].1, s));
      assert !Refusing(verdicts[j]);
      GoingExact(rows, kv, s, verdicts, j);
    }
    GoingRows(rows, verdicts);
  }

  lemma GoingExact(rows: seq<(Key, Row)>, kv: Data, s: Schema, verdicts: Verdicts, j: nat)
    requires Validated(s) && RowsOf(rows, kv, s) && |verdicts| == |rows| && j < |rows|
    requires forall i :: 0 <= i < |rows| ==> verdicts[i].0 == rows[i].0
    ensures rows[j].0 in Going(verdicts, |rows|) <==> verdicts[j].1 == Some(true)
  {
    hide Validated, RowPresent, Less, TableKeys, HasKey;
    forall i | 0 <= i < |rows| && i != j
      ensures rows[i].0 != rows[j].0
    {
      LessIrreflexive(rows[i].0);
    }
  }

  lemma GoingRows(rows: seq<(Key, Row)>, verdicts: Verdicts)
    requires |verdicts| == |rows| && forall i :: 0 <= i < |rows| ==> verdicts[i].0 == rows[i].0
    ensures forall k :: k in Going(verdicts, |rows|) ==> HasKey(rows, k)
  {
    forall k | k in Going(verdicts, |rows|)
      ensures HasKey(rows, k)
    {
      var i :| 0 <= i < |rows| && verdicts[i].0 == k;
      assert rows[i].0 == k;
    }
  }

  // ----- How many rows -----

  /** Which of the first `n` rows the filter is true of. */
  ghost function Passing(rows: seq<(Key, Row)>, filter: Option<Expr>, s: Schema, n: nat): set<nat>
    requires n <= |rows| && Fitting(rows, s)
  {
    set i: nat | i < n && Passes(filter, rows[i].1, s)
  }

  lemma PassingMore(rows: seq<(Key, Row)>, filter: Option<Expr>, s: Schema, n: nat)
    requires 0 < n <= |rows| && Fitting(rows, s)
    ensures |Passing(rows, filter, s, n)|
      == |Passing(rows, filter, s, n - 1)| + (if Passes(filter, rows[n - 1].1, s) then 1 else 0)
  {
    hide Passes;
    var before, now := Passing(rows, filter, s, n - 1), Passing(rows, filter, s, n);
    if Passes(filter, rows[n - 1].1, s) {
      assert now == before + {n - 1};
    } else {
      assert now == before;
    }
  }

  /** UPDATE counts the rows the filter is true of. */
  lemma {:induction false} MoversPass(rows: seq<(Key, Row)>, filter: Option<Expr>, a: Assignments, s: Schema, n: nat)
    requires Validated(s) && AssignmentsInRange(a) && Fitting(rows, s) && n <= |rows|
    requires forall i :: 0 <= i < |rows| ==> RowFits(rows[i].1, s.columns)
    requires forall i :: 0 <= i < n ==> !FateOf(rows[i].1, filter, a, s).Errs?
    ensures Movers(FatesOf(rows, filter, a, s), n) == |Passing(rows, filter, s, n)|
  {
    hide Validated, RowFits, FateOf, Passes, Passing, Senseless, Assignable, Rewritten;
    if n == 0 {
      assert Passing(rows, filter, s, 0) == {} by {
        NonePassing(rows, filter, s);
      }
    } else {
      MoversPass(rows, filter, a, s, n - 1);
      PassingMore(rows, filter, s, n);
      FateExact(rows[n - 1].1, filter, a, s);
      OnePasses(filter, rows[n - 1].1, s);
      var fates := FatesOf(rows, filter, a, s);
      assert fates[n - 1] == (rows[n - 1].0, FateOf(rows[n - 1].1, filter, a, s));
    }
  }

  lemma NonePassing(rows: seq<(Key, Row)>, filter: Option<Expr>, s: Schema)
    requires Fitting(rows, s)
    ensures Passing(rows, filter, s, 0) == {}
  {
  }

  /** So does DELETE. */
  lemma {:induction false} SelectedPass(rows: seq<(Key, Row)>, filter: Option<Expr>, s: Schema, n: nat)
    requires Validated(s) && Fitting(rows, s) && n <= |rows|
    ensures Selected(VerdictsOf(rows, filter, s), n) == |Passing(rows, filter, s, n)|
  {
    hide Validated, Passes, Passing, Senseless, Matches;
    if n == 0 {
      NonePassing(rows, filter, s);
    } else {
      SelectedPass(rows, filter, s, n - 1);
      PassingMore(rows, filter, s, n);
      MatchesExact(filter, rows[n - 1].1, s);
      OnePasses(filter, rows[n - 1].1, s);
      var verdicts := VerdictsOf(rows, filter, s);
      assert verdicts[n - 1] == (rows[n - 1].0, Matches(filter, rows[n - 1].1, s));
    }
  }

  /** A successful UPDATE met no error on any row. */
  lemma {:induction false} NoneErred(kv: Data, fates: Fates, n: nat, i: nat)
    requires i < n <= |fates| && !MovedTo(kv, fates, n).failed
    ensures !fates[i].1.Errs?
  {
    if i < n - 1 {
      NoneErred(kv, fates, n - 1, i);
    }
  }

  /** A successful UPDATE, as a whole: what it makes of the table, and its count. */
  lemma UpdateDone(kv: Data, rows: seq<(Key, Row)>, filter: Option<Expr>, a: Assignments, s: Schema)
    requires Validated(s) && TableOk(kv, s) && AssignmentsInRange(a) && RowsOf(rows, kv, s)
    requires forall i :: 0 <= i < |rows| ==> RowFits(rows[i].1, s.columns)
    requires !MovedTo(kv, FatesOf(rows, filter, a, s), |rows|).failed
    ensures Fitting(rows, s)
    ensures UpdateMeans(kv, MovedTo(kv, FatesOf(rows, filter, a, s), |rows|).kv, rows, filter, a, s)
    ensures Movers(FatesOf(rows, filter, a, s), |rows|) == |Passing(rows, filter, s, |rows|)|
  {
    hide Validated, TableOk, RowsOf, RowFits, MovedTo, FateOf, UpdateMeans, Passing, Movers;
    UpdateMeaning(kv, rows, filter, a, s);
    var fates := FatesOf(rows, filter, a, s);
    forall i | 0 <= i < |rows|
      ensures !FateOf(rows[i].1, filter, a, s).Errs?
    {
      NoneErred(kv, fates, |fates|, i);
      assert fates[i] == (rows[i].0, FateOf(rows[i].1, filter, a, s));
    }
    MoversPass(rows, filter, a, s, |rows|);
  }
}
