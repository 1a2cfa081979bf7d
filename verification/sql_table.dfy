/** Tables in the store, and the access plans of SELECT. */
module SqlTable {
  import opened Bytes
  import opened Keys
  import opened SqlAst
  import opened Catalog
  import opened SqlEval

  /** What a transaction sees of the store. */
  type Data = map<Key, Key>

  // ----- Tables -----

  /** `text` is a row of `s` stored under its own key. */
  ghost predicate RowStored(s: Schema, k: Key, text: Key)
    requires Validated(s)
  {
    exists row :: RowFits(row, s.columns) && RowKey(s, row) == Some(k) && EncodedRow(row) == text
  }

  /** Every entry under the table's prefix is a row stored under its own key. */
  ghost predicate TableOk(kv: Data, s: Schema)
    requires Validated(s)
  {
    forall k :: k in kv && RowPrefix(s.name) <= k ==> RowStored(s, k, kv[k])
  }

  ghost function TableKeys(kv: Data, s: Schema): set<Key> {
    set k | k in kv && RowPrefix(s.name) <= k
  }

  lemma RowKeyUnder(s: Schema, v: Value)
    requires Validated(s) && InRange(v) && KeyForPrimary(s, v).Some?
    ensures RowPrefix(s.name) <= KeyForPrimary(s, v).value
  {
    hide Hex, EncodedValue, Validated;
  }

  /** A stored row reads back as the one row with that key. */
  lemma StoredReads(s: Schema, k: Key, text: Key) returns (row: Row)
    requires Validated(s) && RowStored(s, k, text)
    ensures RowFits(row, s.columns) && RowKey(s, row) == Some(k) && EncodedRow(row) == text
    ensures DecodedRow(text, s) == Some(row)
  {
    hide RowKey, EncodedRow, DecodedRow;
    row :| RowFits(row, s.columns) && RowKey(s, row) == Some(k) && EncodedRow(row) == text;
    RowRoundTrip(row, s);
  }

  // ----- Reading a table -----

  /** `list` is what a prefix scan returns: the sorted entries under the prefix. */
  ghost predicate Lists(list: seq<(Key, Key)>, kv: Data, prefix: Key) {
    && Sorted(list)
    && (forall k, v :: (k, v) in list <==> prefix <= k && k in kv && kv[k] == v)
  }

  /** A scan has a result. */
  lemma SomeList(kv: Data, prefix: Key) returns (list: seq<(Key, Key)>)
    ensures Lists(list, kv, prefix)
  {
    hide Less, Sorted;
    var keys := set k | k in kv && prefix <= k;
    list := ListOf(kv, keys);
  }

  lemma {:induction false} ListOf(kv: Data, keys: set<Key>) returns (list: seq<(Key, Key)>)
    requires keys <= kv.Keys
    ensures Sorted(list) && forall k, v :: (k, v) in list <==> k in keys && kv[k] == v
    decreases |keys|
  {
    hide Less;
    list := [];
    if keys != {} {
      var m := LastKey(keys);
      list := ListOf(kv, keys - {m});
      forall i | 0 <= i < |list|
        ensures Less(list[i].0, m)
      {
        assert (list[i].0, list[i].1) in list;
      }
      list := list + [(m, kv[m])];
    }
  }

  lemma {:induction false} LastKey(keys: set<Key>) returns (m: Key)
    requires keys != {}
    ensures m in keys && forall k :: k in keys && k != m ==> Less(k, m)
    decreases |keys|
  {
    hide Less;
    m :| m in keys;
    var rest := keys - {m};
    if rest != {} {
      var n := LastKey(rest);
      LessTotal(m, n);
      if Less(m, n) {
        m := n;
      } else {
        forall k | k in keys && k != m
          ensures Less(k, m)
        {
          if k != n {
            LessTrans(k, n, m);
          }
        }
      }
    }
  }

  /** A scan has only one result. */
  lemma ListsUnique(list: seq<(Key, Key)>, other: seq<(Key, Key)>, kv: Data, prefix: Key)
    requires Lists(list, kv, prefix) && Lists(other, kv, prefix)
    ensures list == other
  {
    hide Less, ToMap, Sorted;
    ListedMap(list, kv, prefix);
    ListedMap(other, kv, prefix);
    SortedUnique(list, other);
  }

  lemma ListedMap(list: seq<(Key, Key)>, kv: Data, prefix: Key)
    requires Lists(list, kv, prefix)
    ensures ToMap(list) == map k | k in kv && prefix <= k :: kv[k]
  {
    hide Less, ToMap, Sorted;
    forall k: Key
      ensures k in ToMap(list) <==> k in kv && prefix <= k
      ensures k in ToMap(list) ==> ToMap(list)[k] == kv[k]
    {
      ToMapKeys(list, k);
      if HasKey(list, k) {
        var i :| 0 <= i < |list| && list[i].0 == k;
        assert list[i] in list;
        ToMapAt(list, i);
      } else if k in kv && prefix <= k {
        Unlisted(list, k, kv[k]);
      }
    }
  }

  lemma Unlisted(list: seq<(Key, Key)>, k: Key, v: Key)
    requires !HasKey(list, k)
    ensures (k, v) !in list
  {
  }

  function RowsTo(list: seq<(Key, Key)>, s: Schema, n: nat): Option<seq<(Key, Row)>>
    requires n <= |list|
  {
    if n == 0 then Some([])
    else
      match (RowsTo(list, s, n - 1), DecodedRow(list[n - 1].1, s))
      case (Some(rows), Some(row)) => Some(rows + [(list[n - 1].0, row)])
      case _ => None
  }

  /** `rows` are the rows of the table, each with its key, keys increasing. */
  ghost predicate RowsOf(rows: seq<(Key, Row)>, kv: Data, s: Schema)
    requires Validated(s)
  {
    && Sorted(rows)
    && (forall i :: 0 <= i < |rows| ==> RowPresent(rows[i].0, rows[i].1, kv, s))
    && (forall k :: k in TableKeys(kv, s) ==> HasKey(rows, k))
  }

  ghost predicate RowPresent(k: Key, row: Row, kv: Data, s: Schema)
    requires Validated(s)
  {
    && RowFits(row, s.columns) && RowKey(s, row) == Some(k) && k in kv && kv[k] == EncodedRow(row)
    && RowPrefix(s.name) <= k
  }

  lemma {:induction false} RowsRead(list: seq<(Key, Key)>, kv: Data, s: Schema, n: nat)
    requires Validated(s) && TableOk(kv, s) && Lists(list, kv, RowPrefix(s.name)) && n <= |list|
    ensures RowsTo(list, s, n).Some? && |RowsTo(list, s, n).value| == n
    ensures var rows := RowsTo(list, s, n).value;
      forall i :: 0 <= i < n ==> rows[i].0 == list[i].0 && RowPresent(rows[i].0, rows[i].1, kv, s)
  {
    hide RowKey, EncodedRow, DecodedRow, Less, RowPrefix, RowStored;
    if n > 0 {
      RowsRead(list, kv, s, n - 1);
      var (k, text) := list[n - 1];
      assert list[n - 1] in list;
      assert RowStored(s, k, kv[k]);
      var row := StoredReads(s, k, text);
    }
  }

  /** Reading all rows never fails on a sound table and gives exactly its rows. */
  lemma AllRowsRead(list: seq<(Key, Key)>, kv: Data, s: Schema)
    requires Validated(s) && TableOk(kv, s) && Lists(list, kv, RowPrefix(s.name))
    ensures RowsTo(list, s, |list|).Some? && RowsOf(RowsTo(list, s, |list|).value, kv, s)
  {
    hide RowPresent, Less, RowPrefix, RowsTo;
    RowsRead(list, kv, s, |list|);
    var rows := RowsTo(list, s, |list|).value;
    forall k | k in TableKeys(kv, s)
      ensures HasKey(rows, k)
    {
      assert (k, kv[k]) in list;
      var i :| 0 <= i < |list| && list[i] == (k, kv[k]);
      assert rows[i].0 == k;
    }
  }

  /** The rows a filter keeps; `None` if it fails on one. */
  function FilteredTo(rows: seq<(Key, Row)>, filter: Option<Expr>, s: Schema, n: nat): Option<seq<Row>>
    requires n <= |rows| && forall i :: 0 <= i < |rows| ==> |rows[i].1| == |s.columns|
  {
    if n == 0 then Some([])
    else
      match (FilteredTo(rows, filter, s, n - 1), Matches(filter, rows[n - 1].1, s))
      case (Some(kept), Some(keep)) => Some(if keep then kept + [rows[n - 1].1] else kept)
      case _ => None
  }

  // ----- Plans -----

  datatype Access = FullScan | PrimaryKey(value: Value)

  /** The literal of a filter that is exactly `key = literal`, either way round. */
  function PrimaryEquality(e: Expr, primary: Key): Option<Value> {
    match e
    case Binary(Eq, Column(c), Literal(v)) => if c == primary then Some(v) else None
    case Binary(Eq, Literal(v), Column(c)) => if c == primary then Some(v) else None
    case _ => None
  }

  function PlanFor(filter: Option<Expr>, s: Schema): Access
    requires Validated(s)
  {
    PrimaryFound(s);
    if filter.None? then FullScan
    else
      match PrimaryEquality(filter.value, s.columns[PrimaryIndex(s)].name)
      case None => FullScan
      case Some(v) => PrimaryKey(v)
  }

  /** SELECT's rows by scanning: all rows, then the filter. */
  function Scanned(list: seq<(Key, Key)>, filter: Option<Expr>, s: Schema): Option<seq<Row>> {
    match RowsTo(list, s, |list|)
    case None => None
    case Some(rows) =>
      if forall i :: 0 <= i < |rows| ==> |rows[i].1| == |s.columns| then FilteredTo(rows, filter, s, |rows|) else None
  }

  /** SELECT's rows by primary key: at most one row, then the filter. */
  function LookedUp(kv: Data, v: Value, filter: Option<Expr>, s: Schema): Option<seq<Row>>
    requires Validated(s) && InRange(v)
  {
    if v.Null? then Some([])
    else
      match KeyForPrimary(s, v)
      case None => None
      case Some(k) =>
        if k !in kv then Some([])
        else
          match DecodedRow(kv[k], s)
          case None => None
          case Some(row) => if |row| == |s.columns| then FilteredTo([(k, row)], filter, s, 1) else None
  }

  lemma {:induction false} FilteredWide(rows: seq<(Key, Row)>, filter: Option<Expr>, s: Schema, n: nat)
    requires n <= |rows| && Fitting(rows, s) && FilteredTo(rows, filter, s, n).Some?
    ensures var kept := FilteredTo(rows, filter, s, n).value; forall j :: 0 <= j < |kept| ==> |kept[j]| == |s.columns|
  {
    hide Matches;
    if n > 0 {
      FilteredWide(rows, filter, s, n - 1);
    }
  }

  /** Either plan gives rows as wide as the table. */
  lemma ScannedWide(list: seq<(Key, Key)>, filter: Option<Expr>, s: Schema)
    requires Scanned(list, filter, s).Some?
    ensures var rows := Scanned(list, filter, s).value; forall j :: 0 <= j < |rows| ==> |rows[j]| == |s.columns|
  {
    hide RowsTo, FilteredTo;
    var rows := RowsTo(list, s, |list|).value;
    FilteredWide(rows, filter, s, |rows|);
  }

  lemma LookedUpWide(kv: Data, v: Value, filter: Option<Expr>, s: Schema)
    requires Validated(s) && InRange(v) && LookedUp(kv, v, filter, s).Some?
    ensures var rows := LookedUp(kv, v, filter, s).value; forall j :: 0 <= j < |rows| ==> |rows[j]| == |s.columns|
  {
    hide Validated, KeyForPrimary, DecodedRow, FilteredTo;
    if !v.Null? && KeyForPrimary(s, v).value in kv {
      var k := KeyForPrimary(s, v).value;
      FilteredWide([(k, DecodedRow(kv[k], s).value)], filter, s, 1);
    }
  }

  /** `key = v` on a row: NULL for a NULL literal, an error for another type, else whether the keys agree. */
  lemma EqualityMatches(filter: Expr, v: Value, row: Row, s: Schema)
    requires Validated(s) && RowFits(row, s.columns) && InRange(v)
    requires PrimaryIndex(s) < |s.columns| && !row[PrimaryIndex(s)].Null?
    requires PrimaryEquality(filter, s.columns[PrimaryIndex(s)].name) == Some(v)
    ensures Matches(Some(filter), row, s) ==
      if v.Null? then Some(false)
      else if HasType(v, s.columns[PrimaryIndex(s)].dataType) then Some(row[PrimaryIndex(s)] == v)
      else None
  {
    hide Validated, PrimaryIndex, Position;
    PrimaryFound(s);
    EqualityEvals(filter, v, row[PrimaryIndex(s)], row, s);
    SameTypeOrdered(row[PrimaryIndex(s)], v, s.columns[PrimaryIndex(s)].dataType);
  }

  lemma EqualityEvals(filter: Expr, v: Value, key: Value, row: Row, s: Schema)
    requires |row| == |s.columns| && PrimaryIndex(s) < |s.columns| && key == row[PrimaryIndex(s)]
    requires PrimaryEquality(filter, s.columns[PrimaryIndex(s)].name) == Some(v)
    requires ColumnIndex(s, s.columns[PrimaryIndex(s)].name) == Some(PrimaryIndex(s))
    ensures Eval(filter, row, s) == Compared(Eq, key, v) || Eval(filter, row, s) == Compared(Eq, v, key)
  {
    hide ColumnIndex, PrimaryIndex;
  }

  lemma SameTypeOrdered(a: Value, b: Value, t: DataType)
    requires !a.Null? && HasType(a, t)
    ensures Compared(Eq, a, b) == Compared(Eq, b, a)
    ensures Compared(Eq, a, b) ==
      if b.Null? then Some(Null) else if HasType(b, t) then Some(Boolean(a == b)) else None
  {
  }

  /** Rows with a key of their own have a primary value that is not NULL. */
  lemma PrimaryPresent(k: Key, row: Row, kv: Data, s: Schema)
    requires Validated(s) && RowPresent(k, row, kv, s)
    ensures PrimaryIndex(s) < |s.columns| == |row| && !row[PrimaryIndex(s)].Null?
    ensures KeyForPrimary(s, row[PrimaryIndex(s)]) == Some(k) && DecodedRow(kv[k], s) == Some(row)
  {
    hide Hex, EncodedValue, EncodedRow, DecodedRow, Validated, PrimaryIndex, RowPrefix;
    PrimaryFound(s);
    RowRoundTrip(row, s);
  }

  ghost predicate Fitting(rows: seq<(Key, Row)>, s: Schema) {
    forall i :: 0 <= i < |rows| ==> |rows[i].1| == |s.columns|
  }

  lemma RowsFit(rows: seq<(Key, Row)>, kv: Data, s: Schema)
    requires Validated(s) && RowsOf(rows, kv, s)
    ensures Fitting(rows, s)
  {
    hide Less, RowKey, EncodedRow, RowPrefix;
    forall i | 0 <= i < |rows|
      ensures |rows[i].1| == |s.columns|
    {
      assert RowPresent(rows[i].0, rows[i].1, kv, s);
    }
  }

  /** The filter `key = v` on one row of the table. */
  ghost predicate Decides(filter: Expr, v: Value, row: Row, s: Schema, k: Option<Key>, own: Key)
    requires |row| == |s.columns|
  {
    Matches(Some(filter), row, s) == if v.Null? then Some(false) else if k.Some? then Some(k.value == own) else None
  }

  lemma RowDecides(filter: Expr, v: Value, own: Key, row: Row, kv: Data, s: Schema)
    requires Validated(s) && RowPresent(own, row, kv, s) && InRange(v)
    requires PlanFor(Some(filter), s) == PrimaryKey(v)
    ensures Decides(filter, v, row, s, KeyForPrimary(s, v), own)
  {
    hide Hex, EncodedValue, EncodedRow, DecodedRow, Validated, PrimaryIndex, RowPrefix, Matches;
    PrimaryFound(s);
    PrimaryPresent(own, row, kv, s);
    EqualityMatches(filter, v, row, s);
    var key := row[PrimaryIndex(s)];
    if KeyForPrimary(s, v) == Some(own) {
      KeysInjective(s, v, key);
    }
  }

  /** On distinct keys the filter `key = v` keeps the row whose key it is, if any. */
  lemma {:induction false} EqualityFilters(
    rows: seq<(Key, Row)>, filter: Expr, v: Value, s: Schema, k: Option<Key>, n: nat)
    requires n <= |rows| && Fitting(rows, s) && Sorted(rows)
    requires forall i :: 0 <= i < |rows| ==> Decides(filter, v, rows[i].1, s, k, rows[i].0)
    ensures v.Null? ==> FilteredTo(rows, Some(filter), s, n) == Some([])
    ensures !v.Null? && k.None? ==> FilteredTo(rows, Some(filter), s, n) == if n == 0 then Some([]) else None
    ensures !v.Null? && k.Some? && !HasKey(rows[..n], k.value) ==> FilteredTo(rows, Some(filter), s, n) == Some([])
    ensures forall i :: 0 <= i < n && !v.Null? && k == Some(rows[i].0) ==>
      FilteredTo(rows, Some(filter), s, n) == Some([rows[i].1])
  {
    hide Matches, Less;
    if n > 0 {
      EqualityFilters(rows, filter, v, s, k, n - 1);
      assert Decides(filter, v, rows[n - 1].1, s, k, rows[n - 1].0);
      assert rows[..n][..n - 1] == rows[..n - 1] && rows[..n][n - 1] == rows[n - 1];
      if k.Some? {
        HasKeySnoc(rows, n, k);
      }
      forall i | 0 <= i < n - 1
        ensures rows[i].0 != rows[n - 1].0
      {
        LessIrreflexive(rows[i].0);
      }
      assert k == Some(rows[n - 1].0) ==> !HasKey(rows[..n - 1], rows[n - 1].0);
      assert [] + [rows[n - 1].1] == [rows[n - 1].1];
    }
  }

  lemma HasKeySnoc(rows: seq<(Key, Row)>, n: nat, k: Option<Key>)
    requires 0 < n <= |rows| && k.Some?
    ensures HasKey(rows[..n], k.value) <==> HasKey(rows[..n - 1], k.value) || rows[n - 1].0 == k.value
  {
    var a, b := rows[..n], rows[..n - 1];
    if HasKey(b, k.value) {
      var i :| 0 <= i < |b| && b[i].0 == k.value;
      assert a[i].0 == k.value;
    }
    if HasKey(a, k.value) && rows[n - 1].0 != k.value {
      var i :| 0 <= i < |a| && a[i].0 == k.value;
      assert b[i].0 == k.value;
    }
    if rows[n - 1].0 == k.value {
      assert a[n - 1].0 == k.value;
    }
  }

  /**
   * Looking a key up selects the same rows as scanning with the filter, exactly
   * if the literal is NULL or of the key's type, or there is a row to fail on.
   */
  lemma PlanPreservesMeaning(kv: Data, s: Schema, list: seq<(Key, Key)>, filter: Expr, v: Value)
    requires Validated(s) && TableOk(kv, s) && Lists(list, kv, RowPrefix(s.name)) && InRange(v)
    requires PlanFor(Some(filter), s) == PrimaryKey(v)
    ensures LookedUp(kv, v, Some(filter), s) == Scanned(list, Some(filter), s)
      <==> v.Null? || KeyForPrimary(s, v).Some? || TableKeys(kv, s) != {}
  {
    hide RowPresent, Validated, RowPrefix, KeyForPrimary, DecodedRow, RowsTo, Matches, Less, PlanFor, FilteredTo;
    AllRowsRead(list, kv, s);
    var rows, k := RowsTo(list, s, |list|).value, KeyForPrimary(s, v);
    RowsFit(rows, kv, s);
    forall i | 0 <= i < |rows|
      ensures Decides(filter, v, rows[i].1, s, k, rows[i].0)
    {
      RowDecides(filter, v, rows[i].0, rows[i].1, kv, s);
    }
    EqualityFilters(rows, filter, v, s, k, |rows|);
    assert rows[..|rows|] == rows;
    NoRows(rows, kv, s);
    if k.Some? && !v.Null? {
      RowKeyUnder(s, v);
      LookupFinds(kv, v, filter, s, rows);
    }
  }

  /** The smallest table: one integer column, its primary key. */
  function Smallest(): Schema {
    Schema([0x74], [ColumnDef([0x6B], IntegerType, true)])
  }

  /** With no row and a literal of another type, the lookup fails where the scan finds nothing. */
  lemma WrongTypeDiffers() returns (filter: Expr, v: Value)
    ensures Validated(Smallest()) && TableOk(map[], Smallest()) && Lists([], map[], RowPrefix(Smallest().name))
    ensures InRange(v) && PlanFor(Some(filter), Smallest()) == PrimaryKey(v)
    ensures LookedUp(map[], v, Some(filter), Smallest()) == None && Scanned([], Some(filter), Smallest()) == Some([])
  {
    var s := Smallest();
    assert s.columns[..0] == [];
    assert PrimaryCount(s.columns) == 1 + PrimaryCount([]);
    PrimaryFound(s);
    v := Boolean(true);
    filter := Binary(Eq, Column(s.columns[0].name), Literal(v));
  }

  lemma NoRows(rows: seq<(Key, Row)>, kv: Data, s: Schema)
    requires Validated(s) && RowsOf(rows, kv, s)
    ensures rows == [] <==> TableKeys(kv, s) == {}
  {
    hide Less, RowKey, EncodedRow, RowPrefix, Validated;
    if rows != [] {
      assert RowPresent(rows[0].0, rows[0].1, kv, s);
      assert rows[0].0 in TableKeys(kv, s);
    } else {
      assert forall k :: k in TableKeys(kv, s) ==> HasKey(rows, k);
    }
  }

  /** A lookup by key finds the row with that key. */
  lemma LookupFinds(kv: Data, v: Value, filter: Expr, s: Schema, rows: seq<(Key, Row)>)
    requires Validated(s) && RowsOf(rows, kv, s) && InRange(v) && !v.Null? && KeyForPrimary(s, v).Some?
    requires RowPrefix(s.name) <= KeyForPrimary(s, v).value && PlanFor(Some(filter), s) == PrimaryKey(v)
    ensures var k := KeyForPrimary(s, v).value;
      if !HasKey(rows, k) then LookedUp(kv, v, Some(filter), s) == Some([])
      else exists i :: 0 <= i < |rows| && rows[i].0 == k && LookedUp(kv, v, Some(filter), s) == Some([rows[i].1])
  {
    hide Validated, RowPrefix, KeyForPrimary, DecodedRow, Matches, Less, PlanFor, RowPresent;
    var k := KeyForPrimary(s, v).value;
    if HasKey(rows, k) {
      var i :| 0 <= i < |rows| && rows[i].0 == k;
      var row := rows[i].1;
      PresentKey(k, row, kv, s);
      PrimaryPresent(k, row, kv, s);
      RowDecides(filter, v, k, row, kv, s);
      assert FilteredTo([(k, row)], Some(filter), s, 0) == Some([]);
      assert [] + [row] == [row];
      assert LookedUp(kv, v, Some(filter), s) == Some([rows[i].1]);
    } else {
      assert k !in TableKeys(kv, s);
    }
  }

  lemma PresentKey(k: Key, row: Row, kv: Data, s: Schema)
    requires Validated(s) && RowPresent(k, row, kv, s)
    ensures k in kv
  {
  }
}
