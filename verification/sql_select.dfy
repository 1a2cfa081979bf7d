/** What SELECT makes of the rows it found: ORDER BY, LIMIT and the projection. */
module SqlSelect {
  import opened Bytes
  import opened Keys
  import opened SqlAst
  import opened Catalog

  datatype Projection = All | Columns(names: seq<Key>)

  datatype Select = Select(
    projection: Projection, filter: Option<Expr>, orderBy: Option<(Key, bool)>, limit: Option<nat>)

  // ----- The order of values -----

  function Rank(v: Value): nat {
    match v
    case Null => 0
    case Integer(_) => 1
    case Text(_) => 2
    case Boolean(_) => 3
  }

  /** NULL first, then by type, then within a type. */
  predicate AtMost(a: Value, b: Value) {
    match (a, b)
    case (Integer(x), Integer(y)) => x <= y
    case (Text(x), Text(y)) => x == y || Less(x, y)
    case (Boolean(x), Boolean(y)) => x ==> y
    case _ => Rank(a) <= Rank(b)
  }

  lemma AtMostTotal(a: Value, b: Value)
    ensures AtMost(a, b) || AtMost(b, a)
  {
    if a.Text? && b.Text? {
      LessTotal(a.text, b.text);
    }
  }

  lemma AtMostTrans(a: Value, b: Value, c: Value)
    requires AtMost(a, b) && AtMost(b, c)
    ensures AtMost(a, c)
  {
    if a.Text? && b.Text? && c.Text? && a.text != b.text && b.text != c.text {
      LessTrans(a.text, b.text, c.text);
    }
  }

  /** `x` may stand before `y`: by the column at `i`, downwards if asked. */
  predicate MayPrecede(x: Row, y: Row, i: nat, ascending: bool)
    requires i < |x| && i < |y|
  {
    if ascending then AtMost(x[i], y[i]) else AtMost(y[i], x[i])
  }

  ghost predicate Wide(rows: seq<Row>, n: nat) {
    forall j :: 0 <= j < |rows| ==> |rows[j]| == n
  }

  // ----- The sort -----

  ghost predicate Ordered(rows: seq<Row>, i: nat, ascending: bool)
    requires forall j :: 0 <= j < |rows| ==> i < |rows[j]|
  {
    forall j, k :: 0 <= j < k < |rows| ==> MayPrecede(rows[j], rows[k], i, ascending)
  }

  /** Rows that neither comes before the other. */
  predicate Tied(x: Row, y: Row, i: nat)
    requires i < |x| && i < |y|
  {
    AtMost(x[i], y[i]) && AtMost(y[i], x[i])
  }

  /** The rows tied with `y`, in the order they have. */
  ghost function TiedWith(rows: seq<Row>, y: Row, i: nat): seq<Row>
    requires i < |y| && forall j :: 0 <= j < |rows| ==> i < |rows[j]|
  {
    if rows == [] then []
    else
      var last := rows[|rows| - 1];
      TiedWith(rows[..|rows| - 1], y, i) + (if Tied(last, y, i) then [last] else [])
  }

  /** A stable sort: ordered, and every group of ties as it was. */
  ghost predicate StableSort(rows: seq<Row>, sorted: seq<Row>, i: nat, n: nat, ascending: bool)
    requires i < n && Wide(rows, n)
  {
    && Wide(sorted, n) && Ordered(sorted, i, ascending)
    && forall y: Row :: |y| == n ==> TiedWith(sorted, y, i) == TiedWith(rows, y, i)
  }

  /** Puts a row after every row that may precede it. */
  function Placed(sorted: seq<Row>, row: Row, i: nat, ascending: bool): (r: seq<Row>)
    requires i < |row| && forall j :: 0 <= j < |sorted| ==> |sorted[j]| == |row|
    ensures |r| == |sorted| + 1 && forall j :: 0 <= j < |r| ==> |r[j]| == |row|
  {
    if sorted == [] then [row]
    else
      var front, last := sorted[..|sorted| - 1], sorted[|sorted| - 1];
      if MayPrecede(last, row, i, ascending) then sorted + [row] else Placed(front, row, i, ascending) + [last]
  }

  function Sort(rows: seq<Row>, i: nat, n: nat, ascending: bool): (r: seq<Row>)
    requires i < n && Wide(rows, n)
    ensures |r| == |rows| && Wide(r, n)
  {
    if rows == [] then []
    else Placed(Sort(rows[..|rows| - 1], i, n, ascending), rows[|rows| - 1], i, ascending)
  }

  lemma PrecedeTrans(x: Row, y: Row, z: Row, i: nat, ascending: bool)
    requires i < |x| && i < |y| && i < |z| && MayPrecede(x, y, i, ascending) && MayPrecede(y, z, i, ascending)
    ensures MayPrecede(x, z, i, ascending)
  {
    hide AtMost;
    if ascending {
      AtMostTrans(x[i], y[i], z[i]);
    } else {
      AtMostTrans(z[i], y[i], x[i]);
    }
  }

  lemma PrecedeTotal(x: Row, y: Row, i: nat, ascending: bool)
    requires i < |x| && i < |y|
    ensures MayPrecede(x, y, i, ascending) || MayPrecede(y, x, i, ascending)
  {
    AtMostTotal(x[i], y[i]);
  }

  lemma TiedTrans(x: Row, y: Row, z: Row, i: nat)
    requires i < |x| && i < |y| && i < |z| && Tied(x, y, i) && Tied(y, z, i)
    ensures Tied(x, z, i)
  {
    hide AtMost;
    AtMostTrans(x[i], y[i], z[i]);
    AtMostTrans(z[i], y[i], x[i]);
  }

  /** All of an ordered list may precede what its last row may precede. */
  lemma LastBounds(rows: seq<Row>, x: Row, i: nat, n: nat, ascending: bool)
    requires i < n && |x| == n && Wide(rows, n) && Ordered(rows, i, ascending) && rows != []
    requires MayPrecede(rows[|rows| - 1], x, i, ascending)
    ensures Ordered(rows + [x], i, ascending)
  {
    hide MayPrecede;
    forall j | 0 <= j < |rows|
      ensures MayPrecede(rows[j], x, i, ascending)
    {
      if j < |rows| - 1 {
        PrecedeTrans(rows[j], rows[|rows| - 1], x, i, ascending);
      }
    }
  }

  lemma {:induction false} PlacedFrom(sorted: seq<Row>, row: Row, i: nat, ascending: bool, j: nat)
    requires i < |row| && (forall k :: 0 <= k < |sorted| ==> |sorted[k]| == |row|) && j <= |sorted|
    ensures Placed(sorted, row, i, ascending)[j] == row || Placed(sorted, row, i, ascending)[j] in sorted
  {
    hide MayPrecede;
    if sorted != [] {
      var front, last := sorted[..|sorted| - 1], sorted[|sorted| - 1];
      assert sorted == front + [last];
      if !MayPrecede(last, row, i, ascending) && j < |sorted| {
        PlacedFrom(front, row, i, ascending, j);
      }
    }
  }

  lemma {:induction false} PlacedOrdered(sorted: seq<Row>, row: Row, i: nat, n: nat, ascending: bool)
    requires i < n && |row| == n && Wide(sorted, n) && Ordered(sorted, i, ascending)
    ensures Ordered(Placed(sorted, row, i, ascending), i, ascending)
  {
    hide MayPrecede;
    if sorted != [] {
      var front, last := sorted[..|sorted| - 1], sorted[|sorted| - 1];
      if MayPrecede(last, row, i, ascending) {
        LastBounds(sorted, row, i, n, ascending);
      } else {
        PlacedOrdered(front, row, i, n, ascending);
        PrecedeTotal(last, row, i, ascending);
        var placed := Placed(front, row, i, ascending);
        forall j | 0 <= j < |placed|
          ensures MayPrecede(placed[j], last, i, ascending)
        {
          PlacedFrom(front, row, i, ascending, j);
        }
      }
    }
  }

  lemma {:induction false} PlacedTies(sorted: seq<Row>, row: Row, i: nat, n: nat, ascending: bool, y: Row)
    requires i < n && |row| == n && |y| == n && Wide(sorted, n) && Ordered(sorted, i, ascending)
    ensures TiedWith(Placed(sorted, row, i, ascending), y, i) == TiedWith(sorted + [row], y, i)
  {
    hide AtMost;
    assert (sorted + [row])[..|sorted|] == sorted;
    if sorted != [] {
      var front, last := sorted[..|sorted| - 1], sorted[|sorted| - 1];
      if !MayPrecede(last, row, i, ascending) {
        PlacedTies(front, row, i, n, ascending, y);
        var placed := Placed(front, row, i, ascending);
        assert (placed + [last])[..|placed|] == placed;
        assert (front + [row])[..|front|] == front;
        if Tied(last, y, i) && Tied(row, y, i) {
          TiedTrans(last, y, row, i);
        }
      }
    } else {
      assert sorted + [row] == [row];
    }
  }

  /** The sort is stable. */
  lemma {:induction false} SortIsStable(rows: seq<Row>, i: nat, n: nat, ascending: bool)
    requires i < n && Wide(rows, n)
    ensures StableSort(rows, Sort(rows, i, n, ascending), i, n, ascending)
  {
    hide MayPrecede, Tied;
    if rows != [] {
      var front, last := rows[..|rows| - 1], rows[|rows| - 1];
      var sorted := Sort(front, i, n, ascending);
      SortIsStable(front, i, n, ascending);
      PlacedOrdered(sorted, last, i, n, ascending);
      forall y: Row | |y| == n
        ensures TiedWith(Sort(rows, i, n, ascending), y, i) == TiedWith(rows, y, i)
      {
        PlacedTies(sorted, last, i, n, ascending, y);
        assert (sorted + [last])[..|sorted|] == sorted;
      }
    }
  }

  // ----- There is only one stable sort -----

  lemma {:induction false} TiesFrom(rows: seq<Row>, y: Row, i: nat, n: nat, j: nat) returns (k: nat)
    requires i < n && |y| == n && Wide(rows, n) && j < |TiedWith(rows, y, i)|
    ensures k < |rows| && rows[k] == TiedWith(rows, y, i)[j] && Tied(rows[k], y, i)
  {
    hide Tied;
    var front := rows[..|rows| - 1];
    if j < |TiedWith(front, y, i)| {
      k := TiesFrom(front, y, i, n, j);
    } else {
      k := |rows| - 1;
    }
  }

  lemma TiesLast(rows: seq<Row>, y: Row, i: nat, n: nat)
    requires i < n && |y| == n && Wide(rows, n) && rows != []
    ensures var front, last, ties := rows[..|rows| - 1], rows[|rows| - 1], TiedWith(rows, y, i);
      if Tied(last, y, i) then ties == TiedWith(front, y, i) + [last] else ties == TiedWith(front, y, i)
  {
    hide Tied;
  }

  lemma TiedSelf(x: Row, i: nat)
    requires i < |x|
    ensures Tied(x, x, i)
  {
    AtMostTotal(x[i], x[i]);
  }

  /** The last row of an ordered list comes after every row that has a tie in it. */
  lemma LastIsLast(a: seq<Row>, b: seq<Row>, i: nat, n: nat, ascending: bool)
    requires i < n && Wide(a, n) && Wide(b, n) && a != [] && b != [] && Ordered(b, i, ascending)
    requires TiedWith(a, a[|a| - 1], i) == TiedWith(b, a[|a| - 1], i)
    ensures MayPrecede(a[|a| - 1], b[|b| - 1], i, ascending)
  {
    hide AtMost, TiedWith;
    var x := a[|a| - 1];
    TiedSelf(x, i);
    TiesLast(a, x, i, n);
    var k := TiesFrom(b, x, i, n, |TiedWith(b, x, i)| - 1);
    if k < |b| - 1 {
      PrecedeTrans(x, b[k], b[|b| - 1], i, ascending);
    }
  }

  lemma BothWaysTied(x: Row, y: Row, i: nat, ascending: bool)
    requires i < |x| && i < |y| && MayPrecede(x, y, i, ascending) && MayPrecede(y, x, i, ascending)
    ensures Tied(x, y, i) && Tied(y, x, i)
  {
  }

  lemma SnocEqual(p: seq<Row>, x: Row, q: seq<Row>, y: Row)
    requires p + [x] == q + [y]
    ensures p == q && x == y
  {
    assert (p + [x])[..|p|] == p && (q + [y])[..|q|] == q;
    assert (p + [x])[|p|] == x && (q + [y])[|q|] == y;
  }

  /** Ordered lists with the same ties are equal. */
  lemma {:induction false} TiesDecide(a: seq<Row>, b: seq<Row>, i: nat, n: nat, ascending: bool)
    requires i < n && Wide(a, n) && Wide(b, n) && Ordered(a, i, ascending) && Ordered(b, i, ascending)
    requires forall y: Row :: |y| == n ==> TiedWith(a, y, i) == TiedWith(b, y, i)
    ensures a == b
    decreases |a|
  {
    hide MayPrecede, TiedWith, Tied;
    if a == [] {
      if b != [] {
        NoTies(b, a, i, n);
      }
    } else if b == [] {
      NoTies(a, b, i, n);
    } else {
      var x, y := a[|a| - 1], b[|b| - 1];
      LastIsLast(a, b, i, n, ascending);
      LastIsLast(b, a, i, n, ascending);
      BothWaysTied(x, y, i, ascending);
      TiedSelf(x, i);
      TiedSelf(y, i);
      TiesLast(a, x, i, n);
      TiesLast(b, x, i, n);
      var c, d := a[..|a| - 1], b[..|b| - 1];
      SnocEqual(TiedWith(c, x, i), x, TiedWith(d, x, i), y);
      forall z: Row | |z| == n
        ensures TiedWith(c, z, i) == TiedWith(d, z, i)
      {
        TiesLast(a, z, i, n);
        TiesLast(b, z, i, n);
        if Tied(x, z, i) {
          SnocEqual(TiedWith(c, z, i), x, TiedWith(d, z, i), y);
        }
      }
      TiesDecide(c, d, i, n, ascending);
      assert a == c + [x] && b == d + [x];
    }
  }

  lemma NoTies(b: seq<Row>, a: seq<Row>, i: nat, n: nat)
    requires i < n && Wide(b, n) && b != [] && a == []
    ensures TiedWith(a, b[|b| - 1], i) != TiedWith(b, b[|b| - 1], i)
  {
    TiedSelf(b[|b| - 1], i);
    TiesLast(b, b[|b| - 1], i, n);
  }

  /** Whatever sorts stably gives the rows this sort gives. */
  lemma StableSortUnique(rows: seq<Row>, sorted: seq<Row>, i: nat, n: nat, ascending: bool)
    requires i < n && Wide(rows, n) && StableSort(rows, sorted, i, n, ascending)
    ensures sorted == Sort(rows, i, n, ascending)
  {
    hide Ordered, TiedWith, Sort;
    SortIsStable(rows, i, n, ascending);
    TiesDecide(sorted, Sort(rows, i, n, ascending), i, n, ascending);
  }

  // ----- Presenting the rows -----

  /** The columns asked for, unless one is unknown. */
  function IndexesTo(s: Schema, names: seq<Key>, k: nat): (r: Option<seq<nat>>)
    requires k <= |names|
    ensures r.Some? ==> |r.value| == k && forall j :: 0 <= j < k ==> r.value[j] < |s.columns|
  {
    if k == 0 then Some([])
    else
      match (IndexesTo(s, names, k - 1), ColumnIndex(s, names[k - 1]))
      case (Some(front), Some(i)) => Some(front + [i])
      case _ => None
  }

  function NamesOf(s: Schema): seq<Key> {
    seq(|s.columns|, i requires 0 <= i < |s.columns| => s.columns[i].name)
  }

  function Projected(row: Row, indexes: seq<nat>): Row
    requires forall j :: 0 <= j < |indexes| ==> indexes[j] < |row|
  {
    seq(|indexes|, j requires 0 <= j < |indexes| => row[indexes[j]])
  }

  function ProjectedAll(rows: seq<Row>, indexes: seq<nat>, n: nat): seq<Row>
    requires (forall j :: 0 <= j < |rows| ==> |rows[j]| == n) && forall j :: 0 <= j < |indexes| ==> indexes[j] < n
  {
    seq(|rows|, k requires 0 <= k < |rows| => Projected(rows[k], indexes))
  }

  function Limited(rows: seq<Row>, limit: Option<nat>): seq<Row> {
    if limit.Some? && limit.value < |rows| then rows[..limit.value] else rows
  }

  function InOrderOf(rows: seq<Row>, orderBy: Option<(Key, bool)>, s: Schema): Option<seq<Row>>
    requires forall j :: 0 <= j < |rows| ==> |rows[j]| == |s.columns|
  {
    if orderBy.None? then Some(rows)
    else
      match ColumnIndex(s, orderBy.value.0)
      case None => None
      case Some(i) => Some(Sort(rows, i, |s.columns|, orderBy.value.1))
  }

  /** The names and rows SELECT returns for the rows it found; `None` if it names an unknown column. */
  function Presented(rows: seq<Row>, q: Select, s: Schema): Option<(seq<Key>, seq<Row>)>
    requires forall j :: 0 <= j < |rows| ==> |rows[j]| == |s.columns|
  {
    match InOrderOf(rows, q.orderBy, s)
    case None => None
    case Some(sorted) =>
      var kept := Limited(sorted, q.limit);
      match q.projection
      case All => Some((NamesOf(s), kept))
      case Columns(names) =>
        match IndexesTo(s, names, |names|)
        case None => None
        case Some(indexes) => Some((names, ProjectedAll(kept, indexes, |s.columns|)))
  }

  /** Sorts by putting one row after another in its place. */
  method SortRows(rows: seq<Row>, i: nat, n: nat, ascending: bool) returns (r: seq<Row>)
    requires i < n && Wide(rows, n)
    ensures StableSort(rows, r, i, n, ascending) && r == Sort(rows, i, n, ascending)
  {
    hide MayPrecede, Placed;
    r := [];
    for k := 0 to |rows|
      invariant r == Sort(rows[..k], i, n, ascending)
    {
      assert rows[..k + 1][..k] == rows[..k];
      r := Placed(r, rows[k], i, ascending);
    }
    assert rows[..|rows|] == rows;
    SortIsStable(rows, i, n, ascending);
  }

  method FindIndexes(s: Schema, names: seq<Key>) returns (r: Option<seq<nat>>)
    ensures r == IndexesTo(s, names, |names|)
  {
    hide ColumnIndex;
    var indexes: seq<nat> := [];
    for k := 0 to |names|
      invariant IndexesTo(s, names, k) == Some(indexes)
    {
      var i := ColumnIndex(s, names[k]);
      if i.None? {
        IndexesStuck(s, names, k + 1, |names|);
        return None;
      }
      indexes := indexes + [i.value];
    }
    return Some(indexes);
  }

  lemma {:induction false} IndexesStuck(s: Schema, names: seq<Key>, k: nat, m: nat)
    requires k <= m <= |names| && IndexesTo(s, names, k).None?
    ensures IndexesTo(s, names, m).None?
    decreases m
  {
    hide ColumnIndex;
    if k < m {
      IndexesStuck(s, names, k, m - 1);
    }
  }

  method Present(rows: seq<Row>, q: Select, s: Schema) returns (r: Option<(seq<Key>, seq<Row>)>)
    requires forall j :: 0 <= j < |rows| ==> |rows[j]| == |s.columns|
    ensures r == Presented(rows, q, s)
  {
    hide Sort, ColumnIndex, IndexesTo;
    var kept := rows;
    if q.orderBy.Some? {
      var i := ColumnIndex(s, q.orderBy.value.0);
      if i.None? {
        return None;
      }
      IndexBound(s, q.orderBy.value.0);
      kept := SortRows(rows, i.value, |s.columns|, q.orderBy.value.1);
    }
    if q.limit.Some? && q.limit.value < |kept| {
      kept := kept[..q.limit.value];
    }
    match q.projection
    case All => return Some((NamesOf(s), kept));
    case Columns(names) =>
      var indexes := FindIndexes(s, names);
      if indexes.None? {
        return None;
      }
      return Some((names, ProjectedAll(kept, indexes.value, |s.columns|)));
  }

  lemma IndexBound(s: Schema, name: Key)
    requires ColumnIndex(s, name).Some?
    ensures ColumnIndex(s, name).value < |s.columns|
  {
  }
}
