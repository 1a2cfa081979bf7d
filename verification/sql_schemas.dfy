/** Schemas as transactions find them, and stores in which every row fits the schema beside it. */
module SqlSchemas {
  import opened Bytes
  import opened Keys
  import opened Catalog
  import opened MvccVersions
  import opened SqlTable
  import opened SqlChanges

  /** The schema a transaction that sees `kv` loads for a table. */
  function SchemaIn(kv: Data, name: Key): (r: Option<Schema>)
    ensures r.Some? ==> CatalogKey(name) in kv && r.value.name == name && Validated(r.value)
  {
    if CatalogKey(name) in kv then DecodedSchema(name, kv[CatalogKey(name)]) else None
  }

  /** CREATE TABLE: one write, unless the schema is refused, the table exists or the log refuses the text. */
  function CreatePuts(kv: Data, s: Schema): seq<Put> {
    var p := Put(CatalogKey(s.name), Some(EncodedSchema(s)));
    if Validated(s) && p.key !in kv && Takes(p) then [p] else []
  }

  // ----- Coherent views -----

  /** Every catalog entry is a schema, and every row belongs to a table and fits its schema. */
  ghost predicate Coherent(kv: Data) {
    && (forall name :: COLON !in name && CatalogKey(name) in kv ==> SchemaIn(kv, name).Some?)
    && (forall name, k :: COLON !in name && k in kv && RowPrefix(name) <= k ==> RowHome(kv, name, k))
  }

  ghost predicate RowHome(kv: Data, name: Key, k: Key)
    requires k in kv
  {
    SchemaIn(kv, name).Some? && RowStored(SchemaIn(kv, name).value, k, kv[k])
  }

  /** In a coherent view a table is sound, and without a schema it is empty. */
  lemma CoherentTable(kv: Data, name: Key)
    requires Coherent(kv) && COLON !in name
    ensures SchemaIn(kv, name).Some? <==> CatalogKey(name) in kv
    ensures SchemaIn(kv, name).Some? ==> TableOk(kv, SchemaIn(kv, name).value)
    ensures SchemaIn(kv, name).None? ==> TableKeys(kv, Schema(name, [])) == {}
  {
    hide DecodedSchema, Validated, RowStored, RowPrefix;
    if SchemaIn(kv, name).Some? {
      forall k | k in kv && RowPrefix(name) <= k
        ensures RowStored(SchemaIn(kv, name).value, k, kv[k])
      {
        assert RowHome(kv, name, k);
      }
    } else {
      forall k | k in kv
        ensures !(RowPrefix(name) <= k)
      {
        assert RowPrefix(name) <= k ==> RowHome(kv, name, k);
      }
    }
  }

  // ----- Writes that keep a view coherent -----

  /** A write of a row into the table the view has a schema for. */
  ghost predicate RowPut(kv: Data, p: Put, name: Key) {
    SchemaIn(kv, name).Some? && RowWrite(p, SchemaIn(kv, name).value)
  }

  /** A schema for a table the view does not have. */
  ghost predicate TablePut(kv: Data, p: Put, name: Key) {
    && p.key == CatalogKey(name) && p.key !in kv
    && p.value.Some? && DecodedSchema(name, p.value.value).Some?
  }

  lemma RowPutApart(kv: Data, p: Put, name: Key, other: Key)
    requires RowPut(kv, p, name)
    ensures p.key != CatalogKey(other) && RowPrefix(name) <= p.key
    ensures SchemaIn(PutOne(kv, p), other) == SchemaIn(kv, other)
  {
    hide DecodedSchema, Validated, RowStored, RowPrefix, CatalogKey;
    CatalogApart(name, other);
  }

  lemma RowPutKeeps(kv: Data, p: Put, name: Key)
    requires Coherent(kv) && COLON !in name && RowPut(kv, p, name)
    ensures Coherent(PutOne(kv, p))
  {
    hide SchemaIn, Validated, RowStored, RowPrefix, CatalogKey;
    var now := PutOne(kv, p);
    forall n | COLON !in n && CatalogKey(n) in now
      ensures SchemaIn(now, n).Some?
    {
      RowPutApart(kv, p, name, n);
    }
    forall n, k | COLON !in n && k in now && RowPrefix(n) <= k
      ensures RowHome(now, n, k)
    {
      RowPutApart(kv, p, name, n);
      if k == p.key {
        TablesApart(name, n, k);
      } else {
        assert RowHome(kv, n, k);
      }
    }
  }

  lemma TablePutKeeps(kv: Data, p: Put, name: Key)
    requires Coherent(kv) && COLON !in name && TablePut(kv, p, name)
    ensures Coherent(PutOne(kv, p))
  {
    hide DecodedSchema, Validated, RowStored, RowPrefix, CatalogKey;
    var now := PutOne(kv, p);
    forall n | COLON !in n && CatalogKey(n) in now
      ensures SchemaIn(now, n).Some?
    {
      CatalogApart(n, name);
    }
    forall n, k | COLON !in n && k in now && RowPrefix(n) <= k
      ensures RowHome(now, n, k)
    {
      CatalogApart(n, name);
      assert RowHome(kv, n, k);
    }
  }

  // ----- Committed data -----

  /** `kv` with a write set on top. */
  ghost function Over(kv: Data, w: Writes): Data {
    map k | k in kv.Keys + w.Keys && (k in w ==> w[k].Some?) :: if k in w then w[k].value else kv[k]
  }

  /** Everything committed up to `s`. */
  ghost function DataAt(hist: History, s: nat): Data
    requires s <= |hist|
  {
    if s == 0 then map[] else Over(DataAt(hist, s - 1), hist[s - 1])
  }

  lemma {:induction false} DataAtValue(hist: History, s: nat, k: Key)
    requires s <= |hist|
    ensures ValueAt(hist, s, k) == if k in DataAt(hist, s) then Some(DataAt(hist, s)[k]) else None
  {
    if s > 0 {
      DataAtValue(hist, s - 1, k);
    }
  }

  lemma {:induction false} DataAtPrefix(hist: History, longer: History, s: nat)
    requires s <= |hist| && hist <= longer
    ensures DataAt(longer, s) == DataAt(hist, s)
  {
    hide Over;
    if s > 0 {
      DataAtPrefix(hist, longer, s - 1);
    }
  }

  /** No table of `a` is gone from `b` or has other columns there. */
  ghost predicate KeepsTables(a: Data, b: Data) {
    forall name :: CatalogKey(name) in a ==> CatalogKey(name) in b && b[CatalogKey(name)] == a[CatalogKey(name)]
  }

  /** The tables a transaction over `kv` creates are new. */
  ghost predicate NewTables(kv: Data, w: Writes) {
    forall name :: CatalogKey(name) in w ==> CatalogKey(name) !in kv && w[CatalogKey(name)].Some?
  }

  lemma RowPutNew(kv: Data, w: Writes, p: Put, name: Key)
    requires NewTables(kv, w) && RowPut(Over(kv, w), p, name)
    ensures NewTables(kv, w[p.key := p.value])
  {
    hide DecodedSchema, Validated, RowStored, RowPrefix, CatalogKey, Over, SchemaIn;
    forall n | CatalogKey(n) in w[p.key := p.value]
      ensures CatalogKey(n) !in kv && w[p.key := p.value][CatalogKey(n)].Some?
    {
      RowPutApart(Over(kv, w), p, name, n);
    }
  }

  lemma TablePutNew(kv: Data, w: Writes, p: Put, name: Key)
    requires NewTables(kv, w) && TablePut(Over(kv, w), p, name)
    ensures NewTables(kv, w[p.key := p.value])
  {
    hide DecodedSchema, CatalogKey;
  }

  /** No key that was written has come or gone since. */
  ghost predicate SameKeys(a: Data, b: Data, w: Writes) {
    forall k :: k in w ==> (k in a <==> k in b)
  }

  /** A transaction whose own view is coherent may be committed over newer data. */
  lemma CommitCoherent(a: Data, b: Data, w: Writes)
    requires Coherent(Over(a, w)) && Coherent(b) && KeepsTables(a, b) && NewTables(a, w) && SameKeys(a, b, w)
    ensures Coherent(Over(b, w)) && KeepsTables(b, Over(b, w))
  {
    hide DecodedSchema, Validated, RowStored, RowPrefix, CatalogKey, Coherent;
    forall name | COLON !in name && CatalogKey(name) in Over(b, w)
      ensures SchemaIn(Over(b, w), name).Some?
    {
      SchemaCommitted(a, b, w, name);
    }
    forall name, k | COLON !in name && k in Over(b, w) && RowPrefix(name) <= k
      ensures RowHome(Over(b, w), name, k)
    {
      SchemaCommitted(a, b, w, name);
      RowCommitted(a, b, w, name, k);
    }
    IsCoherent(Over(b, w));
  }

  lemma IsCoherent(kv: Data)
    requires forall name :: COLON !in name && CatalogKey(name) in kv ==> SchemaIn(kv, name).Some?
    requires forall name, k :: COLON !in name && k in kv && RowPrefix(name) <= k ==> RowHome(kv, name, k)
    ensures Coherent(kv)
  {
    hide SchemaIn, RowHome, RowPrefix, CatalogKey;
  }

  /** The committed schema is the one the transaction saw, if it saw one, and the newest otherwise. */
  lemma SchemaCommitted(a: Data, b: Data, w: Writes, name: Key)
    requires Coherent(Over(a, w)) && Coherent(b) && KeepsTables(a, b) && NewTables(a, w) && SameKeys(a, b, w)
    requires COLON !in name
    ensures SchemaIn(Over(a, w), name).Some? ==> SchemaIn(Over(b, w), name) == SchemaIn(Over(a, w), name)
    ensures SchemaIn(b, name).Some? ==> SchemaIn(Over(b, w), name) == SchemaIn(b, name)
    ensures CatalogKey(name) in Over(b, w) ==> SchemaIn(Over(b, w), name).Some?
  {
    hide DecodedSchema, Validated, RowStored, RowPrefix, CatalogKey, RowHome;
  }

  lemma RowCommitted(a: Data, b: Data, w: Writes, name: Key, k: Key)
    requires Coherent(Over(a, w)) && Coherent(b) && COLON !in name && RowPrefix(name) <= k && k in Over(b, w)
    requires SchemaIn(Over(a, w), name).Some? ==> SchemaIn(Over(b, w), name) == SchemaIn(Over(a, w), name)
    requires SchemaIn(b, name).Some? ==> SchemaIn(Over(b, w), name) == SchemaIn(b, name)
    ensures RowHome(Over(b, w), name, k)
  {
    hide SchemaIn, Validated, RowStored, RowPrefix, CatalogKey;
    if k in w {
      assert RowHome(Over(a, w), name, k);
    } else {
      assert RowHome(b, name, k);
    }
  }

  // ----- Coherent histories -----

  /** Every committed state is coherent, and tables only ever come. */
  ghost predicate CoherentHistory(hist: History) {
    && (forall t: nat :: t <= |hist| ==> Coherent(DataAt(hist, t)))
    && (forall s: nat, t: nat :: s <= t <= |hist| ==> KeepsTables(DataAt(hist, s), DataAt(hist, t)))
  }

  lemma CoherentPrefix(hist: History, longer: History)
    requires CoherentHistory(longer) && hist <= longer
    ensures CoherentHistory(hist)
  {
    hide Coherent, DataAt, KeepsTables;
    forall t: nat | t <= |hist|
      ensures DataAt(hist, t) == DataAt(longer, t)
    {
      DataAtPrefix(hist, longer, t);
    }
  }

  lemma NoHistory()
    ensures CoherentHistory([])
  {
  }

  /** A key without an effective change since `s` has the value it had. */
  lemma {:induction false} Unchanged(hist: History, s: nat, n: nat, k: Key)
    requires s <= n <= |hist| && forall t :: s < t <= n ==> !Effective(hist, t, k)
    ensures ValueAt(hist, n, k) == ValueAt(hist, s, k)
  {
    if s < n {
      Unchanged(hist, s, n - 1, k);
      assert !Effective(hist, n, k);
    }
  }

  lemma HistoryGrows(hist: History, s: nat, w: Writes)
    requires CoherentHistory(hist) && s <= |hist| && Coherent(Over(DataAt(hist, s), w)) && NewTables(DataAt(hist, s), w)
    requires forall k, t :: k in w && s < t <= |hist| ==> !Effective(hist, t, k)
    ensures CoherentHistory(hist + [w])
  {
    hide Coherent, DataAt, KeepsTables, Over, NewTables, Effective;
    var a, b, longer := DataAt(hist, s), DataAt(hist, |hist|), hist + [w];
    forall k | k in w
      ensures k in a <==> k in b
    {
      Unchanged(hist, s, |hist|, k);
      DataAtValue(hist, s, k);
      DataAtValue(hist, |hist|, k);
    }
    CommitCoherent(a, b, w);
    forall t: nat | t <= |hist|
      ensures DataAt(longer, t) == DataAt(hist, t)
    {
      DataAtPrefix(hist, longer, t);
    }
    LastData(longer);
    forall t: nat | t <= |hist|
      ensures KeepsTables(DataAt(longer, t), DataAt(longer, |longer|))
    {
      KeepsTrans(DataAt(hist, t), b, DataAt(longer, |longer|));
    }
    KeepsSelf(Over(b, w));
  }

  lemma LastData(hist: History)
    requires hist != []
    ensures DataAt(hist, |hist|) == Over(DataAt(hist, |hist| - 1), hist[|hist| - 1])
  {
  }

  lemma KeepsTrans(a: Data, b: Data, c: Data)
    requires KeepsTables(a, b) && KeepsTables(b, c)
    ensures KeepsTables(a, c)
  {
  }

  lemma KeepsSelf(a: Data)
    ensures KeepsTables(a, a)
  {
  }

  /** A table seen by the transaction that committed at `ts` looks the same from every later snapshot. */
  lemma TableCarried(hist: History, s: nat, ts: nat, later: nat, w: Writes, name: Key)
    requires CoherentHistory(hist) && s < ts <= later <= |hist| && NewTables(DataAt(hist, later), w)
    requires CatalogKey(name) in Over(DataAt(hist, s), hist[ts - 1])
    ensures SchemaIn(Over(DataAt(hist, later), w), name) == SchemaIn(Over(DataAt(hist, s), hist[ts - 1]), name)
  {
    hide DecodedSchema, CatalogKey, Coherent, DataAt;
    LastData(hist[..ts]);
    DataAtPrefix(hist[..ts], hist, ts);
    DataAtPrefix(hist[..ts], hist, ts - 1);
    assert KeepsTables(DataAt(hist, s), DataAt(hist, ts));
    assert KeepsTables(DataAt(hist, ts), DataAt(hist, later));
  }
}
