module SqlRuns {
  // Tables over whole runs: every transaction, whatever it sees of others, finds every table sound.

  import opened Bytes
  import opened Keys
  import opened SqlAst
  import opened Catalog
  import opened MvccVersions
  import opened MvccLog
  import opened MvccRules
  import opened MvccSafety
  import opened SqlTable
  import opened SqlChanges
  import opened SqlView
  import opened SqlSchemas
  import opened SqlMeaning

  // ----- Statements -----

  datatype Statement =
    | Creating(schema: Schema)
    | Inserting(table: Key, columns: seq<Key>, values: seq<SqlAst.Value>)
    | Updating(table: Key, assignments: Assignments, filter: Option<Expr>)
    | Deleting(table: Key, filter: Option<Expr>)

  /** As parsed: names are words, integers have 64 bits. */
  ghost predicate Wellformed(stmt: Statement) {
    match stmt
    case Creating(s) => Plain(s.name) && PlainColumns(s.columns)
    case Inserting(table, _, values) => Plain(table) && AllInRange(values)
    case Updating(table, a, _) => Plain(table) && AssignmentsInRange(a)
    case Deleting(table, _) => Plain(table)
  }

  /** The writes a statement makes in a transaction that sees `kv`, up to its end or its failure. */
  ghost predicate StatementWrites(kv: Data, stmt: Statement, puts: seq<Put>)
    requires Wellformed(stmt)
  {
    if stmt.Creating? then puts == CreatePuts(kv, stmt.schema)
    else if SchemaIn(kv, stmt.table).None? then puts == []
    else TableWrites(kv, SchemaIn(kv, stmt.table).value, stmt, puts)
  }

  /** The writes into the table whose schema the transaction found. */
  ghost predicate TableWrites(kv: Data, s: Schema, stmt: Statement, puts: seq<Put>)
    requires Validated(s) && Wellformed(stmt) && !stmt.Creating?
  {
    match stmt
    case Inserting(_, columns, values) => puts == InsertPuts(kv, s, columns, values)
    case Updating(_, a, filter) => exists rows :: RowsOf(rows, kv, s) && UpdateWrites(kv, s, a, filter, rows, puts)
    case Deleting(_, filter) => exists rows :: RowsOf(rows, kv, s) && DeleteWrites(kv, s, filter, rows, puts)
  }

  ghost predicate UpdateWrites(
    kv: Data, s: Schema, a: Assignments, filter: Option<Expr>, rows: seq<(Key, Row)>, puts: seq<Put>)
    requires Validated(s) && AssignmentsInRange(a)
  {
    && (forall i :: 0 <= i < |rows| ==> RowFits(rows[i].1, s.columns))
    && puts == MovePutsTo(kv, FatesOf(rows, filter, a, s), |rows|)
  }

  ghost predicate DeleteWrites(kv: Data, s: Schema, filter: Option<Expr>, rows: seq<(Key, Row)>, puts: seq<Put>) {
    Fitting(rows, s) && puts == DropPutsTo(kv, VerdictsOf(rows, filter, s), |rows|)
  }

  /** Whatever a statement writes into a table lies in it, and is a row of it under its own key. */
  lemma StatementRowWrites(kv: Data, s: Schema, stmt: Statement, puts: seq<Put>)
    requires Validated(s) && Wellformed(stmt) && !stmt.Creating? && TableWrites(kv, s, stmt, puts)
    ensures RowWrites(puts, s)
  {
    hide Validated, RowsOf, InsertPuts, MovePutsTo, DropPutsTo, FatesOf, RowFits, AllInRange, RowPrefix, Plain;
    match stmt
    case Inserting(_, columns, values) => InsertPutsExact(kv, s, columns, values);
    case Updating(_, a, filter) =>
      var rows :| RowsOf(rows, kv, s) && UpdateWrites(kv, s, a, filter, rows, puts);
      RowsFates(rows, kv, filter, a, s);
      UpdatePutsExact(kv, FatesOf(rows, filter, a, s), s, |rows|);
    case Deleting(_, filter) =>
      var rows :| RowsOf(rows, kv, s) && DeleteWrites(kv, s, filter, rows, puts);
      RowsPresent(rows, kv, s);
      DeletePutsExact(kv, VerdictsOf(rows, filter, s), s, |rows|);
  }

  /** Writes that keep the view coherent one after another: rows of one table, or one new table. */
  ghost predicate GoodPuts(kv: Data, puts: seq<Put>, name: Key) {
    && COLON !in name && AllTaken(puts)
    && ((forall i :: 0 <= i < |puts| ==> RowPut(kv, puts[i], name)) || (|puts| == 1 && TablePut(kv, puts[0], name)))
  }

  /** The log takes every write. */
  ghost predicate AllTaken(puts: seq<Put>) {
    forall i :: 0 <= i < |puts| ==> Takes(puts[i])
  }

  lemma StatementGood(kv: Data, stmt: Statement, puts: seq<Put>)
    requires Wellformed(stmt) && StatementWrites(kv, stmt, puts)
    ensures GoodPuts(kv, puts, if stmt.Creating? then stmt.schema.name else stmt.table)
  {
    hide Validated, TableWrites, DecodedSchema, EncodedSchema, RowWrite, Takes, CatalogKey;
    if stmt.Creating? {
      if puts != [] {
        SchemaRoundTrip(stmt.schema);
      }
    } else if SchemaIn(kv, stmt.table).Some? {
      StatementRowWrites(kv, SchemaIn(kv, stmt.table).value, stmt, puts);
    }
  }

  // ----- Runs -----

  /** The engine with the writes each running statement has still to make. */
  datatype Session = Session(world: World, pending: map<nat, seq<Put>>)

  /**
   * A step of the engine (a begin, commit, abort, drop, collection or crash), a
   * statement that starts, or one more write of a running one. Writes of different
   * transactions interleave, and a crash may fall inside a write.
   */
  datatype SqlStep =
    | Engine(step: Step)
    | Starts(id: nat, statement: Statement, puts: seq<Put>)
    | Advances(id: nat)

  ghost function Rest(p: Session, id: nat): seq<Put> {
    if id in p.pending then p.pending[id] else []
  }

  /** A transaction ends only between statements; only the next write may be caught by a crash. */
  ghost predicate EngineMay(p: Session, step: Step) {
    match step
    case Does(call) =>
      !call.Writing? && ((call.Committing? || call.Aborting?) ==> Rest(p, call.id) == [])
    case Crashes(call, _) =>
      call.Writing? ==> Rest(p, call.id) != [] && Put(call.key, call.value) == Rest(p, call.id)[0]
  }

  ghost function View(p: Session, id: nat): Data
    requires id in p.world.open
  {
    ViewOf(p.world.store, p.world.open[id])
  }

  ghost predicate SqlLeads(p: Session, step: SqlStep, q: Session) {
    match step
    case Engine(s) =>
      && EngineMay(p, s) && Leads(p.world, s, q.world)
      && q.pending == map id | id in p.pending && id in q.world.open :: p.pending[id]
    case Starts(id, stmt, puts) =>
      && id in p.world.open && Rest(p, id) == [] && Wellformed(stmt)
      && StatementWrites(View(p, id), stmt, puts) && q == p.(pending := p.pending[id := puts])
    case Advances(id) =>
      var rest := Rest(p, id);
      && rest != [] && Leads(p.world, Does(Writing(id, rest[0].key, rest[0].value)), q.world)
      && q.pending == p.pending[id := rest[1..]]
  }

  ghost predicate SqlRun(ps: seq<Session>, steps: seq<SqlStep>) {
    && |ps| == |steps| + 1 && ps[0] == Session(Fresh(), map[])
    && forall i :: 0 <= i < |steps| ==> SqlLeads(ps[i], steps[i], ps[i + 1])
  }

  // ----- Views and the committed data -----

  /** A transaction sees its own writes over what was committed up to its snapshot. */
  lemma ViewIsOver(w: World, id: nat)
    requires Reached(w) && id in w.open
    ensures w.open[id].snapshot <= |Hist(w.store.log)|
    ensures ViewOf(w.store, w.open[id]) == Over(DataAt(Hist(w.store.log), w.open[id].snapshot), w.open[id].writes)
  {
    hide Reached, ViewOf, Hist, DataAt, ValueAt, Seen;
    TransactionReads(w, id, []);
    var t := w.open[id];
    var a, b := ViewOf(w.store, t), Over(DataAt(Hist(w.store.log), t.snapshot), t.writes);
    forall k: Key
      ensures k in a <==> k in b
      ensures k in a ==> a[k] == b[k]
    {
      ViewSees(w.store, t, k);
      TransactionReads(w, id, k);
      DataAtValue(Hist(w.store.log), t.snapshot, k);
    }
  }

  /** A call leaves the history as it is, or is a commit that adds its write set. */
  lemma CallHist(w: World, call: Call)
    requires Reached(w) && Callable(w, call)
    ensures var h, g := Hist(w.store.log), Hist(After(w, call).store.log);
      g == h || (call.Committing? && CanCommit(w.store, w.open[call.id]) && g == h + [w.open[call.id].writes])
  {
    hide Reached, CanCommit, Applied, Collected, RecordFits, WritesOf, IsWatermark, Faithful;
    var before, after := w.store.log, After(w, call).store.log;
    if call.Committing? && CanCommit(w.store, w.open[call.id]) {
      AlwaysSound(w);
      var low :| Inv(w, low);
      CommitOk(w, low, call.id);
    } else if after != before {
      assert after[..|after| - 1] == before;
    }
  }

  // ----- The invariant of a run -----

  ghost predicate SessionOk(p: Session) {
    && Reached(p.world)
    && CoherentHistory(Hist(p.world.store.log))
    && (forall id :: id in p.world.open ==> TxnOk(p.world, id))
    && (forall id :: id in p.pending ==> id in p.world.open && PendingOk(p, id))
  }

  /** An open transaction sees coherent data, and creates only tables its snapshot does not have. */
  ghost predicate TxnOk(w: World, id: nat)
    requires id in w.open
  {
    && w.open[id].snapshot <= |Hist(w.store.log)|
    && Coherent(ViewOf(w.store, w.open[id]))
    && NewTables(DataAt(Hist(w.store.log), w.open[id].snapshot), w.open[id].writes)
  }

  ghost predicate PendingOk(p: Session, id: nat)
    requires id in p.world.open && id in p.pending
  {
    exists name :: GoodPuts(View(p, id), p.pending[id], name)
  }

  /** Committing a transaction keeps the history coherent, as no key it wrote has changed since. */
  lemma CallCoherent(w: World, call: Call)
    requires Reached(w) && Callable(w, call) && CoherentHistory(Hist(w.store.log))
    requires forall id :: id in w.open ==> TxnOk(w, id)
    ensures CoherentHistory(Hist(After(w, call).store.log))
  {
    hide Reached, CanCommit, After, Hist, CoherentHistory, Coherent, NewTables, DataAt, ViewOf, Over, Effective;
    CallHist(w, call);
    if Hist(After(w, call).store.log) != Hist(w.store.log) {
      var id := call.id;
      assert TxnOk(w, id);
      ViewIsOver(w, id);
      FirstCommitterWins(w, id);
      HistoryGrows(Hist(w.store.log), w.open[id].snapshot, w.open[id].writes);
    }
  }

  lemma StepCoherent(w: World, step: Step, v: World)
    requires Reached(w) && Leads(w, step, v) && CoherentHistory(Hist(w.store.log))
    requires forall id :: id in w.open ==> TxnOk(w, id)
    ensures CoherentHistory(Hist(v.store.log))
  {
    hide Reached, After, Callable, Opened, Hist, CoherentHistory, TxnOk;
    match step
    case Does(call) => CallCoherent(w, call);
    case Crashes(call, cut) =>
      CallCoherent(w, call);
      OpenedLog(After(w, call).store.log[..cut], w.store.synced);
      LogGrows(After(w, call).store.log, cut);
      CoherentPrefix(Hist(v.store.log), Hist(After(w, call).store.log));
  }

  /** A transaction that has just begun sees what was committed. */
  lemma BegunOk(v: World, id: nat)
    requires Reached(v) && id in v.open && CoherentHistory(Hist(v.store.log)) && v.open[id].writes == map[]
    ensures TxnOk(v, id)
  {
    hide Reached, ViewOf, Hist, Coherent, DataAt;
    ViewIsOver(v, id);
    var d := DataAt(Hist(v.store.log), v.open[id].snapshot);
    assert Over(d, map[]) == d;
  }

  /** A step that does not write for a transaction keeps it in order. */
  lemma TxnKept(w: World, step: Step, v: World, id: nat)
    requires Reached(w) && Leads(w, step, v) && id in v.open && CoherentHistory(Hist(v.store.log))
    requires id in w.open ==> TxnOk(w, id)
    requires step.Does? && step.call.Writing? ==> step.call.id != id
    ensures TxnOk(v, id)
  {
    hide Reached, ViewOf, Hist, Coherent, DataAt, NewTables, Leads, CoherentHistory;
    AlwaysSound(w);
    NextReached(w, step, v);
    StepOpen(w, step, v, id);
    if id in w.open {
      OthersKeepView(w, step, v, id);
      SameWrites(w, step, v, id);
      StepExtends(w, step, v);
      assert v.store.log[..|w.store.log|] == w.store.log;
      LogGrows(v.store.log, |w.store.log|);
      DataAtPrefix(Hist(w.store.log), Hist(v.store.log), w.open[id].snapshot);
    } else {
      NewIsEmpty(w, step, v, id);
      BegunOk(v, id);
    }
  }

  lemma NewIsEmpty(w: World, step: Step, v: World, id: nat)
    requires Leads(w, step, v) && id in v.open && id !in w.open
    ensures v.open[id].writes == map[]
  {
    hide Opened, Applied, Collected, CanCommit, RecordFits;
  }

  /** One write of a running statement keeps its transaction and the rest of the statement in order. */
  lemma WriteKept(w: World, id: nat, puts: seq<Put>, name: Key, v: World)
    requires Reached(w) && id in w.open && TxnOk(w, id)
    requires puts != [] && GoodPuts(ViewOf(w.store, w.open[id]), puts, name)
    requires Leads(w, Does(Writing(id, puts[0].key, puts[0].value)), v)
    ensures id in v.open && TxnOk(v, id) && GoodPuts(ViewOf(v.store, v.open[id]), puts[1..], name)
    ensures ViewOf(v.store, v.open[id]) == PutOne(ViewOf(w.store, w.open[id]), puts[0])
  {
    hide Reached, ViewOf, Hist, Coherent, DataAt, NewTables, RowPut, TablePut, Over, PutOne;
    var p, kv := puts[0], ViewOf(w.store, w.open[id]);
    OpenWrites(w, id);
    assert (v.store, v.open[id]) == Took(w.store, w.open[id], p);
    TookView(w.store, w.open[id], p);
    ViewIsOver(w, id);
    CallHist(w, Writing(id, p.key, p.value));
    var d := DataAt(Hist(w.store.log), w.open[id].snapshot);
    if RowPut(kv, p, name) {
      RowPutKeeps(kv, p, name);
      RowPutNew(d, w.open[id].writes, p, name);
      RestGood(kv, puts, name);
    } else {
      TablePutKeeps(kv, p, name);
      TablePutNew(d, w.open[id].writes, p, name);
    }
  }

  lemma RestGood(kv: Data, puts: seq<Put>, name: Key)
    requires puts != [] && GoodPuts(kv, puts, name) && RowPut(kv, puts[0], name)
    ensures GoodPuts(PutOne(kv, puts[0]), puts[1..], name)
  {
    hide SchemaIn, RowWrite, PutOne, Takes;
    RowPutApart(kv, puts[0], name, name);
    forall i | 0 <= i < |puts| - 1 && |puts| > 1
      ensures RowPut(PutOne(kv, puts[0]), puts[1..][i], name)
    {
      assert RowPut(kv, puts[i + 1], name);
    }
  }

  lemma OpenWrites(w: World, id: nat)
    requires Reached(w) && id in w.open
    ensures w.open[id].id == id
  {
    hide Reached, Faithful;
    AlwaysSound(w);
    var low :| Inv(w, low);
    assert OpenOk(w, id, low);
  }

  lemma EngineStepOk(p: Session, s: Step, q: Session)
    requires SessionOk(p) && SqlLeads(p, Engine(s), q)
    ensures SessionOk(q)
  {
    hide Reached, Leads, CoherentHistory, TxnOk, Hist, GoodPuts, ViewOf;
    NextReached(p.world, s, q.world);
    StepCoherent(p.world, s, q.world);
    forall id | id in q.world.open
      ensures TxnOk(q.world, id)
    {
      TxnKept(p.world, s, q.world, id);
    }
    forall id | id in q.pending
      ensures id in q.world.open && PendingOk(q, id)
    {
      assert PendingOk(p, id);
      OthersKeepView(p.world, s, q.world, id);
      var name :| GoodPuts(View(p, id), p.pending[id], name);
      assert GoodPuts(View(q, id), q.pending[id], name);
    }
  }

  lemma StartStepOk(p: Session, id: nat, stmt: Statement, puts: seq<Put>, q: Session)
    requires SessionOk(p) && SqlLeads(p, Starts(id, stmt, puts), q)
    ensures SessionOk(q)
  {
    hide Reached, CoherentHistory, TxnOk, Hist, GoodPuts, ViewOf, StatementWrites, Wellformed;
    StatementGood(View(p, id), stmt, puts);
    forall other | other in q.pending
      ensures other in q.world.open && PendingOk(q, other)
    {
      if other != id {
        assert PendingOk(p, other);
        var name :| GoodPuts(View(p, other), p.pending[other], name);
        assert GoodPuts(View(q, other), q.pending[other], name);
      } else {
        assert GoodPuts(View(q, id), puts, if stmt.Creating? then stmt.schema.name else stmt.table);
      }
    }
  }

  lemma AdvanceStepOk(p: Session, id: nat, q: Session)
    requires SessionOk(p) && SqlLeads(p, Advances(id), q)
    ensures SessionOk(q)
    ensures id in p.world.open && id in q.world.open && View(q, id) == PutOne(View(p, id), Rest(p, id)[0])
  {
    hide Reached, Leads, CoherentHistory, TxnOk, Hist, GoodPuts, ViewOf, PutOne;
    var rest := Rest(p, id);
    var s := Does(Writing(id, rest[0].key, rest[0].value));
    NextReached(p.world, s, q.world);
    StepCoherent(p.world, s, q.world);
    assert PendingOk(p, id);
    var name :| GoodPuts(View(p, id), rest, name);
    WriteKept(p.world, id, rest, name, q.world);
    forall other | other in q.world.open && other != id
      ensures TxnOk(q.world, other)
    {
      TxnKept(p.world, s, q.world, other);
    }
    forall other | other in q.pending
      ensures other in q.world.open && PendingOk(q, other)
    {
      if other != id {
        assert PendingOk(p, other);
        StillOpen(p.world, s, q.world, other);
        OthersKeepView(p.world, s, q.world, other);
        var own :| GoodPuts(View(p, other), p.pending[other], own);
        assert GoodPuts(View(q, other), q.pending[other], own);
      } else {
        assert GoodPuts(View(q, id), q.pending[id], name);
      }
    }
  }

  lemma StillOpen(w: World, step: Step, v: World, id: nat)
    requires Leads(w, step, v) && step.Does? && step.call.Writing? && id in w.open
    ensures id in v.open
  {
    hide RecordFits;
  }

  lemma SqlStepOk(p: Session, step: SqlStep, q: Session)
    requires SessionOk(p) && SqlLeads(p, step, q)
    ensures SessionOk(q)
  {
    hide SessionOk, SqlLeads;
    match step
    case Engine(s) => EngineStepOk(p, s, q);
    case Starts(id, stmt, puts) => StartStepOk(p, id, stmt, puts, q);
    case Advances(id) => AdvanceStepOk(p, id, q);
  }

  lemma {:induction false} SqlRunOk(ps: seq<Session>, steps: seq<SqlStep>, i: nat)
    requires SqlRun(ps, steps) && i <= |steps|
    ensures SessionOk(ps[i])
  {
    hide SqlLeads, SessionOk;
    if i == 0 {
      FreshSession();
    } else {
      SqlRunOk(ps, steps, i - 1);
      SqlStepOk(ps[i - 1], steps[i - 1], ps[i]);
    }
  }

  lemma FreshSession()
    ensures SessionOk(Session(Fresh(), map[]))
  {
    hide CoherentHistory;
    var ws, none: seq<Step> := [Fresh()], [];
    assert Run(ws, none) && ws[0] == Fresh() && ws[|none|] == Fresh();
    NoHistory();
  }

  // ----- The theorems -----

  /**
   * At every moment of every run an open transaction can load the schema of every table it has an
   * entry for, finds the table sound under it, and finds no row of a table it has no entry for.
   */
  lemma TablesAlwaysSound(ps: seq<Session>, steps: seq<SqlStep>, i: nat, id: nat, name: Key)
    requires SqlRun(ps, steps) && i <= |steps| && id in ps[i].world.open && COLON !in name
    ensures var kv := View(ps[i], id);
      && (SchemaIn(kv, name).Some? <==> CatalogKey(name) in kv)
      && (SchemaIn(kv, name).Some? ==> TableOk(kv, SchemaIn(kv, name).value))
      && (SchemaIn(kv, name).None? ==> TableKeys(kv, Schema(name, [])) == {})
  {
    hide SqlLeads, Reached, TableOk, ViewOf, SchemaIn, TableKeys, CoherentHistory, Coherent, PendingOk, CatalogKey;
    SqlRunOk(ps, steps, i);
    assert TxnOk(ps[i].world, id);
    CoherentTable(View(ps[i], id), name);
  }

  /** On every table built by statements, however run, the index plan means the scan, with the exact exception. */
  lemma RunPlanPreservesMeaning(ps: seq<Session>, steps: seq<SqlStep>, i: nat, id: nat, name: Key,
                                s: Schema, list: seq<(Key, Key)>, filter: Expr, v: SqlAst.Value)
    requires SqlRun(ps, steps) && i <= |steps| && id in ps[i].world.open && COLON !in name
    requires SchemaIn(View(ps[i], id), name) == Some(s)
    requires Lists(list, View(ps[i], id), RowPrefix(name)) && InRange(v)
    requires PlanFor(Some(filter), s) == PrimaryKey(v)
    ensures LookedUp(View(ps[i], id), v, Some(filter), s) == Scanned(list, Some(filter), s)
      <==> v.Null? || KeyForPrimary(s, v).Some? || TableKeys(View(ps[i], id), s) != {}
    ensures v.Null? || HasType(v, KeyType(s)) ==>
      LookedUp(View(ps[i], id), v, Some(filter), s) == Scanned(list, Some(filter), s)
  {
    hide SqlLeads, TableOk, ViewOf, Lists, LookedUp, Scanned, PlanFor, TableKeys, Validated, RowPrefix, PrimaryIndex;
    hide SchemaIn, CatalogKey;
    TablesAlwaysSound(ps, steps, i, id, name);
    PlanPreservesMeaning(View(ps[i], id), s, list, filter, v);
    PrimaryFound(s);
  }

  // ----- Tables stay as they were created -----

  /** A step of the engine, or one that leaves it alone. */
  ghost function EngineStep(p: Session, step: SqlStep): Step {
    match step
    case Engine(s) => s
    case Starts(_, _, _) => Does(Reading)
    case Advances(id) =>
      var rest := Rest(p, id);
      if rest == [] then Does(Reading) else Does(Writing(id, rest[0].key, rest[0].value))
  }

  lemma SqlRunIsRun(ps: seq<Session>, steps: seq<SqlStep>) returns (ws: seq<World>, engine: seq<Step>)
    requires SqlRun(ps, steps)
    ensures Run(ws, engine) && |engine| == |steps| && Reached(ws[0])
    ensures forall i :: 0 <= i < |ws| ==> ws[i] == ps[i].world
    ensures forall i :: 0 <= i < |steps| && steps[i].Engine? ==> engine[i] == steps[i].step
  {
    hide SqlLeads, EngineStep, Reached, Leads;
    ws := seq(|ps|, i requires 0 <= i < |ps| => ps[i].world);
    engine := seq(|steps|, i requires 0 <= i < |steps| => EngineStep(ps[i], steps[i]));
    forall i | 0 <= i < |steps|
      ensures Leads(ws[i], engine[i], ws[i + 1]) && (steps[i].Engine? ==> engine[i] == steps[i].step)
    {
      StepIsStep(ps[i], steps[i], ps[i + 1]);
    }
    SqlRunOk(ps, steps, 0);
    SessionReached(ps[0]);
  }

  lemma SessionReached(p: Session)
    requires SessionOk(p)
    ensures Reached(p.world) && MvccSafety.Sound(p.world) && CoherentHistory(Hist(p.world.store.log))
    ensures forall id :: id in p.world.open ==> TxnOk(p.world, id)
  {
    hide Reached, MvccSafety.Sound, CoherentHistory, PendingOk, TxnOk;
    AlwaysSound(p.world);
  }

  lemma StepIsStep(p: Session, step: SqlStep, q: Session)
    requires SqlLeads(p, step, q)
    ensures Leads(p.world, EngineStep(p, step), q.world) && (step.Engine? ==> EngineStep(p, step) == step.step)
  {
    hide Opened, Applied, Collected, CanCommit, RecordFits, StatementWrites, ViewOf;
  }

  /** A table in the view of a transaction that committed keeps its columns for every later transaction. */
  lemma TablesStay(ps: seq<Session>, steps: seq<SqlStep>, i: nat, j: nat, id: nat, other: nat, name: Key)
    requires SqlRun(ps, steps) && i < j <= |steps| && steps[i] == Engine(Does(Committing(id)))
    requires id in ps[i].world.open && CanCommit(ps[i].world.store, ps[i].world.open[id])
    requires ps[i].world.store.commitTs + 1 < U64_LIMIT
    requires other in ps[j].world.open && ps[j].world.open[other].snapshot > ps[i].world.store.commitTs
    requires CatalogKey(name) in View(ps[i], id)
    ensures SchemaIn(View(ps[j], other), name) == SchemaIn(View(ps[i], id), name)
  {
    hide SqlLeads, Reached, TxnOk, CanCommit, SessionOk, ViewOf, Over, DataAt, Hist, Leads, CoherentHistory, CatalogKey;
    hide MvccSafety.Sound, NewTables;
    var ws, engine := SqlRunIsRun(ps, steps);
    var w, v := ws[i], ws[j];
    AcknowledgedSurvives(ws, engine, i, j, id);
    SqlRunOk(ps, steps, i);
    SessionReached(ps[i]);
    SqlRunOk(ps, steps, j);
    SessionReached(ps[j]);
    ViewIsOver(w, id);
    ViewIsOver(v, other);
    OpenNew(v, other);
    var h := Hist(v.store.log);
    DataAtPrefix(Hist(w.store.log), h, w.open[id].snapshot);
    ClockExact(w);
    TableCarried(h, w.open[id].snapshot, w.store.commitTs + 1, v.open[other].snapshot, v.open[other].writes, name);
  }

  lemma OpenNew(w: World, id: nat)
    requires id in w.open && TxnOk(w, id)
    ensures w.open[id].snapshot <= |Hist(w.store.log)|
    ensures NewTables(DataAt(Hist(w.store.log), w.open[id].snapshot), w.open[id].writes)
  {
    hide Coherent, DataAt, NewTables, Hist;
  }

  // ----- A statement does what it set out to do, whatever runs beside it -----

  /** What the view of a transaction will be once its running statement is done. */
  ghost function Goal(p: Session, id: nat): Data
    requires id in p.world.open
  {
    PutAll(View(p, id), Rest(p, id))
  }

  /** A step that does not write for a transaction leaves its view alone. */
  lemma OthersKeepView(w: World, step: Step, v: World, id: nat)
    requires Reached(w) && Leads(w, step, v) && id in w.open && id in v.open
    requires step.Does? && step.call.Writing? ==> step.call.id != id
    ensures ViewOf(v.store, v.open[id]) == ViewOf(w.store, w.open[id])
  {
    hide Reached, ViewOf, Seen, Leads;
    SameWrites(w, step, v, id);
    var a, b := ViewOf(w.store, w.open[id]), ViewOf(v.store, v.open[id]);
    forall k: Key
      ensures Seen(v.store, v.open[id], k) == Seen(w.store, w.open[id], k)
    {
      SameSight(w, step, v, id, k);
    }
    forall k | k in a || k in b
      ensures k in a && k in b && a[k] == b[k]
    {
      ViewSees(w.store, w.open[id], k);
      ViewSees(v.store, v.open[id], k);
    }
  }

  lemma SameWrites(w: World, step: Step, v: World, id: nat)
    requires Reached(w) && Leads(w, step, v) && id in w.open && id in v.open
    requires step.Does? && step.call.Writing? ==> step.call.id != id
    ensures v.open[id].writes == w.open[id].writes
  {
    hide Reached, Applied, Collected, CanCommit, Opened;
    AlwaysSound(w);
    OpenIssued(w, id);
  }

  lemma SameSight(w: World, step: Step, v: World, id: nat, k: Key)
    requires Reached(w) && Leads(w, step, v) && id in w.open && id in v.open
    requires v.open[id].writes == w.open[id].writes
    ensures Seen(v.store, v.open[id], k) == Seen(w.store, w.open[id], k)
  {
    hide Reached, Leads, Visible;
    var ws, steps := [w, v], [step];
    assert Run(ws, steps);
    StableReads(ws, steps, 0, 1, id, k);
  }

  /** Until the next statement of its transaction starts, no step changes where a statement is heading. */
  lemma GoalKept(p: Session, step: SqlStep, q: Session, id: nat)
    requires SessionOk(p) && SqlLeads(p, step, q)
    requires id in p.world.open && id in q.world.open && (step.Starts? ==> step.id != id)
    ensures Goal(q, id) == Goal(p, id)
  {
    hide Reached, ViewOf, Leads, PutAll, StatementWrites, PutOne, TxnOk, PendingOk, CoherentHistory;
    match step
    case Engine(s) => OthersKeepView(p.world, s, q.world, id);
    case Starts(_, _, _) =>
    case Advances(other) =>
      var rest := Rest(p, other);
      if other != id {
        OthersKeepView(p.world, Does(Writing(other, rest[0].key, rest[0].value)), q.world, id);
      } else {
        AdvanceStepOk(p, id, q);
        PutParts(View(p, id), rest[..1], rest[1..]);
        PutFew(View(p, id), rest[0], rest[0]);
        assert rest[..1] == [rest[0]] && rest[..1] + rest[1..] == rest;
      }
  }

  /** No further statement of the transaction starts before step `j`. */
  ghost predicate Undisturbed(steps: seq<SqlStep>, i: nat, j: nat, id: nat)
    requires j <= |steps|
  {
    forall k :: i < k < j && steps[k].Starts? ==> steps[k].id != id
  }

  lemma {:induction false} GoalStays(ps: seq<Session>, steps: seq<SqlStep>, i: nat, j: nat, id: nat)
    requires SqlRun(ps, steps) && i < j <= |steps| && id in ps[i].world.open
    requires steps[i].Starts? && steps[i].id == id && Undisturbed(steps, i, j, id)
    ensures Issued(ps[j].world, id)
    ensures id in ps[j].world.open ==> Goal(ps[j], id) == PutAll(View(ps[i], id), steps[i].puts)
    decreases j
  {
    hide SqlLeads, SessionOk, Issued, Goal, View;
    SqlRunOk(ps, steps, j - 1);
    SessionReached(ps[j - 1]);
    if j == i + 1 {
      OpenIssued(ps[i].world, id);
      GoalStarts(ps[i], steps[i], ps[j]);
    } else {
      GoalStays(ps, steps, i, j - 1, id);
      WorldSteps(ps[j - 1], steps[j - 1], ps[j], id);
      if id in ps[j].world.open {
        GoalKept(ps[j - 1], steps[j - 1], ps[j], id);
      }
    }
  }

  lemma GoalStarts(p: Session, step: SqlStep, q: Session)
    requires SqlLeads(p, step, q) && step.Starts?
    ensures q.world == p.world && step.id in p.world.open && Goal(q, step.id) == PutAll(View(p, step.id), step.puts)
  {
    hide PutAll, ViewOf, StatementWrites;
  }

  /** An id once issued stays issued, and names no other transaction. */
  lemma WorldSteps(p: Session, step: SqlStep, q: Session, id: nat)
    requires MvccSafety.Sound(p.world) && SqlLeads(p, step, q) && Issued(p.world, id)
    ensures Issued(q.world, id) && (id in q.world.open ==> id in p.world.open)
  {
    hide MvccSafety.Sound, Leads, Issued, StatementWrites, ViewOf;
    if !step.Starts? {
      var s := if step.Engine? then step.step
        else Does(Writing(step.id, Rest(p, step.id)[0].key, Rest(p, step.id)[0].value));
      StepExtends(p.world, s, q.world);
      IssuedKept(p.world, q.world, id);
      IssuedBefore(p.world, id);
      if id in q.world.open {
        StepOpen(p.world, s, q.world, id);
      }
    }
  }

  /** Once a statement has made all its writes, its transaction sees exactly what the statement makes of what it saw. */
  lemma StatementCompletes(ps: seq<Session>, steps: seq<SqlStep>, i: nat, j: nat, id: nat)
    requires SqlRun(ps, steps) && i < j <= |steps| && id in ps[i].world.open
    requires steps[i].Starts? && steps[i].id == id && Undisturbed(steps, i, j, id)
    requires id in ps[j].world.open && Rest(ps[j], id) == []
    ensures View(ps[j], id) == PutAll(View(ps[i], id), steps[i].puts)
  {
    hide SqlLeads, View;
    GoalStays(ps, steps, i, j, id);
  }

  /** A successful UPDATE, whatever runs beside it, moves every row it selects and conserves the number of rows. */
  lemma RunUpdateExact(ps: seq<Session>, steps: seq<SqlStep>, i: nat, j: nat, id: nat,
                       s: Schema, a: Assignments, filter: Option<Expr>, rows: seq<(Key, Row)>)
    requires SqlRun(ps, steps) && i < j <= |steps| && id in ps[i].world.open
    requires COLON !in s.name && SchemaIn(View(ps[i], id), s.name) == Some(s)
    requires AssignmentsInRange(a) && RowsOf(rows, View(ps[i], id), s)
    requires steps[i].Starts? && steps[i].id == id && UpdateWrites(View(ps[i], id), s, a, filter, rows, steps[i].puts)
    requires Undisturbed(steps, i, j, id) && id in ps[j].world.open && Rest(ps[j], id) == []
    requires !MovedTo(View(ps[i], id), FatesOf(rows, filter, a, s), |rows|).failed
    ensures TableOk(View(ps[j], id), s) && Fitting(rows, s)
    ensures UpdateMeans(View(ps[i], id), View(ps[j], id), rows, filter, a, s)
  {
    hide SqlLeads, View, RowsOf, Validated, MovedTo, FateOf, TableOk, TableKeys, SqlChanges.Settled, RowWrites, PutAll;
    hide UpdateMeans, Passing;
    StatementCompletes(ps, steps, i, j, id);
    TablesAlwaysSound(ps, steps, i, id, s.name);
    RowsFates(rows, View(ps[i], id), filter, a, s);
    var fates := FatesOf(rows, filter, a, s);
    UpdatePutsExact(View(ps[i], id), fates, s, |fates|);
    UpdateExact(View(ps[i], id), fates, s);
    UpdateDone(View(ps[i], id), rows, filter, a, s);
  }
}
