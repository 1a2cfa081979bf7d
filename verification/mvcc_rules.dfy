/** The store and its open transactions as values, and the invariant every call and crash keeps. */
module MvccRules {
  import opened Bytes
  import opened Keys
  import opened MvccVersions
  import opened MvccLog

  /** The log is on disk up to `synced`; what follows may be lost in a crash. */
  datatype Store = Store(
    log: Log, synced: nat, versions: Versions, active: map<nat, nat>, nextTxn: nat, commitTs: nat)

  datatype Txn = Txn(id: nat, snapshot: nat, writes: Writes)

  // ----- What each call does -----

  function Opened(log: Log, synced: nat): Outcome<Store> {
    match ReplayedAll(log)
    case Ok(rec) =>
      if rec.maxTxn + 1 >= U64_LIMIT then IdsExhausted
      else Ok(Store(log, synced, rec.versions, map[], rec.maxTxn + 1, rec.commitTs))
    case UnknownTransaction => UnknownTransaction
    case TimestampsNotIncreasing => TimestampsNotIncreasing
    case IdsExhausted => IdsExhausted
  }

  function Logged(s: Store, r: Record): Store {
    s.(log := s.log + [r])
  }

  function Synced(s: Store): Store {
    s.(synced := |s.log|)
  }

  function BeginTxn(s: Store): Txn {
    Txn(s.nextTxn, s.commitTs, map[])
  }

  predicate CanBegin(s: Store) {
    s.nextTxn + 1 < U64_LIMIT
  }

  function Begun(s: Store): Store {
    var t := BeginTxn(s);
    Synced(Logged(s, Begin(t.id, t.snapshot))).(nextTxn := t.id + 1, active := s.active[t.id := t.snapshot])
  }

  function WriteRecord(id: nat, key: Key, value: Option<Value>): Record {
    if value.Some? then Set(id, key, value.value) else Delete(id, key)
  }

  /** Whether a record's payload fits the log's 32-bit length. */
  predicate RecordFits(r: Record) {
    match r
    case Set(_, key, value) => |key| < U32_LIMIT && |value| < U32_LIMIT && 17 + |key| + |value| < U32_LIMIT
    case Delete(_, key) => |key| < U32_LIMIT && 13 + |key| < U32_LIMIT
    case _ => true
  }

  function Seen(s: Store, t: Txn, k: Key): Option<Value> {
    if k in t.writes then t.writes[k] else Visible(ChainOf(s.versions, k), t.snapshot)
  }

  predicate InConflict(s: Store, t: Txn, k: Key) {
    k in t.writes && LatestChange(ChainOf(s.versions, k)) > t.snapshot
  }

  predicate CanCommit(s: Store, t: Txn) {
    forall k :: k in t.writes ==> !InConflict(s, t, k)
  }

  function Left(s: Store, id: nat): Store {
    s.(active := s.active - {id})
  }

  function Aborted(s: Store, id: nat): Store {
    Left(Synced(Logged(s, Abort(id))), id)
  }

  function Committed(s: Store, t: Txn): Store {
    var ts := s.commitTs + 1;
    Left(Synced(Logged(s, Commit(t.id, ts))), t.id).(versions := Applied(s.versions, t.writes, ts), commitTs := ts)
  }

  ghost predicate IsWatermark(s: Store, w: nat) {
    if s.active == map[] then w == if s.commitTs + 1 < U64_LIMIT then s.commitTs + 1 else s.commitTs
    else w in s.active.Values && forall v :: v in s.active.Values ==> w <= v
  }

  function Cleaned(s: Store, watermark: nat): Store {
    s.(versions := Collected(s.versions, watermark))
  }

  // ----- The store with its open transactions -----

  datatype World = World(store: Store, open: map<nat, Txn>)

  datatype Call =
    | Reading
    | Beginning
    | Writing(id: nat, key: Key, value: Option<Value>)
    | Committing(id: nat)
    | Aborting(id: nat)
    | Dropping(id: nat)
    | Cleaning(watermark: nat)

  ghost predicate Callable(w: World, call: Call) {
    match call
    case Reading => true
    case Beginning => true
    case Cleaning(watermark) => IsWatermark(w.store, watermark)
    case _ => call.id in w.open
  }

  ghost function After(w: World, call: Call): World
    requires Callable(w, call)
  {
    var s := w.store;
    match call
    case Reading => w
    case Beginning =>
      if CanBegin(s) then World(Begun(s), w.open[s.nextTxn := BeginTxn(s)]) else w
    case Writing(id, key, value) =>
      var r := WriteRecord(id, key, value);
      if RecordFits(r)
      then World(Logged(s, r), w.open[id := w.open[id].(writes := w.open[id].writes[key := value])])
      else w
    case Committing(id) =>
      if !CanCommit(s, w.open[id]) then World(Aborted(s, id), w.open - {id})
      else if s.commitTs + 1 < U64_LIMIT then World(Committed(s, w.open[id]), w.open - {id})
      else World(Left(s, id), w.open - {id})
    case Aborting(id) => World(Aborted(s, id), w.open - {id})
    case Dropping(id) => World(Left(s, id), w.open - {id})
    case Cleaning(watermark) => World(Cleaned(s, watermark), w.open)
  }

  /**
   * What memory and log agree on. Memory shows every snapshot from `low` on,
   * and no open transaction reads below `low`.
   */
  ghost predicate Inv(w: World, low: nat) {
    var s := w.store;
    && Proper(s.log) && s.synced <= |s.log|
    && s.commitTs == |Hist(s.log)| && s.nextTxn == MaxId(s.log) + 1
    && s.active.Keys == w.open.Keys && low <= s.commitTs
    && (forall t :: t in w.open ==> OpenOk(w, t, low))
    && Faithful(s.versions, Hist(s.log), low)
  }

  ghost predicate OpenOk(w: World, t: nat, low: nat)
    requires t in w.open && w.store.synced <= |w.store.log|
  {
    var s := w.store;
    && t in s.active && w.open[t].id == t && w.open[t].snapshot == s.active[t] && low <= s.active[t] <= s.commitTs
    && t in Live(s.log) && t <= MaxId(s.log[..s.synced])
    && w.open[t].writes == WritesOf(s.log, t)
  }

  /** A log that any prefix at least as long as `synced` may survive. */
  lemma Recovered(log: Log, synced: nat, cut: nat)
    requires Proper(log) && synced <= cut <= |log|
    ensures Proper(log[..cut]) && Opened(log[..cut], synced).Ok?
    ensures Inv(World(Opened(log[..cut], synced).value, map[]), 0)
  {
    hide Faithful;
    ProperPrefix(log, cut);
    ReplayRebuilds(log[..cut]);
    LiveBelowMax(log[..cut]);
  }

  lemma BeginOk(w: World, low: nat)
    requires Inv(w, low) && CanBegin(w.store)
    ensures Inv(After(w, Beginning), low)
  {
    hide Faithful, Proper, Hist, WritesOf, Live, MaxId, ReplayedAll;
    var s, v := w.store, After(w, Beginning);
    var r := Begin(s.nextTxn, s.commitTs);
    LiveBelowMax(s.log);
    Extend(s.log, r);
    NoWritesYet(s.log, s.nextTxn);
    LogGrows(s.log, s.synced);
    assert v.store.log[..v.store.synced] == v.store.log;
    forall t | t in v.open
      ensures OpenOk(v, t, low)
    {
      if t != s.nextTxn {
        assert OpenOk(w, t, low);
      }
    }
  }

  lemma WriteOk(w: World, low: nat, id: nat, key: Key, value: Option<Value>)
    requires Inv(w, low) && id in w.open && RecordFits(WriteRecord(id, key, value))
    ensures Inv(After(w, Writing(id, key, value)), low)
  {
    hide Faithful, Proper, Hist, WritesOf, Live, MaxId, ReplayedAll;
    var s, v := w.store, After(w, Writing(id, key, value));
    assert OpenOk(w, id, low);
    Extend(s.log, WriteRecord(id, key, value));
    assert v.store.log[..s.synced] == s.log[..s.synced];
    forall t | t in v.open
      ensures OpenOk(v, t, low)
    {
      assert OpenOk(w, t, low);
    }
  }

  /** A transaction that ends with record `r`, when the versions keep up. */
  lemma EndOk(w: World, low: nat, id: nat, r: Record, v: World)
    requires Inv(w, low) && id in w.open && (r.Commit? || r.Abort?) && r.txn == id && MayFollow(w.store.log, r)
    requires v.open == w.open - {id} && v.store.active == w.store.active - {id}
    requires v.store.log == w.store.log + [r] && v.store.synced == |v.store.log|
    requires v.store.nextTxn == w.store.nextTxn && v.store.commitTs == |Hist(v.store.log)|
    requires Faithful(v.store.versions, Hist(v.store.log), low)
    ensures Inv(v, low)
  {
    hide Faithful, Proper, Hist, WritesOf, Live, MaxId, ReplayedAll;
    Extend(w.store.log, r);
    LogGrows(w.store.log, w.store.synced);
    assert v.store.log[..v.store.synced] == v.store.log;
    forall t | t in v.open
      ensures OpenOk(v, t, low)
    {
      assert OpenOk(w, t, low);
    }
  }

  lemma AbortOk(w: World, low: nat, id: nat)
    requires Inv(w, low) && id in w.open
    ensures Inv(World(Aborted(w.store, id), w.open - {id}), low)
  {
    hide Faithful, Proper, Hist, WritesOf, Live, MaxId, ReplayedAll;
    assert OpenOk(w, id, low);
    Extend(w.store.log, Abort(id));
    EndOk(w, low, id, Abort(id), World(Aborted(w.store, id), w.open - {id}));
  }

  lemma CommitOk(w: World, low: nat, id: nat)
    requires Inv(w, low) && id in w.open
    ensures var s := Committed(w.store, w.open[id]);
      && Inv(World(s, w.open - {id}), low)
      && Hist(s.log) == Hist(w.store.log) + [w.open[id].writes]
  {
    hide Faithful, Proper, Hist, WritesOf, Live, MaxId, ReplayedAll, Applied;
    var s := w.store;
    var r := Commit(id, s.commitTs + 1);
    assert OpenOk(w, id, low);
    Extend(s.log, r);
    AppliedFaithful(s.versions, Hist(s.log), low, w.open[id].writes);
    EndOk(w, low, id, r, World(Committed(s, w.open[id]), w.open - {id}));
  }

  lemma DropOk(w: World, low: nat, id: nat)
    requires Inv(w, low) && id in w.open
    ensures Inv(World(Left(w.store, id), w.open - {id}), low)
  {
    hide Faithful, Proper, Hist, WritesOf, Live, MaxId, ReplayedAll;
    var v := World(Left(w.store, id), w.open - {id});
    forall t | t in v.open
      ensures OpenOk(v, t, low)
    {
      assert OpenOk(w, t, low);
    }
  }

  /** Collection raises `low` to the oldest snapshot in use. */
  lemma CleanOk(w: World, low: nat, watermark: nat) returns (next: nat)
    requires Inv(w, low) && IsWatermark(w.store, watermark)
    ensures low <= next && Inv(World(Cleaned(w.store, watermark), w.open), next)
    ensures forall t :: t in w.open ==> next <= w.open[t].snapshot
  {
    hide Faithful, Proper, Hist, WritesOf, Live, MaxId, ReplayedAll, Collected;
    var s, v := w.store, World(Cleaned(w.store, watermark), w.open);
    next := if s.active == map[] then s.commitTs else watermark;
    if s.active != map[] {
      var t :| t in s.active && s.active[t] == watermark;
      assert OpenOk(w, t, low);
    }
    CollectedFaithful(s.versions, Hist(s.log), low, watermark, next);
    forall t | t in v.open
      ensures OpenOk(v, t, next)
    {
      assert OpenOk(w, t, low);
      assert s.active[t] in s.active.Values;
    }
  }

  /** Every call keeps the invariant. */
  lemma CallOk(w: World, low: nat, call: Call) returns (next: nat)
    requires Inv(w, low) && Callable(w, call)
    ensures Inv(After(w, call), next)
  {
    hide Inv, CanCommit, Logged, Begun, Committed, Aborted, Cleaned, Left;
    next := low;
    match call
    case Beginning =>
      if CanBegin(w.store) {
        BeginOk(w, low);
      }
    case Writing(id, key, value) =>
      if RecordFits(WriteRecord(id, key, value)) {
        WriteOk(w, low, id, key, value);
      }
    case Committing(id) =>
      AbortOk(w, low, id);
      CommitOk(w, low, id);
      DropOk(w, low, id);
    case Aborting(id) => AbortOk(w, low, id);
    case Dropping(id) => DropOk(w, low, id);
    case Cleaning(watermark) => next := CleanOk(w, low, watermark);
    case Reading =>
  }
}
