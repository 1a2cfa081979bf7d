/** The store and its transactions as they run: objects whose calls change them in place. */
module MvccProgram {
  import opened Bytes
  import opened Keys
  import opened MvccVersions
  import opened MvccLog
  import opened MvccRules

  datatype Failure = Exhausted | TooLarge | Conflict(key: Key) | Finished
  datatype Reply<+T> = Done(value: T) | Failed(failure: Failure)

  /** The keys of a sorted map, in order. */
  method InOrder(keys: set<Key>) returns (r: seq<Key>)
    ensures SortedKeys(r) && (forall k :: k in r <==> k in keys)
  {
    hide Less;
    r := [];
    var rest := keys;
    while rest != {}
      invariant rest <= keys && SortedKeys(r)
      invariant forall k :: k in keys <==> k in r || k in rest
      invariant forall i, k :: 0 <= i < |r| && k in rest ==> Less(r[i], k)
    {
      var k := Smallest(rest);
      LessIrreflexive(k);
      r := r + [k];
      rest := rest - {k};
    }
  }

  method Smallest(keys: set<Key>) returns (r: Key)
    requires keys != {}
    ensures r in keys && forall k :: k in keys && k != r ==> Less(r, k)
  {
    hide Less;
    r :| r in keys;
    var rest := keys - {r};
    while rest != {}
      invariant rest <= keys && r in keys && r !in rest
      invariant forall k :: k in keys && k !in rest && k != r ==> Less(r, k)
    {
      var next :| next in rest;
      LessTotal(r, next);
      LessIrreflexive(r);
      if Less(next, r) {
        forall k | k in keys && k !in rest && k != r
          ensures Less(next, k)
        {
          LessTrans(next, r, k);
        }
        r, rest := next, rest - {next};
      } else {
        rest := rest - {next};
      }
    }
  }

  method VisibleValue(versions: Versions, key: Key, snapshot: nat) returns (r: Option<Value>)
    ensures r == Visible(ChainOf(versions, key), snapshot)
  {
    if key !in versions {
      return None;
    }
    var chain := versions[key];
    var i: nat := |chain|;
    assert chain[..i] == chain;
    while i > 0
      invariant i <= |chain| && Visible(chain, snapshot) == Visible(chain[..i], snapshot)
    {
      assert chain[..i][..i - 1] == chain[..i - 1];
      if chain[i - 1].VisibleAt(snapshot) {
        return Some(chain[i - 1].value);
      }
      i := i - 1;
    }
    return None;
  }

  method WriteChain(before: Chain, w: Option<Value>, timestamp: nat) returns (chain: Chain)
    ensures chain == Written(before, w, timestamp)
  {
    chain := before;
    if |chain| > 0 && chain[|chain| - 1].deletedAt.None? {
      chain := chain[|chain| - 1 := chain[|chain| - 1].(deletedAt := Some(timestamp))];
    }
    if w.Some? {
      chain := chain + [Version(w.value, timestamp, None)];
    }
  }

  method ApplyVersions(versions: Versions, writes: Writes, timestamp: nat) returns (r: Versions)
    ensures r == Applied(versions, writes, timestamp)
  {
    hide Less, SortedKeys, Applied, Part, Written;
    r := versions;
    var order := InOrder(writes.Keys);
    AppliedNone(versions, writes, timestamp);
    for i := 0 to |order|
      invariant r == Applied(versions, Part(writes, order[..i]), timestamp)
    {
      var key := order[i];
      NotBefore(order, i);
      PartNext(writes, order[..i], key, order[..i + 1]);
      AppliedNext(versions, Part(writes, order[..i]), key, writes[key], timestamp);
      var chain := WriteChain(if key in r then r[key] else [], writes[key], timestamp);
      r := r[key := chain];
    }
    PartAll(writes, order);
    assert order[..|order|] == order;
  }

  ghost function Part(writes: Writes, keys: seq<Key>): Writes {
    map k | k in writes && k in keys :: writes[k]
  }

  lemma PartNext(writes: Writes, done: seq<Key>, key: Key, next: seq<Key>)
    requires key !in done && key in writes && forall k :: k in next <==> k in done || k == key
    ensures key !in Part(writes, done) && Part(writes, next) == Part(writes, done)[key := writes[key]]
  {
  }

  lemma PartAll(writes: Writes, order: seq<Key>)
    requires forall k :: k in order <==> k in writes
    ensures Part(writes, order) == writes
  {
  }

  lemma AppliedNone(versions: Versions, writes: Writes, ts: nat)
    ensures Applied(versions, Part(writes, []), ts) == versions
  {
  }

  lemma AppliedNext(versions: Versions, done: Writes, key: Key, w: Option<Value>, ts: nat)
    requires key !in done
    ensures ChainOf(Applied(versions, done, ts), key) == ChainOf(versions, key)
    ensures Applied(versions, done[key := w], ts)
      == Applied(versions, done, ts)[key := Written(ChainOf(versions, key), w, ts)]
  {
    hide Written;
  }

  lemma NotBefore(order: seq<Key>, i: nat)
    requires SortedKeys(order) && i < |order|
    ensures order[i] !in order[..i]
    ensures forall k :: k in order[..i + 1] <==> k in order[..i] || k == order[i]
  {
    hide Less;
    LessIrreflexive(order[i]);
    assert order[..i + 1] == order[..i] + [order[i]];
  }

  // ----- Prefix scans -----

  lemma {:induction false} PrefixNotBelow(k: Key, prefix: Key)
    requires prefix <= k
    ensures !Less(k, prefix)
  {
    if prefix != [] {
      PrefixNotBelow(k[1..], prefix[1..]);
    }
  }

  /** Past the prefix, a key without it is followed by no key with it. */
  lemma {:induction false} PrefixRun(prefix: Key, a: Key, b: Key)
    requires !Less(a, prefix) && !(prefix <= a) && Less(a, b)
    ensures !(prefix <= b)
  {
    if a[0] == prefix[0] && b[0] == a[0] {
      assert !(prefix[1..] <= a[1..]) by {
        assert prefix == [prefix[0]] + prefix[1..] && a == [a[0]] + a[1..];
      }
      PrefixRun(prefix[1..], a[1..], b[1..]);
    }
  }

  method StoredRows(versions: Versions, snapshot: nat, prefix: Key) returns (rows: map<Key, Value>)
    ensures forall k :: k in rows <==> prefix <= k && Visible(ChainOf(versions, k), snapshot).Some?
    ensures forall k :: k in rows ==> Visible(ChainOf(versions, k), snapshot) == Some(rows[k])
  {
    hide Less, SortedKeys;
    var order := InOrder(versions.Keys);
    rows := map[];
    for i := 0 to |order|
      invariant forall k :: k in rows <==>
        && k in order[..i] && prefix <= k && Visible(ChainOf(versions, k), snapshot).Some?
      invariant forall k :: k in rows ==> Visible(ChainOf(versions, k), snapshot) == Some(rows[k])
    {
      NotBefore(order, i);
      if prefix <= order[i] {
        var value := VisibleValue(versions, order[i], snapshot);
        if value.Some? {
          rows := rows[order[i] := value.value];
        }
      }
    }
    assert order[..|order|] == order;
  }

  /** What the write set makes of `k`. */
  ghost predicate Overlaid(before: map<Key, Value>, writes: Writes, after: map<Key, Value>, k: Key) {
    if k in writes then (if writes[k].Some? then k in after && after[k] == writes[k].value else k !in after)
    else (k in after <==> k in before) && (k in after ==> after[k] == before[k])
  }

  /** Visits the write set from the prefix on, and stops at the first key without it. */
  method WrittenRows(before: map<Key, Value>, writes: Writes, prefix: Key) returns (rows: map<Key, Value>)
    requires forall k :: k in before ==> prefix <= k
    ensures forall k :: k in rows ==> prefix <= k
    ensures forall k :: prefix <= k ==> Overlaid(before, writes, rows, k)
  {
    hide Less;
    var order := InOrder(writes.Keys);
    rows := before;
    var i := 0;
    while i < |order| && Less(order[i], prefix)
      invariant i <= |order| && forall j :: 0 <= j < i ==> Less(order[j], prefix)
    {
      i := i + 1;
    }
    ghost var start := i;
    forall j | 0 <= j < start
      ensures !(prefix <= order[j])
    {
      if prefix <= order[j] {
        PrefixNotBelow(order[j], prefix);
      }
    }
    while i < |order|
      invariant start <= i <= |order|
      invariant forall k :: k in rows ==> prefix <= k
      invariant forall k :: prefix <= k && k in order[..i] ==> Overlaid(before, writes, rows, k)
      invariant forall k :: k !in order[..i] ==> (k in rows <==> k in before) && (k in rows ==> rows[k] == before[k])
    {
      var key := order[i];
      NotBefore(order, i);
      if !(prefix <= key) {
        PastRun(order, start, i, prefix);
        break;
      }
      ghost var last := rows;
      if writes[key].Some? {
        rows := rows[key := writes[key].value];
      } else {
        rows := rows - {key};
      }
      forall k | prefix <= k && k in order[..i + 1]
        ensures Overlaid(before, writes, rows, k)
      {
        assert k != key ==> Overlaid(before, writes, last, k);
      }
      i := i + 1;
    }
    forall k | prefix <= k
      ensures Overlaid(before, writes, rows, k)
    {
      assert k in writes ==> k in order[..i];
    }
  }

  lemma PastRun(order: seq<Key>, start: nat, i: nat, prefix: Key)
    requires SortedKeys(order) && start <= i < |order| && !(prefix <= order[i])
    requires start == |order| || !Less(order[start], prefix)
    ensures forall j :: i <= j < |order| ==> !(prefix <= order[j])
  {
    hide Less;
    assert !Less(order[i], prefix) by {
      if Less(order[i], prefix) && start < i {
        LessTrans(order[start], order[i], prefix);
      }
    }
    forall j | i < j < |order|
      ensures !(prefix <= order[j])
    {
      PrefixRun(prefix, order[i], order[j]);
    }
  }

  method Listed(rows: map<Key, Value>) returns (list: seq<(Key, Value)>)
    ensures Sorted(list)
    ensures forall k, v :: (k, v) in list <==> k in rows && rows[k] == v
  {
    hide Less;
    var order := InOrder(rows.Keys);
    list := seq(|order|, i requires 0 <= i < |order| => (order[i], rows[order[i]]));
    forall k, v | k in rows && rows[k] == v
      ensures (k, v) in list
    {
      var i :| 0 <= i < |order| && order[i] == k;
      assert list[i] == (k, v);
    }
  }

  class MvccStore {
    var log: Log
    var synced: nat
    var versions: Versions
    var active: map<nat, nat>
    var nextTxn: nat
    var commitTs: nat

    ghost function State(): Store
      reads this
    {
      Store(log, synced, versions, active, nextTxn, commitTs)
    }

    constructor (log: Log, synced: nat, versions: Versions, nextTxn: nat, commitTs: nat)
      ensures State() == Store(log, synced, versions, map[], nextTxn, commitTs)
    {
      this.log, this.synced, this.versions := log, synced, versions;
      this.active, this.nextTxn, this.commitTs := map[], nextTxn, commitTs;
    }

    method Begin() returns (r: Reply<Transaction>)
      modifies this
      ensures CanBegin(old(State())) ==>
        && r.Done? && State() == Begun(old(State()))
        && fresh(r.value) && r.value.store == this && !r.value.finished
        && r.value.State() == BeginTxn(old(State()))
      ensures !CanBegin(old(State())) ==> r == Failed(Exhausted) && State() == old(State())
    {
      var id := nextTxn;
      if nextTxn + 1 >= U64_LIMIT {
        return Failed(Exhausted);
      }
      nextTxn := nextTxn + 1;
      var snapshot := commitTs;
      log := log + [MvccLog.Begin(id, snapshot)];
      synced := |log|;
      active := active[id := snapshot];
      var t := new Transaction(this, id, snapshot);
      return Done(t);
    }

    method Gc() returns (watermark: nat)
      modifies this
      ensures IsWatermark(old(State()), watermark) && State() == Cleaned(old(State()), watermark)
    {
      if active == map[] {
        watermark := if commitTs + 1 < U64_LIMIT then commitTs + 1 else commitTs;
      } else {
        watermark := Oldest();
      }
      versions := map k | k in versions && Kept(versions[k], watermark) != [] :: Kept(versions[k], watermark);
    }

    /** The least snapshot of an open transaction. */
    method Oldest() returns (w: nat)
      requires active != map[]
      ensures w in active.Values && forall v :: v in active.Values ==> w <= v
    {
      var first :| first in active;
      w := active[first];
      var rest := active.Keys - {first};
      while rest != {}
        invariant rest <= active.Keys && w in active.Values
        invariant forall t :: t in active && t !in rest ==> w <= active[t]
      {
        var t :| t in rest;
        if active[t] < w {
          w := active[t];
        }
        rest := rest - {t};
      }
    }
  }

  class Transaction {
    const store: MvccStore
    const id: nat
    const snapshot: nat
    var writes: Writes
    var finished: bool

    ghost function State(): Txn
      reads this
    {
      Txn(id, snapshot, writes)
    }

    constructor (store: MvccStore, id: nat, snapshot: nat)
      ensures this.store == store && State() == Txn(id, snapshot, map[]) && !finished
    {
      this.store, this.id, this.snapshot, this.writes, this.finished := store, id, snapshot, map[], false;
    }

    method Get(key: Key) returns (r: Reply<Option<Value>>)
      ensures r == if finished then Failed(Finished) else Done(Seen(store.State(), State(), key))
    {
      if finished {
        return Failed(Finished);
      }
      if key in writes {
        return Done(writes[key]);
      }
      var v := VisibleValue(store.versions, key, snapshot);
      return Done(v);
    }

    /** The sorted list of exactly the pairs with this prefix that `Get` shows. */
    method ScanPrefix(prefix: Key) returns (r: Reply<seq<(Key, Value)>>)
      ensures finished ==> r == Failed(Finished)
      ensures !finished ==>
        && r.Done? && Sorted(r.value)
        && forall k, v :: (k, v) in r.value <==> prefix <= k && Seen(store.State(), State(), k) == Some(v)
    {
      hide Less, Visible;
      if finished {
        return Failed(Finished);
      }
      var rows := StoredRows(store.versions, snapshot, prefix);
      ghost var stored := rows;
      rows := WrittenRows(rows, writes, prefix);
      var list := Listed(rows);
      forall k, v
        ensures (k, v) in list <==> prefix <= k && Seen(store.State(), State(), k) == Some(v)
      {
        assert prefix <= k ==> Overlaid(stored, writes, rows, k);
      }
      return Done(list);
    }

    method Put(key: Key, value: Option<Value>) returns (r: Reply<()>)
      modifies this, store
      ensures finished == old(finished)
      ensures r.Done? <==> !old(finished) && RecordFits(WriteRecord(id, key, value))
      ensures r.Done? ==>
        && store.State() == Logged(old(store.State()), WriteRecord(id, key, value))
        && State() == old(State()).(writes := old(writes)[key := value])
      ensures r.Failed? ==>
        && store.State() == old(store.State()) && State() == old(State())
        && r.failure == if old(finished) then Finished else TooLarge
    {
      if finished {
        return Failed(Finished);
      }
      var record := if value.Some? then Set(id, key, value.value) else Delete(id, key);
      if !RecordFits(record) {
        return Failed(TooLarge);
      }
      store.log := store.log + [record];
      writes := writes[key := value];
      return Done(());
    }

    /** Fails over the first key in conflict, in key order. */
    method Commit() returns (r: Reply<nat>)
      modifies this, store
      ensures old(finished) ==> r == Failed(Finished) && store.State() == old(store.State())
      ensures !old(finished) && !CanCommit(old(store.State()), old(State())) ==>
        && r.Failed? && r.failure.Conflict? && InConflict(old(store.State()), old(State()), r.failure.key)
        && (forall k :: InConflict(old(store.State()), old(State()), k) && k != r.failure.key ==>
              Less(r.failure.key, k))
        && store.State() == Aborted(old(store.State()), id)
      ensures !old(finished) && CanCommit(old(store.State()), old(State())) ==>
        if old(store.commitTs) + 1 < U64_LIMIT
        then r == Done(old(store.commitTs) + 1) && store.State() == Committed(old(store.State()), old(State()))
        else r == Failed(Exhausted) && store.State() == Left(old(store.State()), id)
      ensures finished
    {
      hide Less, Applied, LatestChange;
      if finished {
        return Failed(Finished);
      }
      var order := InOrder(writes.Keys);
      for i := 0 to |order|
        invariant store.State() == old(store.State()) && State() == old(State())
        invariant forall j :: 0 <= j < i ==> !InConflict(store.State(), State(), order[j])
      {
        var chain := if order[i] in store.versions then store.versions[order[i]] else [];
        if LatestChange(chain) > snapshot {
          assert InConflict(old(store.State()), old(State()), order[i]);
          store.log := store.log + [MvccLog.Abort(id)];
          store.synced := |store.log|;
          store.active := store.active - {id};
          finished := true;
          return Failed(Conflict(order[i]));
        }
      }
      finished := true;
      if store.commitTs + 1 >= U64_LIMIT {
        store.active := store.active - {id};
        return Failed(Exhausted);
      }
      var timestamp := store.commitTs + 1;
      store.log := store.log + [MvccLog.Commit(id, timestamp)];
      store.synced := |store.log|;
      var applied := ApplyVersions(store.versions, writes, timestamp);
      store.versions := applied;
      store.commitTs := timestamp;
      store.active := store.active - {id};
      return Done(timestamp);
    }

    method Abort() returns (r: Reply<()>)
      modifies this, store
      ensures finished
      ensures old(finished) ==> r == Failed(Finished) && store.State() == old(store.State())
      ensures !old(finished) ==> r == Done(()) && store.State() == Aborted(old(store.State()), id)
    {
      if finished {
        return Failed(Finished);
      }
      store.log := store.log + [MvccLog.Abort(id)];
      store.synced := |store.log|;
      store.active := store.active - {id};
      finished := true;
      return Done(());
    }

    method Drop()
      modifies store
      ensures store.State() == if finished then old(store.State()) else Left(old(store.State()), id)
    {
      if !finished {
        store.active := store.active - {id};
      }
    }
  }

  method OpenStore(log: Log, synced: nat) returns (r: Outcome<MvccStore>)
    ensures r.Ok? <==> Opened(log, synced).Ok?
    ensures r.Ok? ==> fresh(r.value) && r.value.State() == Opened(log, synced).value
    ensures r.UnknownTransaction? <==> Opened(log, synced).UnknownTransaction?
    ensures r.TimestampsNotIncreasing? <==> Opened(log, synced).TimestampsNotIncreasing?
  {
    var replay := Replay(log);
    match replay
    case Ok(rec) =>
      if rec.maxTxn + 1 >= U64_LIMIT {
        return IdsExhausted;
      }
      var s := new MvccStore(log, synced, rec.versions, rec.maxTxn + 1, rec.commitTs);
      return Ok(s);
    case UnknownTransaction => return UnknownTransaction;
    case TimestampsNotIncreasing => return TimestampsNotIncreasing;
    case IdsExhausted => return IdsExhausted;
  }
}
