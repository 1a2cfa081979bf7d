/** What holds over every run of the transactional store, crashes included. */
module MvccSafety {
  import opened Bytes
  import opened Keys
  import opened MvccVersions
  import opened MvccLog
  import opened MvccRules

  /**
   * A call, or a crash while it runs. After a crash the log is some prefix of
   * what the call left, at least as long as what was on disk before the call,
   * and the store is opened again with no open transaction.
   */
  datatype Step = Does(call: Call) | Crashes(during: Call, cut: nat)

  ghost predicate Leads(w: World, step: Step, v: World) {
    match step
    case Does(call) => Callable(w, call) && v == After(w, call)
    case Crashes(call, cut) =>
      && Callable(w, call) && w.store.synced <= cut <= |After(w, call).store.log|
      && v.open == map[]
      && Opened(After(w, call).store.log[..cut], w.store.synced) == Ok(v.store)
  }

  function Fresh(): World {
    World(Store([], 0, map[], map[], 1, 0), map[])
  }

  ghost predicate Run(ws: seq<World>, steps: seq<Step>) {
    && |ws| == |steps| + 1
    && forall i :: 0 <= i < |steps| ==> Leads(ws[i], steps[i], ws[i + 1])
  }

  ghost predicate Reached(w: World) {
    exists ws, steps :: Run(ws, steps) && ws[0] == Fresh() && ws[|steps|] == w
  }

  ghost predicate Sound(w: World) {
    exists low :: Inv(w, low)
  }

  lemma StepSound(w: World, step: Step, v: World)
    requires Sound(w) && Leads(w, step, v)
    ensures Sound(v)
  {
    hide Inv, After, Opened, Callable;
    var low :| Inv(w, low);
    match step
    case Does(call) => var next := CallOk(w, low, call);
    case Crashes(call, cut) =>
      var next := CallOk(w, low, call);
      InvLog(After(w, call), next);
      Recovered(After(w, call).store.log, w.store.synced, cut);
      assert v == World(v.store, map[]);
  }

  lemma InvLog(w: World, low: nat)
    requires Inv(w, low)
    ensures Proper(w.store.log) && w.store.synced <= |w.store.log|
  {
  }

  lemma {:induction false} RunSound(ws: seq<World>, steps: seq<Step>, i: nat)
    requires Run(ws, steps) && Sound(ws[0]) && i <= |steps|
    ensures Sound(ws[i])
  {
    hide Sound, Leads;
    if i > 0 {
      RunSound(ws, steps, i - 1);
      StepSound(ws[i - 1], steps[i - 1], ws[i]);
    }
  }

  /** The invariant holds in every reachable world. */
  lemma AlwaysSound(w: World)
    requires Reached(w)
    ensures Sound(w)
  {
    hide Inv, Leads;
    var ws, steps :| Run(ws, steps) && ws[0] == Fresh() && ws[|steps|] == w;
    FreshInv();
    RunSound(ws, steps, |steps|);
  }

  lemma FreshInv()
    ensures Inv(Fresh(), 0)
  {
    NothingFaithful();
  }

  lemma {:induction false} RunFrom(ws: seq<World>, steps: seq<Step>, i: nat)
    requires Run(ws, steps) && Reached(ws[0]) && i <= |steps|
    ensures Reached(ws[i])
  {
    hide Leads;
    var ws0, steps0 :| Run(ws0, steps0) && ws0[0] == Fresh() && ws0[|steps0|] == ws[0];
    var ws1, steps1 := ws0[..|steps0|] + ws[..i + 1], steps0 + steps[..i];
    assert Run(ws1, steps1);
    assert ws1[|steps1|] == ws[i];
  }

  // ----- Snapshot reads -----

  /** The current timestamp or the snapshot of an open transaction. */
  ghost predicate InUse(w: World, s: nat) {
    s == w.store.commitTs || s in w.store.active.Values
  }

  /** A read at a snapshot in use sees the fold of the write sets committed up to it. */
  lemma SnapshotReads(w: World, s: nat, k: Key)
    requires Reached(w) && InUse(w, s)
    ensures s <= |Hist(w.store.log)|
    ensures Visible(ChainOf(w.store.versions, k), s) == ValueAt(Hist(w.store.log), s, k)
  {
    hide Reached, OpenOk, Hist;
    AlwaysSound(w);
    var low :| Inv(w, low);
    UseCovered(w, low, s);
    assert Tells(ChainOf(w.store.versions, k), Hist(w.store.log), k, low);
  }

  lemma UseCovered(w: World, low: nat, s: nat)
    requires Inv(w, low) && InUse(w, s)
    ensures low <= s <= w.store.commitTs
  {
    hide Faithful;
    if s in w.store.active.Values {
      var t :| t in w.store.active && w.store.active[t] == s;
      assert OpenOk(w, t, low);
    }
  }

  /** What an open transaction reads: its own writes, over the history up to its snapshot. */
  lemma TransactionReads(w: World, id: nat, k: Key)
    requires Reached(w) && id in w.open
    ensures var t := w.open[id];
      && t.snapshot <= |Hist(w.store.log)|
      && Seen(w.store, t, k) == if k in t.writes then t.writes[k] else ValueAt(Hist(w.store.log), t.snapshot, k)
  {
    hide Reached, Hist;
    AlwaysSound(w);
    var low :| Inv(w, low);
    assert OpenOk(w, id, low);
    assert w.store.active[id] in w.store.active.Values;
    SnapshotReads(w, w.open[id].snapshot, k);
  }

  // ----- What a step keeps of the log -----

  /** Synced records stay, and the synced part only grows. */
  ghost predicate Extends(w: World, v: World) {
    && w.store.synced <= |w.store.log| && v.store.synced <= |v.store.log|
    && w.store.synced <= v.store.synced
    && w.store.log[..w.store.synced] <= v.store.log
  }

  /** `id` was given out by a `begin` whose record is on disk. */
  ghost predicate Issued(w: World, id: nat) {
    w.store.synced <= |w.store.log| && id <= MaxId(w.store.log[..w.store.synced])
  }

  lemma IssuedKept(w: World, v: World, id: nat)
    requires Issued(w, id) && Extends(w, v)
    ensures Issued(v, id)
  {
    var longer := v.store.log[..v.store.synced];
    LogGrows(longer, w.store.synced);
    assert longer[..w.store.synced] == w.store.log[..w.store.synced];
  }

  lemma IssuedBefore(w: World, id: nat)
    requires Sound(w) && Issued(w, id)
    ensures id < w.store.nextTxn
  {
    LogGrows(w.store.log, w.store.synced);
  }

  lemma OpenIssued(w: World, id: nat)
    requires Sound(w) && id in w.open
    ensures Issued(w, id) && id < w.store.nextTxn
  {
    hide Faithful;
    var low :| Inv(w, low);
    assert OpenOk(w, id, low);
    IssuedBefore(w, id);
  }

  lemma StepExtends(w: World, step: Step, v: World)
    requires Sound(w) && Leads(w, step, v)
    ensures Extends(w, v)
    ensures step.Does? ==> w.store.log <= v.store.log
  {
    hide Faithful, Proper, Hist, WritesOf, Live, MaxId, ReplayedAll, Applied, Collected, CanCommit, OpenOk;
    var low :| Inv(w, low);
  }

  lemma StepOpen(w: World, step: Step, v: World, t: nat)
    requires Sound(w) && Leads(w, step, v) && t in v.open
    ensures step.Does?
    ensures if t in w.open then v.open[t].snapshot == w.open[t].snapshot else t == w.store.nextTxn
  {
    hide Sound, Opened, Applied, Collected, CanCommit;
    if t in w.open {
      OpenIssued(w, t);
    }
  }

  lemma ExtendsTrans(u: World, v: World, w: World)
    requires Extends(u, v) && Extends(v, w)
    ensures Extends(u, w)
  {
    assert u.store.log[..u.store.synced] == v.store.log[..v.store.synced][..u.store.synced];
  }

  lemma {:induction false} RunExtends(ws: seq<World>, steps: seq<Step>, i: nat, j: nat)
    requires Run(ws, steps) && Reached(ws[0]) && i <= j <= |steps|
    ensures Extends(ws[i], ws[j])
    decreases j
  {
    hide Leads, Reached;
    RunFrom(ws, steps, j);
    AlwaysSound(ws[j]);
    if i < j {
      RunExtends(ws, steps, i, j - 1);
      RunFrom(ws, steps, j - 1);
      AlwaysSound(ws[j - 1]);
      StepExtends(ws[j - 1], steps[j - 1], ws[j]);
      ExtendsTrans(ws[i], ws[j - 1], ws[j]);
    } else {
      var low :| Inv(ws[j], low);
    }
  }

  // ----- Stable reads -----

  /** An open transaction stays as it began while the log only grows, or it ends. */
  ghost predicate Settled(w: World, v: World, id: nat) {
    && Issued(v, id)
    && (id in v.open ==>
          w.store.log <= v.store.log && id in w.open && v.open[id].snapshot == w.open[id].snapshot)
  }

  lemma {:induction false} RunSettled(ws: seq<World>, steps: seq<Step>, i: nat, j: nat, id: nat)
    requires Run(ws, steps) && Reached(ws[0]) && i <= j <= |steps| && id in ws[i].open
    ensures Settled(ws[i], ws[j], id)
    decreases j
  {
    hide Leads, Reached, Extends, Sound, Issued;
    if i < j {
      var w, v := ws[j - 1], ws[j];
      RunSettled(ws, steps, i, j - 1, id);
      RunFrom(ws, steps, j - 1);
      AlwaysSound(w);
      StepExtends(w, steps[j - 1], v);
      IssuedKept(w, v, id);
      if id in v.open {
        StepOpen(w, steps[j - 1], v, id);
        IssuedBefore(w, id);
      }
    } else {
      RunFrom(ws, steps, j);
      AlwaysSound(ws[j]);
      OpenIssued(ws[j], id);
    }
  }

  /** As long as a transaction is open, what it reads of the store never changes. */
  lemma StableReads(ws: seq<World>, steps: seq<Step>, i: nat, j: nat, id: nat, k: Key)
    requires Run(ws, steps) && Reached(ws[0]) && i <= j <= |steps| && id in ws[i].open && id in ws[j].open
    ensures var s := ws[i].open[id].snapshot;
      && ws[j].open[id].snapshot == s
      && Visible(ChainOf(ws[j].store.versions, k), s) == Visible(ChainOf(ws[i].store.versions, k), s)
  {
    hide Leads, Reached, Visible, ValueAt, Hist;
    var w, v, s := ws[i], ws[j], ws[i].open[id].snapshot;
    RunSettled(ws, steps, i, j, id);
    RunFrom(ws, steps, i);
    RunFrom(ws, steps, j);
    OpenInUse(w, id);
    OpenInUse(v, id);
    SnapshotReads(w, s, k);
    SnapshotReads(v, s, k);
    LogGrows(v.store.log, |w.store.log|);
    assert v.store.log[..|w.store.log|] == w.store.log;
    ValueAtPrefix(Hist(w.store.log), Hist(v.store.log), s, k);
  }

  lemma OpenInUse(w: World, id: nat)
    requires Reached(w) && id in w.open
    ensures InUse(w, w.open[id].snapshot)
  {
    hide Reached, Faithful;
    AlwaysSound(w);
    var low :| Inv(w, low);
    assert OpenOk(w, id, low);
    assert w.store.active[id] in w.store.active.Values;
  }

  // ----- Recovery -----

  /**
   * Opening after a crash during any call always succeeds, with exactly the transactions
   * committed in what survived.
   */
  lemma RecoveryExact(w: World, call: Call, cut: nat, k: Key)
    requires Reached(w) && Callable(w, call) && w.store.synced <= cut <= |After(w, call).store.log|
    ensures var log := After(w, call).store.log[..cut];
      var r := Opened(log, w.store.synced);
      && r.Ok? && r.value.commitTs == |Hist(log)| && r.value.nextTxn == MaxId(log) + 1
      && (forall s :: 0 <= s <= |Hist(log)| ==>
            Visible(ChainOf(r.value.versions, k), s) == ValueAt(Hist(log), s, k))
  {
    hide Reached, After, Opened, Callable, Hist, MaxId, Visible, ValueAt, Proper;
    AlwaysSound(w);
    var low :| Inv(w, low);
    var next := CallOk(w, low, call);
    InvLog(After(w, call), next);
    Recovered(After(w, call).store.log, w.store.synced, cut);
    var v := Opened(After(w, call).store.log[..cut], w.store.synced).value;
    OpenedLog(After(w, call).store.log[..cut], w.store.synced);
    assert Tells(ChainOf(v.versions, k), Hist(v.log), k, 0);
  }

  lemma OpenedLog(log: Log, synced: nat)
    requires Opened(log, synced).Ok?
    ensures Opened(log, synced).value.log == log
  {
  }

  /** A commit that returned its timestamp is in every later history at that timestamp, whole. */
  lemma AcknowledgedSurvives(ws: seq<World>, steps: seq<Step>, i: nat, j: nat, id: nat)
    requires Run(ws, steps) && Reached(ws[0]) && i < j <= |steps|
    requires steps[i] == Does(Committing(id)) && id in ws[i].open && CanCommit(ws[i].store, ws[i].open[id])
    requires ws[i].store.commitTs + 1 < U64_LIMIT
    ensures var ts := ws[i].store.commitTs + 1;
      && ts <= |Hist(ws[j].store.log)| == ws[j].store.commitTs
      && Hist(ws[j].store.log)[ts - 1] == ws[i].open[id].writes
      && Hist(ws[i].store.log) <= Hist(ws[j].store.log)
  {
    hide Reached, Hist, Faithful, MaxId, CanCommit, Proper;
    RunFrom(ws, steps, i);
    RunFrom(ws, steps, j);
    AlwaysSound(ws[i]);
    AlwaysSound(ws[j]);
    var low :| Inv(ws[i], low);
    assert Leads(ws[i], steps[i], ws[i + 1]);
    CommitOk(ws[i], low, id);
    RunExtends(ws, steps, i + 1, j);
    var v := ws[i + 1].store;
    assert v.log[..v.synced] == v.log;
    LogGrows(ws[j].store.log, |v.log|);
    assert ws[j].store.log[..|v.log|] == v.log;
  }

  /** No transaction id is handed out twice, whatever crashes lie between. */
  lemma IdsNeverReused(ws: seq<World>, steps: seq<Step>, i: nat, j: nat)
    requires Run(ws, steps) && Reached(ws[0]) && i < j < |steps|
    requires steps[i] == Does(Beginning) && CanBegin(ws[i].store)
    ensures BeginTxn(ws[i].store).id < BeginTxn(ws[j].store).id
  {
    hide Reached, Inv, Extends, Issued, Opened;
    var id := ws[i].store.nextTxn;
    assert Leads(ws[i], steps[i], ws[i + 1]);
    assert id in ws[i + 1].open;
    RunSettled(ws, steps, i + 1, j, id);
    RunFrom(ws, steps, j);
    AlwaysSound(ws[j]);
    IssuedBefore(ws[j], id);
  }

  // ----- Beginning -----

  /** While ids are left, `begin` opens a transaction, and it sees everything committed so far. */
  lemma BeginSeesAll(w: World, k: Key)
    requires Reached(w) && w.store.nextTxn + 1 < U64_LIMIT
    ensures var v, id := After(w, Beginning), w.store.nextTxn;
      && id in v.open && v.open.Keys == w.open.Keys + {id} && v.open[id].writes == map[]
      && v.open[id].snapshot == |Hist(w.store.log)|
      && Seen(v.store, v.open[id], k) == ValueAt(Hist(w.store.log), |Hist(w.store.log)|, k)
  {
    hide Reached, Hist, Visible, ValueAt;
    var v, id := After(w, Beginning), w.store.nextTxn;
    ClockExact(w);
    assert Leads(w, Does(Beginning), v);
    NextReached(w, Does(Beginning), v);
    SnapshotReads(w, w.store.commitTs, k);
  }

  lemma ClockExact(w: World)
    requires Reached(w)
    ensures w.store.commitTs == |Hist(w.store.log)|
  {
    hide Reached, Hist, Faithful, OpenOk;
    AlwaysSound(w);
  }

  /**
   * A transaction begun after a commit returned its timestamp, with whatever crashes in between,
   * starts at that timestamp or later.
   */
  lemma BeginAfterCommit(ws: seq<World>, steps: seq<Step>, i: nat, j: nat, id: nat)
    requires Run(ws, steps) && Reached(ws[0]) && i < j < |steps|
    requires steps[i] == Does(Committing(id)) && id in ws[i].open && CanCommit(ws[i].store, ws[i].open[id])
    requires ws[i].store.commitTs + 1 < U64_LIMIT
    requires steps[j] == Does(Beginning) && ws[j].store.nextTxn + 1 < U64_LIMIT
    ensures var ts, begun := ws[i].store.commitTs + 1, ws[j].store.nextTxn;
      && begun in ws[j + 1].open && ts <= ws[j + 1].open[begun].snapshot <= |Hist(ws[j + 1].store.log)|
      && Hist(ws[j + 1].store.log)[ts - 1] == ws[i].open[id].writes
  {
    hide Reached, Hist, CanCommit, Applied, Collected;
    RunFrom(ws, steps, j);
    BeginSeesAll(ws[j], []);
    AcknowledgedSurvives(ws, steps, i, j, id);
    AcknowledgedSurvives(ws, steps, i, j + 1, id);
    assert Leads(ws[j], steps[j], ws[j + 1]);
    RunFrom(ws, steps, j + 1);
    OpenBounded(ws[j + 1], ws[j].store.nextTxn);
  }

  lemma OpenBounded(w: World, id: nat)
    requires Reached(w) && id in w.open
    ensures w.open[id].snapshot <= |Hist(w.store.log)|
  {
    hide Reached, Hist;
    TransactionReads(w, id, []);
  }

  /** A transaction that commits, aborts or is dropped is open no more, and holds collection back no more. */
  lemma EndedLeaves(w: World, call: Call)
    requires Reached(w) && Callable(w, call) && (call.Committing? || call.Aborting? || call.Dropping?)
    ensures After(w, call).open == w.open - {call.id} && After(w, call).store.active == w.store.active - {call.id}
  {
    hide CanCommit, Applied, Reached, Hist, Faithful;
    AlwaysSound(w);
    var low :| Inv(w, low);
    assert OpenOk(w, call.id, low);
  }

  // ----- Collection -----

  /** No snapshot in use, now or later, can see a version that ended at `t`. */
  ghost predicate Forgotten(s: Store, t: nat) {
    if s.active == map[] then t <= s.commitTs && (s.commitTs + 1 < U64_LIMIT || t < s.commitTs)
    else forall snapshot :: snapshot in s.active.Values ==> t < snapshot
  }

  /** Collection drops exactly the versions that ended before every snapshot in use. */
  lemma CollectionExact(w: World, watermark: nat, k: Key, v: Version)
    requires IsWatermark(w.store, watermark)
    ensures v in ChainOf(Cleaned(w.store, watermark).versions, k)
      <==> v in ChainOf(w.store.versions, k) && !(v.deletedAt.Some? && Forgotten(w.store, v.deletedAt.value))
  {
    KeptExact(ChainOf(w.store.versions, k), watermark, v);
  }

  /** With no transaction open, collection leaves exactly the present value of every key, and no trace of others. */
  lemma IdleCollection(w: World, watermark: nat, k: Key)
    requires Reached(w) && w.open == map[] && IsWatermark(w.store, watermark) && w.store.commitTs + 1 < U64_LIMIT
    ensures var now := ValueAt(Hist(w.store.log), |Hist(w.store.log)|, k);
      var versions := Cleaned(w.store, watermark).versions;
      if now.None? then k !in versions
      else k in versions && |versions[k]| == 1 && versions[k][0].value == now.value
  {
    hide Reached, Hist, ValueAt;
    AlwaysSound(w);
    var low :| Inv(w, low);
    var v := After(w, Cleaning(watermark));
    assert w.store.active == map[];
    assert Leads(w, Does(Cleaning(watermark)), v);
    NextReached(w, Does(Cleaning(watermark)), v);
    SnapshotReads(v, w.store.commitTs, k);
    assert Tells(ChainOf(w.store.versions, k), Hist(w.store.log), k, low);
    KeptLast(ChainOf(w.store.versions, k), w.store.commitTs, watermark);
  }

  // ----- First committer wins -----

  /** A commit after `t`'s snapshot effectively changed `k`. */
  ghost predicate ChangedSince(hist: History, s: nat, k: Key) {
    exists t :: s < t <= |hist| && Effective(hist, t, k)
  }

  /** A key is in conflict exactly if the history changed it since the snapshot. */
  lemma ConflictsExact(w: World, id: nat, k: Key)
    requires Reached(w) && id in w.open
    ensures InConflict(w.store, w.open[id], k)
      <==> k in w.open[id].writes && ChangedSince(Hist(w.store.log), w.open[id].snapshot, k)
  {
    hide Reached, Hist, Effective;
    AlwaysSound(w);
    var low :| Inv(w, low);
    assert OpenOk(w, id, low);
    ConflictExact(ChainOf(w.store.versions, k), Hist(w.store.log), k, low, w.open[id].snapshot);
  }

  /** A transaction may commit exactly if no commit since its snapshot effectively changed a key it wrote. */
  lemma FirstCommitterWins(w: World, id: nat)
    requires Reached(w) && id in w.open
    ensures CanCommit(w.store, w.open[id]) <==>
      forall k :: k in w.open[id].writes ==> !ChangedSince(Hist(w.store.log), w.open[id].snapshot, k)
  {
    hide Reached, Hist, ChangedSince, LatestChange;
    forall k: Key
      ensures InConflict(w.store, w.open[id], k)
        <==> k in w.open[id].writes && ChangedSince(Hist(w.store.log), w.open[id].snapshot, k)
    {
      ConflictsExact(w, id, k);
    }
  }

  /** Collection never changes whether an open transaction may commit, nor over which key it fails. */
  lemma CollectionKeepsConflicts(w: World, watermark: nat, id: nat, k: Key)
    requires Reached(w) && IsWatermark(w.store, watermark) && id in w.open
    ensures InConflict(Cleaned(w.store, watermark), w.open[id], k) <==> InConflict(w.store, w.open[id], k)
  {
    hide Reached, IsWatermark, InConflict;
    var v := After(w, Cleaning(watermark));
    assert Leads(w, Does(Cleaning(watermark)), v);
    NextReached(w, Does(Cleaning(watermark)), v);
    ConflictsExact(w, id, k);
    ConflictsExact(v, id, k);
  }

  lemma NextReached(w: World, step: Step, v: World)
    requires Reached(w) && Leads(w, step, v)
    ensures Reached(v)
  {
    hide Leads;
    var ws, steps :| Run(ws, steps) && ws[0] == Fresh() && ws[|steps|] == w;
    assert Run(ws + [v], steps + [step]);
    assert (ws + [v])[|steps + [step]|] == v;
  }
}
