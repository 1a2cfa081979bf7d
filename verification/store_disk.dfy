module StoreDisk {
  // The store's files, every state its calls leave them in, and what opening recovers after a crash.

  import opened Bytes
  import opened Keys
  import opened Commands
  import opened Wal

  type Data = map<Key, Key>

  /** A snapshot file: complete, or still being written. */
  datatype Snapshot = Whole(data: Data) | Torn

  datatype Disk = Disk(
    primary: Option<Snapshot>, backup: Option<Snapshot>, temp: Option<Snapshot>, wal: File, synced: nat)

  // ----- What commands do -----

  function Applied(m: Data, c: Command): Data {
    match c
    case Set(key, value) => m[key := value]
    case Delete(key) => m - {key}
    case Checkpoint => m
  }

  function AppliedAll(m: Data, cs: seq<Command>): Data {
    if cs == [] then m else Applied(AppliedAll(m, cs[..|cs| - 1]), cs[|cs| - 1])
  }

  lemma {:induction false} AppliedParts(m: Data, cs: seq<Command>, ds: seq<Command>)
    ensures AppliedAll(m, cs + ds) == AppliedAll(AppliedAll(m, cs), ds)
  {
    hide Applied;
    if ds == [] {
      assert cs + ds == cs;
    } else {
      AppliedParts(m, cs, ds[..|ds| - 1]);
      assert (cs + ds)[..|cs + ds| - 1] == cs + ds[..|ds| - 1];
    }
  }

  /** The last word of `cs` on `k`: not touched, or its final value. */
  function Final(cs: seq<Command>, k: Key): Option<Option<Key>> {
    if cs == [] then None
    else
      var last := cs[|cs| - 1];
      if last.Set? && last.key == k then Some(Some(last.value))
      else if last.Delete? && last.key == k then Some(None)
      else Final(cs[..|cs| - 1], k)
  }

  function Lookup(m: Data, k: Key): Option<Key> {
    if k in m then Some(m[k]) else None
  }

  lemma {:induction false} AppliedAt(m: Data, cs: seq<Command>, k: Key)
    ensures Lookup(AppliedAll(m, cs), k) == if Final(cs, k).Some? then Final(cs, k).value else Lookup(m, k)
  {
    if cs != [] {
      AppliedAt(m, cs[..|cs| - 1], k);
    }
  }

  /** Replaying a log over its own result changes nothing. */
  lemma ReplayIdempotent(m: Data, cs: seq<Command>)
    ensures AppliedAll(AppliedAll(m, cs), cs) == AppliedAll(m, cs)
  {
    hide AppliedAll, Final;
    var once := AppliedAll(m, cs);
    forall k: Key
      ensures Lookup(AppliedAll(once, cs), k) == Lookup(once, k)
    {
      AppliedAt(once, cs, k);
      AppliedAt(m, cs, k);
    }
    SameData(AppliedAll(once, cs), once);
  }

  lemma SameData(m: Data, n: Data)
    requires forall k :: Lookup(m, k) == Lookup(n, k)
    ensures m == n
  {
    forall k | k in m || k in n
      ensures k in m && k in n && m[k] == n[k]
    {
      assert Lookup(m, k) == Lookup(n, k);
    }
  }

  // ----- The log -----

  predicate Loggable(c: Command) {
    Framable(Encoded(c))
  }

  function Payloads(cs: seq<Command>): (ps: seq<Payload>)
    ensures |ps| == |cs|
  {
    seq(|cs|, i requires 0 <= i < |cs| => Encoded(cs[i]))
  }

  function LogOf(cs: seq<Command>): File {
    Framed(Payloads(cs))
  }

  ghost predicate AllLoggable(cs: seq<Command>) {
    forall i :: 0 <= i < |cs| ==> Loggable(cs[i])
  }

  /** The commands of replayed records, unless one does not decode. */
  function DecodedAll(ps: seq<Payload>): Option<seq<Command>> {
    if ps == [] then Some([])
    else
      match DecodedAll(ps[..|ps| - 1])
      case None => None
      case Some(cs) =>
        match Decoded(ps[|ps| - 1])
        case None => None
        case Some(c) => Some(cs + [c])
  }

  lemma {:induction false} PayloadsDecode(cs: seq<Command>)
    requires AllLoggable(cs)
    ensures DecodedAll(Payloads(cs)) == Some(cs)
  {
    hide Encoded, Decoded;
    if cs != [] {
      var front := cs[..|cs| - 1];
      PayloadsDecode(front);
      CommandRoundTrip(cs[|cs| - 1]);
      assert Payloads(cs)[..|cs| - 1] == Payloads(front);
      assert cs == front + [cs[|cs| - 1]];
    } else {
      assert Payloads(cs) == [];
    }
  }

  lemma LogParts(cs: seq<Command>, ds: seq<Command>)
    ensures LogOf(cs + ds) == LogOf(cs) + LogOf(ds)
  {
    hide Encoded, Framed;
    assert Payloads(cs + ds) == Payloads(cs) + Payloads(ds);
    FramedParts(Payloads(cs), Payloads(ds));
  }

  // ----- Opening -----

  /** The snapshot `load` takes; `None` if there is only a broken one. */
  function Loaded(d: Disk): Option<Data> {
    if d.primary.Some? then
      if d.primary.value.Whole? then Some(d.primary.value.data)
      else if d.backup.Some? && d.backup.value.Whole? then Some(d.backup.value.data)
      else None
    else if d.backup.Some? then if d.backup.value.Whole? then Some(d.backup.value.data) else None
    else Some(map[])
  }

  /** The data of that snapshot. */
  function Base(d: Disk): Data {
    if Loaded(d).Some? then Loaded(d).value else map[]
  }

  datatype World = World(disk: Disk, data: Data)

  /** Opening `d` succeeds with `w`: replay, load, apply, and cut a torn tail off. Only the cut syncs the log. */
  ghost predicate Opens(d: Disk, w: World) {
    exists records, valid: nat :: OpensWith(d, records, valid, w)
  }

  ghost predicate OpensWith(d: Disk, records: seq<Payload>, valid: nat, w: World) {
    && Replays(d.wal, records, valid) && DecodedAll(records).Some? && Loaded(d).Some?
    && w.data == AppliedAll(Base(d), DecodedAll(records).value)
    && w.disk == d.(wal := d.wal[..valid], synced := if valid < |d.wal| then valid else d.synced)
  }

  /** A crash keeps every file, and of the log at least what was synced. */
  ghost predicate Crashed(d: Disk, e: Disk) {
    && d.synced <= |e.wal| && e.wal <= d.wal
    && e == d.(wal := e.wal)
  }

  /** Files and memory agree: the log holds `cs`, the first `n` of them for sure, over a whole snapshot or none. */
  ghost predicate Sound(w: World, cs: seq<Command>, n: nat) {
    var d := w.disk;
    && AllLoggable(cs) && d.wal == LogOf(cs) && n <= |cs| && d.synced == |LogOf(cs[..n])|
    && Readable(d) && w.data == AppliedAll(Base(d), cs)
  }

  ghost predicate Readable(d: Disk) {
    d.primary != Some(Torn) && d.backup != Some(Torn)
  }

  /** A disk whose log was cut inside `cs`, after the first `least`, opens on a prefix. */
  lemma OpensOnPrefix(d: Disk, cs: seq<Command>, n: nat, least: nat, w: World) returns (k: nat, m: nat)
    requires AllLoggable(cs) && Opens(d, w) && Readable(d)
    requires n <= least <= |cs| && d.synced == |LogOf(cs[..n])| && |LogOf(cs[..least])| <= |d.wal| && d.wal <= LogOf(cs)
    ensures least <= k <= |cs| && w.data == AppliedAll(Base(d), cs[..k])
    ensures Sound(w, cs[..k], m) && Base(w.disk) == Base(d) && (m == n || m == k)
    ensures d.wal == LogOf(cs[..k]) ==> m == n
  {
    hide Encoded, Framed, Decoded, AppliedAll, Applied, Replays, Framable;
    var records, valid: nat :| OpensWith(d, records, valid, w);
    CutValid(d.wal, records, valid);
    PayloadsFramable(cs);
    assert d.wal == Framed(Payloads(cs))[..|d.wal|];
    CutReport(Payloads(cs), |d.wal|, records, valid);
    k := |records|;
    PayloadsPrefix(cs, k);
    AtLeast(cs, least, k, |d.wal|);
    PayloadsDecode(cs[..k]);
    m := if valid < |d.wal| then k else n;
    assert cs[..k][..m] == cs[..m];
  }

  lemma CutValid(wal: File, records: seq<Payload>, valid: nat)
    requires Replays(wal, records, valid)
    ensures valid <= |wal| && wal[..valid] == Framed(records)
  {
  }

  lemma PayloadsFramable(cs: seq<Command>)
    requires AllLoggable(cs)
    ensures AllFramable(Payloads(cs))
  {
    hide Encoded, Framable;
    forall i | 0 <= i < |cs|
      ensures Framable(Payloads(cs)[i])
    {
      assert Loggable(cs[i]);
    }
  }

  lemma PayloadsPrefix(cs: seq<Command>, m: nat)
    requires m <= |cs|
    ensures Payloads(cs)[..m] == Payloads(cs[..m])
  {
    hide Encoded;
  }

  /** A cut past the first `n` records holds at least those. */
  lemma AtLeast(all: seq<Command>, n: nat, m: nat, cut: nat)
    requires n <= |all| && WholeWithin(Payloads(all), cut, m) && |LogOf(all[..n])| <= cut
    ensures n <= m
  {
    hide Encoded, Framed;
    if m < n {
      PayloadsPrefix(all, n);
      FramedGrows(Payloads(all), m + 1, n);
    }
  }

  /** A log cut between two records opens on all before the cut. */
  lemma OpensOnAll(d: Disk, cs: seq<Command>, n: nat, w: World)
    requires AllLoggable(cs) && d.wal == LogOf(cs) && Opens(d, w) && Readable(d)
    requires n <= |cs| && d.synced == |LogOf(cs[..n])|
    ensures w.data == AppliedAll(Base(d), cs) && Sound(w, cs, n) && Base(w.disk) == Base(d)
  {
    hide LogOf, AllLoggable, Opens, AppliedAll;
    assert cs[..|cs|] == cs;
    var k, m := OpensOnPrefix(d, cs, n, |cs|, w);
  }

  /** Opening never fails on such a disk. */
  lemma OpenSucceeds(d: Disk, cs: seq<Command>) returns (w: World)
    requires AllLoggable(cs) && d.wal <= LogOf(cs) && Readable(d)
    ensures Opens(d, w)
  {
    hide Encoded, Framed, Decoded, AppliedAll, Applied, Replays, Framable;
    PayloadsFramable(cs);
    assert d.wal == Framed(Payloads(cs))[..|d.wal|];
    var n := CutAnywhere(Payloads(cs), |d.wal|);
    var records, valid := Payloads(cs)[..n], |Framed(Payloads(cs)[..n])|;
    PayloadsPrefix(cs, n);
    PayloadsDecode(cs[..n]);
    w := World(d.(wal := d.wal[..valid], synced := if valid < |d.wal| then valid else d.synced),
               AppliedAll(Base(d), DecodedAll(records).value));
    assert OpensWith(d, records, valid, w);
  }

  // ----- What the calls leave on the way -----

  /** The states `apply_batch` passes through: one after each append, and the sync. */
  ghost function BatchTrace(d: Disk, cs: seq<Command>): seq<Disk> {
    Appends(d, cs, |cs|) + [d.(wal := d.wal + LogOf(cs), synced := |d.wal + LogOf(cs)|)]
  }

  ghost function Appends(d: Disk, cs: seq<Command>, n: nat): seq<Disk>
    requires n <= |cs|
  {
    if n == 0 then [] else Appends(d, cs, n - 1) + [d.(wal := d.wal + LogOf(cs[..n]))]
  }

  lemma {:induction false} AppendsAt(d: Disk, cs: seq<Command>, n: nat)
    requires n <= |cs|
    ensures |Appends(d, cs, n)| == n
    ensures forall i :: 0 <= i < n ==> Appends(d, cs, n)[i] == d.(wal := d.wal + LogOf(cs[..i + 1]))
  {
    hide LogOf;
    if n > 0 {
      AppendsAt(d, cs, n - 1);
    }
  }

  /** The states `save` and the checkpoint around it pass through. */
  ghost function CheckpointTrace(d: Disk, data: Data): seq<Disk> {
    SaveTrace(d, data) + LogTrace(Saved(d, data))
  }

  ghost function SaveTrace(d: Disk, data: Data): seq<Disk> {
    [d.(temp := None), d.(temp := Some(Torn))] + PublishTrace(d, data)
  }

  /** The states of `publish_snapshot`, from the flushed temporary file on. */
  ghost function PublishTrace(d: Disk, data: Data): seq<Disk> {
    var written := d.(temp := Some(Whole(data)));
    var cleared := written.(backup := None);
    var moved := if d.primary.Some? then cleared.(backup := d.primary, primary := None) else cleared;
    var published := moved.(primary := Some(Whole(data)), temp := None);
    [written, cleared, moved, published, published.(backup := None)]
  }

  ghost function Saved(d: Disk, data: Data): Disk {
    d.(primary := Some(Whole(data)), backup := None, temp := None)
  }

  ghost function LogTrace(d: Disk): seq<Disk> {
    var marked := d.(wal := d.wal + LogOf([Checkpoint]));
    [marked, marked.(synced := |marked.wal|), marked.(wal := [], synced := 0)]
  }

  // ----- Crashes -----

  lemma LoggableJoin(cs: seq<Command>, ds: seq<Command>)
    requires AllLoggable(cs) && AllLoggable(ds)
    ensures AllLoggable(cs + ds)
  {
    hide Encoded;
  }

  lemma LogGrows(cs: seq<Command>, i: nat, j: nat)
    requires i <= j <= |cs|
    ensures |LogOf(cs[..i])| <= |LogOf(cs[..j])| && LogOf(cs[..j]) <= LogOf(cs)
  {
    hide LogOf;
    LogParts(cs[..j], cs[j..]);
    LogParts(cs[..i], cs[i..j]);
    assert cs == cs[..j] + cs[j..] && cs[..j] == cs[..i] + cs[i..j];
  }

  /**
   * A crash anywhere in a batch recovers what was on disk for sure plus some
   * first part of what else was logged: all of it once the batch is synced.
   */
  lemma BatchCrashSafe(w: World, cs: seq<Command>, n: nat, batch: seq<Command>, i: nat, e: Disk, v: World)
    returns (k: nat, m: nat)
    requires Sound(w, cs, n) && AllLoggable(batch) && i < |BatchTrace(w.disk, batch)|
    requires Crashed(BatchTrace(w.disk, batch)[i], e) && Opens(e, v)
    ensures n <= k <= |cs + batch| && v.data == AppliedAll(Base(w.disk), (cs + batch)[..k])
    ensures Sound(v, (cs + batch)[..k], m) && Base(v.disk) == Base(w.disk) && (m == n || m == k)
    ensures i == |batch| ==> k == m == |cs + batch|
  {
    hide Encoded, Framed, LogOf, AppliedAll, Opens, AllLoggable, Applied;
    var d, all := w.disk, cs + batch;
    BatchStates(d, cs, batch, i);
    LoggableJoin(cs, batch);
    assert all[..n] == cs[..n] && all[..|all|] == all;
    LogGrows(all, n, |all|);
    if i < |batch| {
      k, m := OpensOnPrefix(e, all, n, n, v);
    } else {
      k, m := OpensOnPrefix(e, all, |all|, |all|, v);
    }
  }

  lemma BatchStates(d: Disk, cs: seq<Command>, batch: seq<Command>, i: nat)
    requires d.wal == LogOf(cs) && i < |BatchTrace(d, batch)|
    ensures |BatchTrace(d, batch)| == |batch| + 1
    ensures var b := BatchTrace(d, batch)[i];
      && b == d.(wal := b.wal, synced := b.synced) && b.wal <= LogOf(cs + batch)
      && (i < |batch| ==> b.synced == d.synced)
      && (i == |batch| ==> b.wal == LogOf(cs + batch) && b.synced == |b.wal|)
  {
    hide Encoded, Framed, LogOf;
    AppendsAt(d, batch, |batch|);
    LogParts(cs, batch);
    if i < |batch| {
      LogParts(batch[..i + 1], batch[i + 1..]);
      assert batch[..i + 1] + batch[i + 1..] == batch;
    }
  }

  // ----- Checkpoints -----

  /** A state a crash may leave: what is sure, plus a first part of the rest of the log. */
  ghost predicate Promised(w: World, cs: seq<Command>, n: nat, m: Data)
    requires n <= |cs|
  {
    exists k :: n <= k <= |cs| && m == AppliedAll(Base(w.disk), cs[..k])
  }

  /** A snapshot the checkpoint will not throw away first, or a log that can do without it. */
  ghost predicate Restorable(w: World, cs: seq<Command>, n: nat)
    requires n <= |cs|
  {
    || w.disk.primary.Some? || w.disk.backup.None?
    || (forall k :: n <= k <= |cs| ==> Promised(w, cs, n, AppliedAll(map[], cs[..k])))
  }

  /** Replaying any part of the log that may survive over the new snapshot is harmless. */
  ghost predicate Replayable(w: World, cs: seq<Command>, n: nat)
    requires n <= |cs|
  {
    forall k :: n <= k <= |cs| ==> Promised(w, cs, n, AppliedAll(w.data, cs[..k]))
  }

  /** With the whole log on disk, replaying it is harmless, and the data is all that is promised. */
  lemma SyncedReplayable(w: World, cs: seq<Command>)
    requires Sound(w, cs, |cs|)
    ensures Replayable(w, cs, |cs|)
    ensures forall m :: Promised(w, cs, |cs|, m) <==> m == w.data
  {
    hide LogOf, AppliedAll, AllLoggable, Applied;
    ReplayIdempotent(Base(w.disk), cs);
    assert cs[..|cs|] == cs;
  }

  /** The snapshot in use in each state of a checkpoint: the old one, none once a sole backup is gone, the new one. */
  ghost function BaseAt(w: World, i: nat): Data {
    if i <= 2 then Base(w.disk)
    else if i <= 4 then if w.disk.primary.Some? || w.disk.backup.None? then Base(w.disk) else map[]
    else w.data
  }

  /** What each state of a checkpoint is, up to a crash. */
  lemma CheckpointState(w: World, i: nat, e: Disk)
    requires Readable(w.disk) && i < |CheckpointTrace(w.disk, w.data)|
    requires Crashed(CheckpointTrace(w.disk, w.data)[i], e)
    ensures i < 10 && Readable(e) && Base(e) == BaseAt(w, i)
    ensures e.wal <= (if i < 7 then w.disk.wal else if i < 9 then w.disk.wal + LogOf([Checkpoint]) else [])
    ensures i < 8 ==> e.synced == w.disk.synced <= |e.wal|
    ensures i == 8 ==> e.wal == w.disk.wal + LogOf([Checkpoint]) && e.synced == |e.wal|
    ensures i == 9 ==> e.synced == 0
  {
    hide LogOf;
  }

  /** Whatever state of a checkpoint a crash catches, what opens is sound: a prefix of the log is left, or none. */
  lemma CheckpointCrashSound(w: World, cs: seq<Command>, n: nat, i: nat, e: Disk, v: World)
    returns (ds: seq<Command>, m: nat)
    requires Sound(w, cs, n) && i < |CheckpointTrace(w.disk, w.data)|
    requires Crashed(CheckpointTrace(w.disk, w.data)[i], e) && Opens(e, v)
    ensures i < 10 && Sound(v, ds, m) && Base(v.disk) == BaseAt(w, i)
    ensures i < 8 ==> forall j :: m <= j <= |ds| ==> n <= j <= |cs| + 1 && ds[..j] == (cs + [Checkpoint])[..j]
    ensures i == 8 ==> ds == cs + [Checkpoint] && m == |ds|
    ensures i == 9 ==> ds == []
  {
    hide Encoded, Framed, AppliedAll, Opens, Applied, LogOf, AllLoggable, CheckpointTrace, Crashed, BaseAt, Base;
    var marked := cs + [Checkpoint];
    CheckpointState(w, i, e);
    CheckpointLoggable();
    LoggableJoin(cs, [Checkpoint]);
    LogParts(cs, [Checkpoint]);
    assert marked[..n] == cs[..n] && marked[..|marked|] == marked;
    LogGrows(marked, n, |marked|);
    if i == 9 {
      ds, m := [], 0;
      NoneLoggable(ds);
      OpensOnAll(e, ds, m, v);
    } else {
      var sure := if i < 8 then n else |marked|;
      var k;
      k, m := OpensOnPrefix(e, marked, sure, sure, v);
      ds := marked[..k];
      assert forall j :: m <= j <= |ds| ==> ds[..j] == marked[..j];
    }
  }

  /** The condition on the state a crash catches: only the states around the publication ask for one. */
  ghost predicate Fit(w: World, cs: seq<Command>, n: nat, i: nat)
    requires n <= |cs|
  {
    (3 <= i <= 4 ==> Restorable(w, cs, n)) && (5 <= i <= 7 ==> Replayable(w, cs, n))
  }

  lemma BasePromised(w: World, cs: seq<Command>, n: nat, i: nat, j: nat)
    requires n <= j <= |cs| && i < 8 && Fit(w, cs, n, i)
    ensures Promised(w, cs, n, AppliedAll(BaseAt(w, i), cs[..j]))
  {
    hide AppliedAll, Base;
  }

  lemma MarkIgnored(m: Data, cs: seq<Command>, j: nat)
    requires j <= |cs| + 1
    ensures AppliedAll(m, (cs + [Checkpoint])[..j]) == AppliedAll(m, cs[..if j <= |cs| then j else |cs|])
  {
    if j <= |cs| {
      assert (cs + [Checkpoint])[..j] == cs[..j];
    } else {
      assert (cs + [Checkpoint])[..j] == cs + [Checkpoint] && cs[..|cs|] == cs;
      assert (cs + [Checkpoint])[..|cs|] == cs;
    }
  }

  lemma CheckpointLoggable()
    ensures AllLoggable([Checkpoint])
  {
  }

  lemma NoneLoggable(cs: seq<Command>)
    requires cs == []
    ensures AllLoggable(cs) && LogOf(cs) == [] && LogOf(cs[..0]) == []
  {
    NoCommands(map[]);
    assert cs[..0] == cs;
  }

  lemma NoCommands(m: Data)
    ensures LogOf([]) == [] && AppliedAll(m, []) == m
  {
    assert Payloads([]) == [];
  }

  /** A crash in a state that is fit for it recovers a promised state, and so will any further crash. */
  lemma CheckpointCrashSafe(w: World, cs: seq<Command>, n: nat, i: nat, e: Disk, v: World)
    returns (ds: seq<Command>, m: nat)
    requires Sound(w, cs, n) && Fit(w, cs, n, i) && i < |CheckpointTrace(w.disk, w.data)|
    requires Crashed(CheckpointTrace(w.disk, w.data)[i], e) && Opens(e, v)
    ensures Sound(v, ds, m) && Promised(w, cs, n, v.data)
    ensures forall j :: m <= j <= |ds| ==> Promised(w, cs, n, AppliedAll(Base(v.disk), ds[..j]))
  {
    hide Encoded, Framed, AppliedAll, Opens, Applied, LogOf, AllLoggable, CheckpointTrace, Crashed, BaseAt, Base;
    hide Promised, Fit, Restorable, Replayable;
    ds, m := CheckpointCrashSound(w, cs, n, i, e, v);
    DataPromised(w, cs, n);
    forall j | m <= j <= |ds|
      ensures Promised(w, cs, n, AppliedAll(Base(v.disk), ds[..j]))
    {
      if i < 8 {
        MarkIgnored(BaseAt(w, i), cs, j);
        BasePromised(w, cs, n, i, if j <= |cs| then j else |cs|);
      } else {
        NewBaseKeeps(w, cs, i, ds, j);
      }
    }
    assert ds[..|ds|] == ds;
  }

  lemma DataPromised(w: World, cs: seq<Command>, n: nat)
    requires Sound(w, cs, n)
    ensures Promised(w, cs, n, w.data)
  {
    hide LogOf, AppliedAll, AllLoggable;
    assert cs[..|cs|] == cs;
  }

  /** Once the mark is synced, or the log reset, opening gives the data. */
  lemma NewBaseKeeps(w: World, cs: seq<Command>, i: nat, ds: seq<Command>, j: nat)
    requires w.data == AppliedAll(Base(w.disk), cs) && 8 <= i < 10 && j == |ds|
    requires (i == 8 ==> ds == cs + [Checkpoint]) && (i == 9 ==> ds == [])
    ensures AppliedAll(BaseAt(w, i), ds[..j]) == w.data
  {
    hide AppliedAll, Base;
    assert ds[..j] == ds;
    NoCommands(w.data);
    MarkIgnored(w.data, cs, |cs| + 1);
    assert (cs + [Checkpoint])[..|cs| + 1] == cs + [Checkpoint] && cs[..|cs|] == cs;
    ReplayIdempotent(Base(w.disk), cs);
  }

  /** Whatever a crash in state `i` leaves, opening recovers a state that was promised. */
  ghost predicate StateKeepsPromise(w: World, cs: seq<Command>, n: nat, i: nat)
    requires n <= |cs| && i < |CheckpointTrace(w.disk, w.data)|
  {
    forall e, v :: Crashed(CheckpointTrace(w.disk, w.data)[i], e) && Opens(e, v) ==> Promised(w, cs, n, v.data)
  }

  /** Exactly when a checkpoint may crash in a given state. */
  lemma StateSafeIff(w: World, cs: seq<Command>, n: nat, i: nat)
    requires Sound(w, cs, n) && i < |CheckpointTrace(w.disk, w.data)|
    ensures StateKeepsPromise(w, cs, n, i) <==> Fit(w, cs, n, i)
  {
    hide CheckpointTrace, Opens, Crashed, Promised, LogOf, AllLoggable, Restorable, Replayable, AppliedAll, Base;
    if Fit(w, cs, n, i) {
      forall e, v | Crashed(CheckpointTrace(w.disk, w.data)[i], e) && Opens(e, v)
        ensures Promised(w, cs, n, v.data)
      {
        var ds, m := CheckpointCrashSafe(w, cs, n, i, e, v);
      }
    } else {
      var k := Unpromised(w, cs, n, i);
      var e, v := CutAt(w, cs, n, i, k);
    }
  }

  /** The part of the log whose survival breaks the promise. */
  lemma Unpromised(w: World, cs: seq<Command>, n: nat, i: nat) returns (k: nat)
    requires n <= |cs| && !Fit(w, cs, n, i)
    ensures 3 <= i <= 7 && n <= k <= |cs| && !Promised(w, cs, n, AppliedAll(BaseAt(w, i), cs[..k]))
  {
    hide Promised, AppliedAll, Base;
    if i <= 4 {
      k :| n <= k <= |cs| && !Promised(w, cs, n, AppliedAll(map[], cs[..k]));
    } else {
      k :| n <= k <= |cs| && !Promised(w, cs, n, AppliedAll(w.data, cs[..k]));
    }
  }

  /** A crash in a state before the mark is synced may leave the log at any command from `n` on. */
  lemma CutAt(w: World, cs: seq<Command>, n: nat, i: nat, k: nat) returns (e: Disk, v: World)
    requires Sound(w, cs, n) && i < 8 && n <= k <= |cs| && i < |CheckpointTrace(w.disk, w.data)|
    ensures Crashed(CheckpointTrace(w.disk, w.data)[i], e) && Opens(e, v)
    ensures v.data == AppliedAll(BaseAt(w, i), cs[..k])
  {
    hide Encoded, Framed, LogOf, AppliedAll, Opens, AllLoggable, Applied;
    LogGrows(cs, n, k);
    e := CheckpointTrace(w.disk, w.data)[i].(wal := LogOf(cs[..k]));
    CheckpointState(w, i, e);
    v := OpensAt(e, cs, n, k);
  }

  lemma OpensAt(e: Disk, cs: seq<Command>, n: nat, k: nat) returns (v: World)
    requires AllLoggable(cs) && n <= k <= |cs| && e.wal == LogOf(cs[..k]) && e.synced == |LogOf(cs[..n])|
    requires Readable(e)
    ensures Opens(e, v) && v.data == AppliedAll(Base(e), cs[..k])
  {
    hide Encoded, Framed, LogOf, AppliedAll, Opens, Loggable;
    assert AllLoggable(cs[..k]);
    assert cs[..k][..n] == cs[..n];
    v := OpenSucceeds(e, cs[..k]);
    OpensOnAll(e, cs[..k], n, v);
  }

  /** Whatever state of the checkpoint a crash catches, opening recovers a state that was promised. */
  ghost predicate KeepsPromise(w: World, cs: seq<Command>, n: nat)
    requires n <= |cs|
  {
    forall i :: 0 <= i < |CheckpointTrace(w.disk, w.data)| ==> StateKeepsPromise(w, cs, n, i)
  }

  /** Exactly when a checkpoint may crash anywhere. */
  lemma CheckpointSafeIff(w: World, cs: seq<Command>, n: nat)
    requires Sound(w, cs, n)
    ensures KeepsPromise(w, cs, n) <==> Restorable(w, cs, n) && Replayable(w, cs, n)
  {
    hide StateKeepsPromise, Restorable, Replayable, LogOf, AllLoggable, AppliedAll, Base, CheckpointTrace;
    TraceLength(w.disk, w.data);
    forall i | 0 <= i < |CheckpointTrace(w.disk, w.data)|
      ensures StateKeepsPromise(w, cs, n, i) <==> Fit(w, cs, n, i)
    {
      StateSafeIff(w, cs, n, i);
    }
    if KeepsPromise(w, cs, n) {
      assert Fit(w, cs, n, 3) && Fit(w, cs, n, 5);
    }
  }

  lemma TraceLength(d: Disk, data: Data)
    ensures |CheckpointTrace(d, data)| == 10
  {
  }

  /** What a caller can look at: the log is synced, and the main snapshot is there or none is. */
  lemma CheckpointGuard(w: World, cs: seq<Command>, n: nat)
    requires Sound(w, cs, n) && w.disk.synced == |w.disk.wal| && (w.disk.primary.Some? || w.disk.backup.None?)
    ensures n == |cs| && KeepsPromise(w, cs, n)
    ensures forall m :: Promised(w, cs, n, m) <==> m == w.data
  {
    hide LogOf, AllLoggable, AppliedAll, Base, KeepsPromise, Promised;
    SyncedAll(cs, n);
    SyncedReplayable(w, cs);
    CheckpointSafeIff(w, cs, n);
  }

  lemma SyncedAll(cs: seq<Command>, n: nat)
    requires n <= |cs| && |LogOf(cs[..n])| == |LogOf(cs)|
    ensures n == |cs|
  {
    hide Encoded;
    assert cs[..|cs|] == cs;
    if n < |cs| {
      LogLonger(cs, n, |cs|);
    }
  }

  lemma LogLonger(cs: seq<Command>, n: nat, m: nat)
    requires n < m <= |cs|
    ensures |LogOf(cs[..n])| < |LogOf(cs[..m])|
  {
    hide Encoded, LogOf;
    LogParts(cs[..n], cs[n..m]);
    assert cs[..m] == cs[..n] + cs[n..m];
    LogNotEmpty(cs[n..m]);
  }

  lemma LogNotEmpty(cs: seq<Command>)
    requires cs != []
    ensures LogOf(cs) != []
  {
    hide Encoded;
  }
}
