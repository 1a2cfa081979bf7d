/** What opening recovers over whole runs of batches, checkpoints and crashes. */
module StoreRuns {
  import opened Bytes
  import opened Keys
  import opened Commands
  import opened Wal
  import opened StoreDisk

  /**
   * A call that returns (a checkpoint may be refused over a node too large for a page),
   * or a crash in the state its trace has at `at`.
   */
  datatype Step =
    | Batch(commands: seq<Command>)
    | Checkpointing
    | RefusedCheckpoint
    | CrashInBatch(commands: seq<Command>, at: nat)
    | CrashInCheckpoint(at: nat)

  ghost function TraceOf(w: World, step: Step): seq<Disk> {
    if step.Batch? || step.CrashInBatch? then BatchTrace(w.disk, step.commands) else CheckpointTrace(w.disk, w.data)
  }

  ghost predicate CrashLeads(d: Disk, v: World) {
    exists e :: Crashed(d, e) && Opens(e, v)
  }

  ghost predicate Leads(w: World, step: Step, v: World) {
    var trace := TraceOf(w, step);
    match step
    case Batch(cs) => AllLoggable(cs) && v == World(trace[|trace| - 1], AppliedAll(w.data, cs))
    case Checkpointing => v == World(trace[|trace| - 1], w.data)
    case RefusedCheckpoint => v == w.(disk := w.disk.(temp := Some(Torn)))
    case CrashInBatch(cs, at) => AllLoggable(cs) && at < |trace| && CrashLeads(trace[at], v)
    case CrashInCheckpoint(at) => at < |trace| && CrashLeads(trace[at], v)
  }

  /** No checkpoint crashes in a state that is not fit for it. */
  ghost predicate Careful(w: World, step: Step) {
    step.CrashInCheckpoint? ==> exists cs, n: nat :: Sound(w, cs, n) && Fit(w, cs, n, step.at)
  }

  function Fresh(): World {
    World(Disk(None, None, None, [], 0), map[])
  }

  ghost predicate Run(ws: seq<World>, steps: seq<Step>) {
    && |ws| == |steps| + 1 && ws[0] == Fresh()
    && (forall i :: 0 <= i < |steps| ==> Leads(ws[i], steps[i], ws[i + 1]))
  }

  ghost predicate CarefulRun(ws: seq<World>, steps: seq<Step>) {
    Run(ws, steps) && forall i :: 0 <= i < |steps| ==> Careful(ws[i], steps[i])
  }

  /** What a step may add to the data: all of an acknowledged batch, a first part of one cut short. */
  ghost predicate MayAdd(step: Step, part: seq<Command>) {
    match step
    case Batch(cs) => part == cs
    case CrashInBatch(cs, at) => part <= cs && (at == |cs| ==> part == cs)
    case _ => part == []
  }

  function Joined(parts: seq<seq<Command>>): seq<Command> {
    if parts == [] then [] else Joined(parts[..|parts| - 1]) + parts[|parts| - 1]
  }

  /** `m` is what these steps add up to, for some choice of what crashes left of their batches. */
  ghost predicate Explained(steps: seq<Step>, m: Data) {
    exists parts :: Adds(steps, parts) && m == AppliedAll(map[], Joined(parts))
  }

  ghost predicate Adds(steps: seq<Step>, parts: seq<seq<Command>>) {
    |parts| == |steps| && forall i :: 0 <= i < |steps| ==> MayAdd(steps[i], parts[i])
  }

  /** One more step adds `part`. */
  lemma ExplainMore(steps: seq<Step>, m: Data, step: Step, part: seq<Command>)
    requires Explained(steps, m) && MayAdd(step, part)
    ensures Explained(steps + [step], AppliedAll(m, part))
  {
    hide AppliedAll, MayAdd, Applied;
    var parts :| Adds(steps, parts) && m == AppliedAll(map[], Joined(parts));
    AppliedParts(map[], Joined(parts), part);
    assert (parts + [part])[..|parts|] == parts;
    assert Adds(steps + [step], parts + [part]);
  }

  /** Every state a further crash may leave is explained by the steps so far. */
  ghost predicate Accounted(w: World, cs: seq<Command>, n: nat, steps: seq<Step>) {
    && Sound(w, cs, n)
    && forall k :: n <= k <= |cs| ==> Explained(steps, AppliedAll(Base(w.disk), cs[..k]))
  }

  lemma AccountedNow(w: World, cs: seq<Command>, n: nat, steps: seq<Step>)
    requires Accounted(w, cs, n, steps)
    ensures Explained(steps, w.data)
  {
    hide LogOf, AppliedAll, Explained, AllLoggable;
    assert cs[..|cs|] == cs;
  }

  lemma BatchDone(w: World, cs: seq<Command>, n: nat, batch: seq<Command>)
    requires Sound(w, cs, n) && AllLoggable(batch)
    ensures var trace := BatchTrace(w.disk, batch);
      && |trace| == |batch| + 1
      && Sound(World(trace[|trace| - 1], AppliedAll(w.data, batch)), cs + batch, |cs + batch|)
  {
    hide Encoded, Framed, LogOf, AppliedAll, Framable, Applied;
    AppendsAt(w.disk, batch, |batch|);
    LogParts(cs, batch);
    LoggableJoin(cs, batch);
    AppliedParts(Base(w.disk), cs, batch);
    assert (cs + batch)[..|cs + batch|] == cs + batch;
  }

  lemma CheckpointDone(w: World)
    ensures |CheckpointTrace(w.disk, w.data)| == 10
    ensures Sound(World(CheckpointTrace(w.disk, w.data)[9], w.data), [], 0)
  {
    hide Encoded, Framed, LogOf;
    NoneLoggable([]);
    NoCommands(w.data);
  }

  /** A checkpoint that returns leaves the data in the main snapshot alone: no log, no backup, no temporary file. */
  lemma CheckpointExact(w: World, v: World)
    requires Leads(w, Checkpointing, v)
    ensures v.data == w.data && v.disk.primary == Some(Whole(w.data))
    ensures v.disk.wal == [] && v.disk.backup.None? && v.disk.temp.None?
  {
    hide LogOf;
  }

  /** After a call that returned, whatever a crash takes of the log, opening gives exactly the data. */
  lemma QuietCrash(w: World, bs: seq<Command>, b: nat, step: Step, v: World, e: Disk, u: World)
    requires Sound(w, bs, b) && Leads(w, step, v) && (step.Batch? || step.Checkpointing?)
    requires Crashed(v.disk, e) && Opens(e, u)
    ensures u.data == v.data
  {
    hide Encoded, Framed, LogOf, AppliedAll, Applied, BatchTrace, CheckpointTrace, Opens, AllLoggable, Base;
    var cs, n;
    if step.Batch? {
      BatchDone(w, bs, b, step.commands);
      cs, n := bs + step.commands, |bs + step.commands|;
    } else {
      CheckpointDone(w);
      cs, n := [], 0;
    }
    assert cs[..n] == cs;
    assert e == v.disk;
    OpensOnAll(e, cs, n, u);
  }

  lemma BatchStep(w: World, cs: seq<Command>, n: nat, steps: seq<Step>, batch: seq<Command>, v: World)
    requires Accounted(w, cs, n, steps) && Leads(w, Batch(batch), v)
    ensures Accounted(v, cs + batch, |cs + batch|, steps + [Batch(batch)])
  {
    hide Explained, AppliedAll, LogOf, AllLoggable, Applied, BatchTrace;
    BatchDone(w, cs, n, batch);
    AccountedNow(w, cs, n, steps);
    ExplainMore(steps, w.data, Batch(batch), batch);
    assert (cs + batch)[..|cs + batch|] == cs + batch;
  }

  lemma CheckpointStep(w: World, cs: seq<Command>, n: nat, steps: seq<Step>, v: World)
    requires Accounted(w, cs, n, steps) && Leads(w, Checkpointing, v)
    ensures Accounted(v, [], 0, steps + [Checkpointing])
  {
    hide Explained, AppliedAll, LogOf, AllLoggable, Applied, CheckpointTrace;
    CheckpointDone(w);
    AccountedNow(w, cs, n, steps);
    NoCommands(w.data);
    NoCommands(Base(v.disk));
    ExplainMore(steps, w.data, Checkpointing, []);
    var none: seq<Command> := [];
    assert none[..0] == none;
  }

  lemma RefusedStep(w: World, cs: seq<Command>, n: nat, steps: seq<Step>, v: World)
    requires Accounted(w, cs, n, steps) && Leads(w, RefusedCheckpoint, v)
    ensures Accounted(v, cs, n, steps + [RefusedCheckpoint])
  {
    hide Explained, AppliedAll, LogOf, AllLoggable, Applied;
    forall k | n <= k <= |cs|
      ensures Explained(steps + [RefusedCheckpoint], AppliedAll(Base(v.disk), cs[..k]))
    {
      var m := AppliedAll(Base(w.disk), cs[..k]);
      NoCommands(m);
      ExplainMore(steps, m, RefusedCheckpoint, []);
    }
  }

  lemma BatchCrashStep(w: World, cs: seq<Command>, n: nat, steps: seq<Step>, batch: seq<Command>, at: nat, v: World)
    returns (ds: seq<Command>, m: nat)
    requires Accounted(w, cs, n, steps) && Leads(w, CrashInBatch(batch, at), v)
    ensures Accounted(v, ds, m, steps + [CrashInBatch(batch, at)])
  {
    hide Explained, AppliedAll, LogOf, AllLoggable, Applied, BatchTrace, Opens, Crashed;
    var step, all := CrashInBatch(batch, at), cs + batch;
    BatchDone(w, cs, n, batch);
    var e :| Crashed(BatchTrace(w.disk, batch)[at], e) && Opens(e, v);
    var k, sure := BatchCrashSafe(w, cs, n, batch, at, e, v);
    ds, m := all[..k], sure;
    forall j | m <= j <= |ds|
      ensures Explained(steps + [step], AppliedAll(Base(v.disk), ds[..j]))
    {
      assert ds[..j] == all[..j];
      CrashPart(w, cs, n, steps, batch, at, j);
    }
  }

  /** What is left of the log explains itself: a first part of the batch, or less than was there before it. */
  lemma CrashPart(w: World, cs: seq<Command>, n: nat, steps: seq<Step>, batch: seq<Command>, at: nat, j: nat)
    requires Accounted(w, cs, n, steps) && n <= j <= |cs + batch| && (at == |batch| ==> j == |cs + batch|)
    ensures Explained(steps + [CrashInBatch(batch, at)], AppliedAll(Base(w.disk), (cs + batch)[..j]))
  {
    hide Explained, AppliedAll, LogOf, AllLoggable, Applied;
    var step := CrashInBatch(batch, at);
    if j >= |cs| {
      var part := batch[..j - |cs|];
      assert (cs + batch)[..j] == cs + part;
      AppliedParts(Base(w.disk), cs, part);
      AccountedNow(w, cs, n, steps);
      ExplainMore(steps, w.data, step, part);
    } else {
      assert (cs + batch)[..j] == cs[..j];
      var m := AppliedAll(Base(w.disk), cs[..j]);
      NoCommands(m);
      ExplainMore(steps, m, step, []);
    }
  }

  lemma CheckpointCrashStep(w: World, bs: seq<Command>, b: nat, steps: seq<Step>, at: nat, v: World)
    returns (ds: seq<Command>, m: nat)
    requires Accounted(w, bs, b, steps) && Leads(w, CrashInCheckpoint(at), v) && Careful(w, CrashInCheckpoint(at))
    ensures Accounted(v, ds, m, steps + [CrashInCheckpoint(at)])
  {
    hide Explained, AppliedAll, LogOf, AllLoggable, Applied, CheckpointTrace, Opens, Crashed, Fit;
    var step := CrashInCheckpoint(at);
    var cs, n: nat :| Sound(w, cs, n) && Fit(w, cs, n, at);
    SameLog(w, cs, n, bs, b);
    var e :| Crashed(CheckpointTrace(w.disk, w.data)[at], e) && Opens(e, v);
    ds, m := CheckpointCrashSafe(w, cs, n, at, e, v);
    forall j | m <= j <= |ds|
      ensures Explained(steps + [step], AppliedAll(Base(v.disk), ds[..j]))
    {
      var x := AppliedAll(Base(v.disk), ds[..j]);
      var k :| n <= k <= |cs| && x == AppliedAll(Base(w.disk), cs[..k]);
      NoCommands(x);
      ExplainMore(steps, x, step, []);
    }
  }

  /** A log holds only one list of commands. */
  lemma SameLog(w: World, cs: seq<Command>, n: nat, ds: seq<Command>, m: nat)
    requires Sound(w, cs, n) && Sound(w, ds, m)
    ensures cs == ds && n == m
  {
    hide Encoded, Framed, Replays, Decoded, AppliedAll;
    PayloadsFramable(cs);
    PayloadsFramable(ds);
    WholeReplays(Payloads(cs));
    WholeReplays(Payloads(ds));
    ReplayUnique(w.disk.wal, Payloads(cs), |w.disk.wal|, Payloads(ds), |w.disk.wal|);
    PayloadsDecode(cs);
    PayloadsDecode(ds);
    SameLength(cs, n, m);
  }

  lemma SameLength(cs: seq<Command>, n: nat, m: nat)
    requires n <= |cs| && m <= |cs| && |LogOf(cs[..n])| == |LogOf(cs[..m])|
    ensures n == m
  {
    hide Encoded;
    if n < m {
      LogLonger(cs, n, m);
    } else if m < n {
      LogLonger(cs, m, n);
    }
  }

  lemma StepAccounts(w: World, bs: seq<Command>, b: nat, steps: seq<Step>, step: Step, v: World)
    returns (cs: seq<Command>, n: nat)
    requires Accounted(w, bs, b, steps) && Leads(w, step, v) && Careful(w, step)
    ensures Accounted(v, cs, n, steps + [step])
  {
    hide Accounted, Leads, Careful;
    match step
    case Batch(batch) =>
      BatchStep(w, bs, b, steps, batch, v);
      cs, n := bs + batch, |bs + batch|;
    case Checkpointing =>
      CheckpointStep(w, bs, b, steps, v);
      cs, n := [], 0;
    case RefusedCheckpoint =>
      RefusedStep(w, bs, b, steps, v);
      cs, n := bs, b;
    case CrashInBatch(batch, at) =>
      cs, n := BatchCrashStep(w, bs, b, steps, batch, at, v);
    case CrashInCheckpoint(at) =>
      cs, n := CheckpointCrashStep(w, bs, b, steps, at, v);
  }

  lemma {:induction false} RunAccounts(ws: seq<World>, steps: seq<Step>, i: nat) returns (cs: seq<Command>, n: nat)
    requires CarefulRun(ws, steps) && i <= |steps|
    ensures Accounted(ws[i], cs, n, steps[..i])
  {
    hide Accounted, Leads, Careful;
    if i == 0 {
      FreshAccounted();
      cs, n := [], 0;
      assert steps[..0] == [];
    } else {
      var bs, b := RunAccounts(ws, steps, i - 1);
      cs, n := StepAccounts(ws[i - 1], bs, b, steps[..i - 1], steps[i - 1], ws[i]);
      assert steps[..i] == steps[..i - 1] + [steps[i - 1]];
    }
  }

  lemma FreshAccounted()
    ensures Accounted(Fresh(), [], 0, [])
  {
    hide Encoded;
    NoneLoggable([]);
    NoCommands(map[]);
    var none: seq<Command> := [];
    assert none[..0] == none;
    var nothing: seq<seq<Command>> := [];
    assert Adds([], nothing) && Joined(nothing) == [];
    assert Explained([], map[]);
  }

  /**
   * In every careful run the data is, at every point, exactly what the
   * acknowledged batches wrote and first parts of those a crash cut short, in order.
   */
  lemma RunRecovers(ws: seq<World>, steps: seq<Step>, n: nat) returns (parts: seq<seq<Command>>)
    requires CarefulRun(ws, steps) && n <= |steps|
    ensures |parts| == n && forall i :: 0 <= i < n ==> MayAdd(steps[i], parts[i])
    ensures ws[n].data == AppliedAll(map[], Joined(parts))
  {
    hide Accounted, Leads, Careful, AppliedAll, MayAdd, Joined;
    var cs, m := RunAccounts(ws, steps, n);
    AccountedNow(ws[n], cs, m, steps[..n]);
    parts :| Adds(steps[..n], parts) && ws[n].data == AppliedAll(map[], Joined(parts));
    assert forall i :: 0 <= i < n ==> steps[..n][i] == steps[i];
  }

  // ----- Every run, careful or not -----

  /** Whatever data a step may lose, files and memory agree after it. */
  lemma StepSound(w: World, bs: seq<Command>, b: nat, step: Step, v: World) returns (cs: seq<Command>, n: nat)
    requires Sound(w, bs, b) && Leads(w, step, v)
    ensures Sound(v, cs, n)
  {
    hide AppliedAll, LogOf, AllLoggable, Applied, BatchTrace, CheckpointTrace, Opens, Crashed, Base;
    match step
    case Batch(batch) =>
      BatchDone(w, bs, b, batch);
      cs, n := bs + batch, |bs + batch|;
    case Checkpointing =>
      CheckpointDone(w);
      cs, n := [], 0;
    case RefusedCheckpoint =>
      cs, n := bs, b;
      TempIgnored(w);
    case CrashInBatch(batch, at) =>
      var e :| Crashed(BatchTrace(w.disk, batch)[at], e) && Opens(e, v);
      var k, m := BatchCrashSafe(w, bs, b, batch, at, e, v);
      cs, n := (bs + batch)[..k], m;
    case CrashInCheckpoint(at) =>
      var e :| Crashed(CheckpointTrace(w.disk, w.data)[at], e) && Opens(e, v);
      cs, n := CheckpointCrashSound(w, bs, b, at, e, v);
  }

  lemma TempIgnored(w: World)
    ensures Base(w.disk.(temp := Some(Torn))) == Base(w.disk)
  {
  }

  lemma {:induction false} RunSound(ws: seq<World>, steps: seq<Step>, i: nat) returns (cs: seq<Command>, n: nat)
    requires Run(ws, steps) && i <= |steps|
    ensures Sound(ws[i], cs, n)
  {
    hide Sound, Leads;
    if i == 0 {
      FreshAccounted();
      cs, n := [], 0;
    } else {
      var bs, b := RunSound(ws, steps, i - 1);
      cs, n := StepSound(ws[i - 1], bs, b, steps[i - 1], ws[i]);
    }
  }

  /** Whatever state of a call a crash catches, in any run, opening succeeds: data may be lost, the store is not. */
  lemma OpenNeverFails(ws: seq<World>, steps: seq<Step>, n: nat, call: Step, d: Disk, e: Disk) returns (v: World)
    requires Run(ws, steps) && n <= |steps|
    requires call.Checkpointing? || (call.Batch? && AllLoggable(call.commands))
    requires d in TraceOf(ws[n], call) && Crashed(d, e)
    ensures Opens(e, v)
  {
    hide Leads, BatchTrace, CheckpointTrace, AppliedAll, LogOf, Opens, Encoded;
    var cs, m := RunSound(ws, steps, n);
    var more := if call.Batch? then call.commands else [Checkpoint];
    CheckpointLoggable();
    LoggableJoin(cs, more);
    var i :| 0 <= i < |TraceOf(ws[n], call)| && TraceOf(ws[n], call)[i] == d;
    if call.Batch? {
      BatchStates(ws[n].disk, cs, more, i);
    } else {
      CheckpointStates(ws[n], cs, m, d);
    }
    v := OpenSucceeds(e, cs + more);
  }

  lemma CheckpointStates(w: World, cs: seq<Command>, n: nat, d: Disk)
    requires Sound(w, cs, n) && d in CheckpointTrace(w.disk, w.data)
    ensures d.wal <= LogOf(cs + [Checkpoint]) && Readable(d)
  {
    hide Encoded, Framed, AppliedAll, LogOf, AllLoggable;
    LogParts(cs, [Checkpoint]);
  }

  // ----- Why care is needed -----

  /** Two crashed checkpoints in a row can lose an acknowledged write. */
  lemma CarelessRunLoses(key: Key, value: Key) returns (ws: seq<World>, steps: seq<Step>)
    requires Loggable(Set(key, value))
    ensures Run(ws, steps) && |steps| == 4 && steps[0] == Batch([Set(key, value)])
    ensures steps[1] == Checkpointing && steps[2].CrashInCheckpoint? && steps[3].CrashInCheckpoint?
    ensures ws[3].data == map[key := value] && ws[4].data == map[]
  {
    hide Encoded, Framed, LogOf, Opens, Loggable, Crashed;
    var batch := [Set(key, value)];
    var w0 := Fresh();
    FreshAccounted();
    assert AllLoggable(batch);
    BatchDone(w0, [], 0, batch);
    var w1 := World(BatchTrace(w0.disk, batch)[1], AppliedAll(w0.data, batch));
    OneSet(key, value);
    CheckpointDone(w1);
    var w2 := World(CheckpointTrace(w1.disk, w1.data)[9], w1.data);
    var d3 := CheckpointTrace(w2.disk, w2.data)[4];
    var w3 := Reopened(d3, [], 0);
    var d4 := CheckpointTrace(w3.disk, w3.data)[3];
    var w4 := Reopened(d4, [], 0);
    ws := [w0, w1, w2, w3, w4];
    steps := [Batch(batch), Checkpointing, CrashInCheckpoint(4), CrashInCheckpoint(3)];
    assert Leads(w0, steps[0], w1);
    assert Leads(w1, steps[1], w2);
    assert Leads(w2, steps[2], w3);
    assert Leads(w3, steps[3], w4);
  }

  lemma OneSet(key: Key, value: Key)
    ensures AppliedAll(map[], [Set(key, value)]) == map[key := value]
  {
    assert [Set(key, value)][..0] == [];
  }

  /**
   * A batch that a crash left unsynced but readable, a checkpoint, and a power
   * failure that takes the batch out of the log after all: the new snapshot
   * remembers half of it.
   */
  lemma UnsyncedRunMixes(a: Key, b: Key, x: Key, y: Key, z: Key) returns (ws: seq<World>, steps: seq<Step>)
    requires a != b && x != y && Loggable(Set(a, x)) && Loggable(Set(a, y)) && Loggable(Set(b, z))
    ensures Run(ws, steps) && |steps| == 3 && steps[0] == Batch([Set(a, x)])
    ensures steps[1] == CrashInBatch([Set(a, y), Set(b, z)], 1) && steps[2].CrashInCheckpoint?
    ensures ws[3].data == map[a := x, b := z] && !Explained(steps, ws[3].data)
  {
    hide Encoded, Framed, LogOf, Opens, Loggable, Crashed, Explained;
    var first, batch := [Set(a, x)], [Set(a, y), Set(b, z)];
    var cs := first + batch;
    assert AllLoggable(first) && AllLoggable(batch) && AllLoggable(cs);
    assert cs[..1] == first && first[..1] == first;
    var w0 := Fresh();
    FreshAccounted();
    BatchDone(w0, [], 0, first);
    assert [] + first == first;
    var w1 := World(BatchTrace(w0.disk, first)[1], AppliedAll(w0.data, first));
    BatchDone(w1, first, 1, batch);
    AppendsAt(w1.disk, batch, 2);
    LogParts(first, batch);
    assert batch[..2] == batch;
    var d2 := BatchTrace(w1.disk, batch)[1];
    var w2 := Reopened(d2, cs, 1);
    var d3 := CheckpointTrace(w2.disk, w2.data)[6];
    var e3 := d3.(wal := LogOf(first));
    LogGrows(cs, 1, 1);
    CrashKeeps(d3, e3);
    var w3 := OpensAt(e3, cs, 1, 1);
    Mixture(a, b, x, y, z);
    ws := [w0, w1, w2, w3];
    steps := [Batch(first), CrashInBatch(batch, 1), CrashInCheckpoint(6)];
    assert Leads(w0, steps[0], w1);
    assert Leads(w1, steps[1], w2);
    assert Leads(w2, steps[2], w3);
    NotExplained(a, b, x, y, z, steps);
  }

  lemma CrashKeeps(d: Disk, e: Disk)
    requires e == d.(wal := e.wal) && d.synced <= |e.wal| && e.wal <= d.wal
    ensures Crashed(d, e)
  {
  }

  lemma Mixture(a: Key, b: Key, x: Key, y: Key, z: Key)
    requires a != b
    ensures AppliedAll(map[], [Set(a, x)]) == map[a := x]
    ensures AppliedAll(map[], [Set(a, x)] + [Set(a, y), Set(b, z)]) == map[a := y, b := z]
    ensures AppliedAll(map[a := y, b := z], [Set(a, x)]) == map[a := x, b := z]
  {
    OneSet(a, x);
    var cs := [Set(a, x)] + [Set(a, y), Set(b, z)];
    assert cs[..2] == [Set(a, x), Set(a, y)] && cs[..2][..1] == [Set(a, x)];
    assert [Set(a, x)][..0] == [];
  }

  lemma NotExplained(a: Key, b: Key, x: Key, y: Key, z: Key, steps: seq<Step>)
    requires a != b && x != y
    requires steps == [Batch([Set(a, x)]), CrashInBatch([Set(a, y), Set(b, z)], 1), CrashInCheckpoint(6)]
    ensures !Explained(steps, map[a := x, b := z])
  {
    hide AppliedAll, Joined;
    forall parts | Adds(steps, parts)
      ensures AppliedAll(map[], Joined(parts)) != map[a := x, b := z]
    {
      var part := parts[1];
      assert MayAdd(steps[0], parts[0]) && MayAdd(steps[1], part) && MayAdd(steps[2], parts[2]);
      ThreeJoined(parts);
      var cs := [Set(a, x)] + part;
      AppliedAt(map[], cs, a);
      AppliedAt(map[], cs, b);
      LastWords(a, b, x, y, z, part);
    }
  }

  lemma ThreeJoined(parts: seq<seq<Command>>)
    requires |parts| == 3 && parts[2] == []
    ensures Joined(parts) == parts[0] + parts[1]
  {
    assert parts[..2][..1] == parts[..1] && parts[..1][..0] == [];
    assert Joined(parts[..1]) == parts[0];
  }

  /** Without all of the batch `b` is missing; with all of it `a` is `y`. */
  lemma LastWords(a: Key, b: Key, x: Key, y: Key, z: Key, part: seq<Command>)
    requires a != b && part <= [Set(a, y), Set(b, z)]
    ensures var cs := [Set(a, x)] + part;
      |part| < 2 ==> Final(cs, b) == None
    ensures var cs := [Set(a, x)] + part;
      |part| == 2 ==> Final(cs, a) == Some(Some(y))
  {
    var one, two := [Set(a, x)], [Set(a, x), Set(a, y)];
    assert one[..0] == [] && two[..1] == one;
    assert Final([], b) == None;
    assert Final(one, b) == None;
    assert Final(two, b) == None;
    var cs := one + part;
    if |part| == 0 {
      assert cs == one;
    } else if |part| == 1 {
      assert cs == two;
    } else {
      assert cs[..2] == two && cs[2] == Set(b, z);
    }
  }

  /** A crash between records: what is left of the log over the snapshot is what comes back. */
  lemma Reopened(d: Disk, cs: seq<Command>, n: nat) returns (w: World)
    requires AllLoggable(cs) && n <= |cs| && d.wal == LogOf(cs) && d.synced == |LogOf(cs[..n])| && Readable(d)
    ensures CrashLeads(d, w) && w == World(d, AppliedAll(Base(d), cs))
  {
    hide Encoded, Framed, LogOf, AppliedAll, AllLoggable;
    LogGrows(cs, n, |cs|);
    assert cs[..|cs|] == cs;
    w := OpenSucceeds(d, cs);
    OpensOnAll(d, cs, n, w);
    assert Crashed(d, d);
    OpensDisk(d, w);
  }

  lemma OpensDisk(d: Disk, w: World)
    requires Opens(d, w) && w.disk.wal == d.wal
    ensures w.disk == d
  {
  }
}
