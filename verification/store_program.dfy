/** The store as it runs: a log file and snapshot files on disk, a B-tree in memory. */
module StoreProgram {
  import opened Bytes
  import opened Keys
  import opened Commands
  import opened Wal
  import opened BTreeProgram
  import opened TreePages
  import opened TreeLoad
  import opened StoreDisk

  /** A snapshot file: its pages, or a file still being written. */
  datatype SnapshotFile = Complete(pages: seq<Pagers.Page>) | Unfinished

  /** What loading a snapshot file would give. */
  ghost function SnapshotOf(f: SnapshotFile): Snapshot {
    match f
    case Unfinished => Torn
    case Complete(pages) =>
      match LoadedExactly(pages)
      case Loaded(a) => ArenaLinked(pages); Whole(ToMap(LoadedPairs(a)))
      case _ => Torn
  }

  ghost function Shown(f: Option<SnapshotFile>): Option<Snapshot> {
    if f.None? then None else Some(SnapshotOf(f.value))
  }

  /** A complete file is made of whole pages; if it loads, what it loads is an index. Damaged pages do not load. */
  ghost predicate Sane(f: Option<SnapshotFile>) {
    f.Some? && f.value.Complete? ==>
      && (forall i :: 0 <= i < |f.value.pages| ==> |f.value.pages[i]| == Pagers.PAGE_SIZE)
      && (LoadedExactly(f.value.pages).Loaded? ==> exists h: nat :: IsIndexOf(f.value.pages, h))
  }

  ghost predicate IsIndexOf(pages: seq<Pagers.Page>, h: nat) {
    && LoadedExactly(pages).Loaded?
    && var a := LoadedExactly(pages).arena; IsIndex(a.nodes, a.root, a.len, h)
  }

  ghost predicate HoldsIndex(pages: seq<Pagers.Page>, a: Arena, h: nat) {
    && IsIndex(a.nodes, a.root, a.len, h) && |a.nodes| < U64_LIMIT && a.len < U64_LIMIT && Stores(pages, a)
    && forall i :: 0 <= i < |pages| ==> |pages[i]| == Pagers.PAGE_SIZE
  }

  /** A saved index stands for the data its entries spell. */
  lemma IndexShown(pages: seq<Pagers.Page>, a: Arena, h: nat)
    requires HoldsIndex(pages, a, h)
    ensures LoadedExactly(pages) == Loaded(a) && Sane(Some(Complete(pages)))
    ensures SnapshotOf(Complete(pages)) == Whole(ToMap(BTreeShape.Entries(a.nodes, a.nodes[a.root], h)))
  {
    hide IsIndex, Stores, LoadedExactly, Gathered, ToMap, BTreeShape.Entries;
    IndexWhole(a, h);
    SavedIsLoaded(pages, a, h);
    assert IsIndexOf(pages, h);
  }

  lemma IndexWhole(a: Arena, h: nat)
    requires IsIndex(a.nodes, a.root, a.len, h)
    ensures BTreeShape.Whole(a.nodes, a.root, h) && a.root < |a.nodes| && BTreeShape.Tree(a.nodes, a.nodes[a.root], h)
  {
  }

  /** The files, with every state they have been in. */
  class Files {
    var primary: Option<SnapshotFile>
    var backup: Option<SnapshotFile>
    var temp: Option<SnapshotFile>
    var wal: File
    var synced: nat
    ghost var trace: seq<Disk>

    ghost function State(): Disk
      reads this
    {
      Disk(Shown(primary), Shown(backup), Shown(temp), wal, synced)
    }

    ghost predicate Valid()
      reads this
    {
      Sane(primary) && Sane(backup) && Sane(temp)
    }

    /** The files of a store that was never opened. */
    constructor ()
      ensures Valid() && State() == Disk(None, None, None, [], 0) && trace == []
    {
      primary, backup, temp, wal, synced, trace := None, None, None, [], 0, [];
    }

    /** Any change of one file. */
    ghost predicate Becomes(path: seq<Disk>, d: Disk)
      reads this
    {
      Valid() && State() == d && trace == path + [d]
    }

    method RemoveTemp()
      requires Valid()
      modifies this
      ensures Becomes(old(trace), old(State()).(temp := None))
    {
      temp := None;
      trace := trace + [State()];
    }

    method StartTemp()
      requires Valid()
      modifies this
      ensures Becomes(old(trace), old(State()).(temp := Some(Torn)))
    {
      temp := Some(Unfinished);
      trace := trace + [State()];
    }

    method FlushTemp(pages: seq<Pagers.Page>, ghost a: Arena, ghost h: nat)
      requires Valid() && HoldsIndex(pages, a, h)
      modifies this
      ensures Becomes(old(trace), old(State()).(temp := Some(SnapshotOf(Complete(pages)))))
    {
      hide SnapshotOf, HoldsIndex, Sane;
      IndexShown(pages, a, h);
      temp := Some(Complete(pages));
      trace := trace + [State()];
    }

    method RemoveBackup()
      requires Valid()
      modifies this
      ensures Becomes(old(trace), old(State()).(backup := None))
    {
      backup := None;
      trace := trace + [State()];
    }

    /** Moves the main snapshot, if there is one, to the backup's name. */
    method KeepBackup()
      requires Valid()
      modifies this
      ensures Becomes(old(trace),
        if old(primary).Some? then old(State()).(backup := old(State()).primary, primary := None) else old(State()))
    {
      if primary.Some? {
        backup, primary := primary, None;
      }
      trace := trace + [State()];
    }

    method PublishTemp()
      requires Valid()
      modifies this
      ensures Becomes(old(trace), old(State()).(primary := old(State()).temp, temp := None))
    {
      primary, temp := temp, None;
      trace := trace + [State()];
    }

    /** Flushes the temporary file and moves it under the main name, keeping the old one until then. */
    method Publish(pages: seq<Pagers.Page>, ghost a: Arena, ghost h: nat, ghost data: Data)
      requires Valid() && HoldsIndex(pages, a, h) && SnapshotOf(Complete(pages)) == Whole(data)
      modifies this
      ensures Valid() && State() == Saved(old(State()), data)
      ensures trace == old(trace) + PublishTrace(old(State()), data)
    {
      hide SnapshotOf, HoldsIndex, Sane;
      FlushTemp(pages, a, h);
      RemoveBackup();
      KeepBackup();
      PublishTemp();
      RemoveBackup();
      FiveMore(old(trace), PublishTrace(old(State()), data), trace);
    }

    method Append(payload: Payload) returns (ok: bool)
      requires Valid()
      modifies this
      ensures ok == Framable(payload)
      ensures ok ==> Becomes(old(trace), old(State()).(wal := old(wal) + Frame(payload)))
      ensures !ok ==> Valid() && State() == old(State()) && trace == old(trace)
    {
      var file := new WalFile(wal);
      ok := file.Append(payload);
      if ok {
        wal := file.file;
        trace := trace + [State()];
      }
    }

    method Sync()
      requires Valid()
      modifies this
      ensures Becomes(old(trace), old(State()).(synced := |old(wal)|))
    {
      synced := |wal|;
      trace := trace + [State()];
    }

    /** Cuts a torn tail off. */
    method Repair(valid: nat)
      requires Valid() && valid <= |wal|
      modifies this
      ensures Becomes(old(trace), old(State()).(wal := old(wal)[..valid], synced := valid))
    {
      wal, synced := wal[..valid], valid;
      trace := trace + [State()];
    }

    method ResetLog()
      requires Valid()
      modifies this
      ensures Becomes(old(trace), old(State()).(wal := [], synced := 0))
    {
      wal, synced := [], 0;
      trace := trace + [State()];
    }
  }

  /** The batch was logged up to a command too large for the log. */
  ghost predicate StoppedShort(d: Disk, commands: seq<Command>, before: seq<Disk>, after: seq<Disk>) {
    exists n :: 0 <= n < |commands| && !Loggable(commands[n]) && after == before + Appends(d, commands, n)
  }

  lemma ReplayBound(wal: File, records: seq<Payload>, valid: nat)
    requires Replays(wal, records, valid)
    ensures valid <= |wal| && (valid == |wal| ==> wal[..valid] == wal)
  {
  }

  lemma {:induction false} DecodeStuck(ps: seq<Payload>, n: nat)
    requires n <= |ps| && DecodedAll(ps[..n]).None?
    ensures DecodedAll(ps).None?
    decreases |ps| - n
  {
    hide Decoded;
    if n < |ps| {
      assert ps[..n + 1][..n] == ps[..n];
      DecodeStuck(ps, n + 1);
    } else {
      assert ps[..n] == ps;
    }
  }

  lemma NeverOpens(d: Disk, records: seq<Payload>, valid: nat)
    requires Replays(d.wal, records, valid) && DecodedAll(records).None?
    ensures forall w :: !Opens(d, w)
  {
    hide Replays, Decoded;
    forall w
      ensures !Opens(d, w)
    {
      if Opens(d, w) {
        var rs, v :| OpensWith(d, rs, v, w);
        ReplayUnique(d.wal, records, valid, rs, v);
      }
    }
  }

  /** Loading this file would never end. */
  ghost predicate Endless(f: Option<SnapshotFile>) {
    f.Some? && f.value.Complete? && LoadedExactly(f.value.pages).Endless?
  }

  /** The first file that is tried and does not fail is endless. */
  ghost predicate Hangs(files: Files)
    reads files
  {
    || Endless(files.primary)
    || (Endless(files.backup) && (files.primary.None? || SnapshotOf(files.primary.value).Torn?))
  }

  /** The tree of the snapshot in use: the main one, the backup if the main one is damaged or gone, or an empty one. */
  method Load(files: Files) returns (r: LoadOutcome)
    requires files.Valid()
    ensures r.NoReturn? <==> Hangs(files)
    ensures !Hangs(files) ==> (r.Opened? <==> StoreDisk.Loaded(files.State()).Some?)
    ensures r.Opened? ==> StoreDisk.Loaded(files.State()).Some?
    ensures r.Opened? ==>
      fresh(r.index) && r.index.Valid() && r.index.Contents() == StoreDisk.Loaded(files.State()).value
  {
    hide BTreeIndex.Valid, BTreeIndex.Contents, SnapshotOf, LoadedExactly;
    if files.primary.Some? {
      r := LoadExact(files.primary.value);
      if r.Rejected? && files.backup.Some? {
        r := LoadExact(files.backup.value);
      }
    } else if files.backup.Some? {
      r := LoadExact(files.backup.value);
    } else {
      var empty := new BTreeIndex();
      r := Opened(empty);
    }
  }

  /** Reads the pages; a damaged file or one still being written is rejected. */
  method LoadExact(f: SnapshotFile) returns (r: LoadOutcome)
    requires Sane(Some(f))
    ensures r.NoReturn? <==> Endless(Some(f))
    ensures r.Opened? <==> SnapshotOf(f).Whole?
    ensures r.Opened? ==> fresh(r.index) && r.index.Valid() && r.index.Contents() == SnapshotOf(f).data
  {
    hide IsIndex, LoadedExactly, ToMap, BTreeShape.Entries;
    if f.Unfinished? {
      return Rejected;
    }
    r := LoadIndex(f.pages);
    if r.Opened? {
      ghost var h: nat :| IsIndexOf(f.pages, h);
      LoadedShown(f.pages, h);
    }
  }

  /** What a loaded index shows is what its entries spell. */
  lemma LoadedShown(pages: seq<Pagers.Page>, h: nat)
    requires IsIndexOf(pages, h)
    ensures var a := LoadedExactly(pages).arena;
      && BTreeShape.Whole(a.nodes, a.root, h)
      && SnapshotOf(Complete(pages)) == Whole(ToMap(BTreeShape.Entries(a.nodes, a.nodes[a.root], h)))
  {
    hide IsIndex, ArenaFrom, Gathered, ToMap, BTreeShape.Entries;
    var a := LoadedExactly(pages).arena;
    ArenaLinked(pages);
    IndexWhole(a, h);
    IndexPairs(a, h);
  }

  lemma UnfinishedTorn()
    ensures SnapshotOf(Unfinished) == Torn
  {
  }

  datatype Reply = Done | NotAMutation | TooLarge

  class Store {
    const files: Files
    const data: BTreeIndex

    ghost predicate Valid()
      reads this, files, data
    {
      files.Valid() && data.Valid()
    }

    ghost function State(): World
      requires Valid()
      reads this, files, data
    {
      World(files.State(), data.Contents())
    }

    constructor (files: Files, data: BTreeIndex)
      ensures this.files == files && this.data == data
    {
      this.files, this.data := files, data;
    }

    method ApplyMemory(c: Command)
      requires Valid()
      modifies data
      ensures Valid() && data.Contents() == Applied(old(data.Contents()), c)
    {
      ApplyCommand(data, c);
    }

    /**
     * Logs every command, syncs once, then changes memory. A command too large
     * for the log stops the batch with the commands before it logged, unsynced.
     */
    method ApplyBatch(commands: seq<Command>) returns (r: Reply)
      requires Valid()
      modifies files, data
      ensures Valid()
      ensures r.NotAMutation? <==> Checkpoint in commands
      ensures r.NotAMutation? ==> State() == old(State()) && files.trace == old(files.trace)
      ensures r.Done? ==>
        && AllLoggable(commands)
        && files.trace == old(files.trace) + BatchTrace(old(files.State()), commands)
        && State() == World(files.trace[|files.trace| - 1], AppliedAll(old(data.Contents()), commands))
      ensures r.TooLarge? ==> data.Contents() == old(data.Contents())
      ensures r.TooLarge? ==> StoppedShort(old(files.State()), commands, old(files.trace), files.trace)
    {
      hide Encoded, Framed, LogOf, Applied, Framable, BTreeIndex.Valid, BTreeIndex.Contents, SnapshotOf, Sane;
      if Checkpoint in commands {
        return NotAMutation;
      }
      LogNone(old(files.State()));
      for i := 0 to |commands|
        invariant Valid() && data.Contents() == old(data.Contents())
        invariant files.State() == old(files.State()).(wal := old(files.wal) + LogOf(commands[..i]))
        invariant files.trace == old(files.trace) + Appends(old(files.State()), commands, i)
        invariant forall j :: 0 <= j < i ==> Loggable(commands[j])
      {
        var payload := Encode(commands[i]);
        LogNext(commands, i);
        var ok := files.Append(payload);
        if !ok {
          return TooLarge;
        }
      }
      assert commands[..|commands|] == commands;
      files.Sync();
      for i := 0 to |commands|
        invariant Valid()
        invariant files.State() == old(files.State()).(wal := old(files.wal) + LogOf(commands), synced := |files.wal|)
        invariant files.trace == old(files.trace) + BatchTrace(old(files.State()), commands)
        invariant data.Contents() == AppliedAll(old(data.Contents()), commands[..i])
      {
        assert commands[..i + 1][..i] == commands[..i];
        ApplyMemory(commands[i]);
      }
      return Done;
    }

    /** A single mutation is a batch of one. */
    method Apply(c: Command) returns (r: Reply)
      requires Valid() && !c.Checkpoint?
      modifies files, data
      ensures Valid()
      ensures r.Done? <==> Loggable(c)
      ensures r.Done? ==>
        && files.trace == old(files.trace) + BatchTrace(old(files.State()), [c])
        && State() == World(files.trace[|files.trace| - 1], Applied(old(data.Contents()), c))
      ensures !r.Done? ==> r == TooLarge && State() == old(State()) && files.trace == old(files.trace)
    {
      hide Encoded, Framed, Applied, Framable, BTreeIndex.Valid, BTreeIndex.Contents, SnapshotOf, Sane;
      LogOne(c);
      var payload := Encode(c);
      var ok := files.Append(payload);
      if !ok {
        return TooLarge;
      }
      files.Sync();
      OneAppend(old(files.State()), c, old(files.trace), files.trace);
      ApplyMemory(c);
      return Done;
    }

    /**
     * Writes the pages of the tree to a temporary file and publishes it under the
     * main name. If a node does not fit its page nothing is published.
     */
    method Save() returns (ok: bool)
      requires Valid() && Countable(data)
      modifies files
      ensures Valid() && ArenaOk(ArenaOf(data)) && (ok <==> Savable(ArenaOf(data)))
      ensures ok ==> files.State() == Saved(old(files.State()), data.Contents())
      ensures ok ==> files.trace == old(files.trace) + SaveTrace(old(files.State()), data.Contents())
      ensures !ok ==> files.State() == old(files.State()).(temp := Some(Torn))
      ensures !ok ==> files.trace == old(files.trace) + SaveTrace(old(files.State()), data.Contents())[..2]
    {
      hide BTreeIndex.Valid, BTreeIndex.Contents, Savable, ArenaOk, Stores, LoadedExactly, HoldsIndex;
      hide SnapshotOf, Sane, SaveTrace;
      ghost var before, arena := files.trace, ArenaOf(data);
      files.RemoveTemp();
      files.StartTemp();
      UnfinishedTorn();
      SaveStarts(old(files.State()), data.Contents());
      var pages := SaveIndex(data);
      if pages.None? {
        TwoMore(before, SaveTrace(old(files.State()), data.Contents())[..2], files.trace);
        return false;
      }
      PagesShown(data, pages.value);
      files.Publish(pages.value, arena, data.height, data.Contents());
      SaveEnds(old(files.State()), data.Contents(), before, files.trace);
      return true;
    }

    method MakeCheckpoint() returns (ok: bool)
      requires Valid() && Countable(data)
      modifies files
      ensures Valid() && ArenaOk(ArenaOf(data)) && (ok <==> Savable(ArenaOf(data)))
      ensures ok ==> files.trace == old(files.trace) + CheckpointTrace(old(files.State()), data.Contents())
      ensures ok ==> files.State() == files.trace[|files.trace| - 1]
      ensures !ok ==> files.State() == old(files.State()).(temp := Some(Torn))
      ensures !ok ==> files.trace == old(files.trace) + SaveTrace(old(files.State()), data.Contents())[..2]
    {
      hide Framed, Frame, Encoded, LogOf, Framable;
      hide IsIndex, BTreeIndex.Contents, BTreeIndex.Pairs, SaveTrace, Saved, Savable, ArenaOk, Sane, SnapshotOf;
      CheckpointFits();
      var saved := Save();
      if !saved {
        return false;
      }
      ghost var state, before := files.State(), files.trace;
      var payload := Encode(Checkpoint);
      LogOne(Checkpoint);
      ok := files.Append(payload);
      files.Sync();
      files.ResetLog();
      ThreeMore(before, LogTrace(state), files.trace);
    }
  }

  /** The pages of an index stand for its contents. */
  lemma PagesShown(t: BTreeIndex, pages: seq<Pagers.Page>)
    requires t.Valid() && Countable(t) && Stores(pages, ArenaOf(t))
    requires forall i :: 0 <= i < |pages| ==> |pages[i]| == Pagers.PAGE_SIZE
    ensures HoldsIndex(pages, ArenaOf(t), t.height) && SnapshotOf(Complete(pages)) == Whole(t.Contents())
  {
    hide IsIndex, Stores, SnapshotOf, ToMap, BTreeShape.Entries;
    IndexShown(pages, ArenaOf(t), t.height);
  }

  lemma SaveStarts(d: Disk, data: Data)
    ensures |SaveTrace(d, data)| == 7 && SaveTrace(d, data)[..2] == [d.(temp := None), d.(temp := Some(Torn))]
  {
  }

  lemma SaveEnds(d: Disk, data: Data, before: seq<Disk>, after: seq<Disk>)
    requires after
      == before + [d.(temp := None)] + [d.(temp := Some(Torn))] + PublishTrace(d.(temp := Some(Torn)), data)
    ensures after == before + SaveTrace(d, data)
  {
    assert PublishTrace(d.(temp := Some(Torn)), data) == PublishTrace(d, data);
    assert SaveTrace(d, data) == [d.(temp := None)] + [d.(temp := Some(Torn))] + PublishTrace(d, data);
  }

  lemma TwoMore(before: seq<Disk>, more: seq<Disk>, after: seq<Disk>)
    requires |more| == 2 && after == before + [more[0]] + [more[1]]
    ensures after == before + more
  {
  }

  lemma FiveMore(before: seq<Disk>, more: seq<Disk>, after: seq<Disk>)
    requires |more| == 5
    requires after == before + [more[0]] + [more[1]] + [more[2]] + [more[3]] + [more[4]]
    ensures after == before + more
  {
  }

  lemma ThreeMore(before: seq<Disk>, more: seq<Disk>, after: seq<Disk>)
    requires |more| == 3 && after == before + [more[0]] + [more[1]] + [more[2]]
    ensures after == before + more
  {
  }

  lemma LogNone(d: Disk)
    ensures LogOf([]) == [] && d.wal + LogOf([]) == d.wal
  {
    NoCommands(map[]);
  }

  lemma LogNext(cs: seq<Command>, i: nat)
    requires i < |cs|
    ensures LogOf(cs[..i + 1]) == LogOf(cs[..i]) + Frame(Encoded(cs[i]))
  {
    hide Encoded, Frame;
    assert Payloads(cs[..i + 1])[..i] == Payloads(cs[..i]);
  }

  lemma LogOne(c: Command)
    ensures LogOf([c]) == Frame(Encoded(c))
    ensures forall m :: AppliedAll(m, [c]) == Applied(m, c)
  {
    hide Encoded, Frame, Applied;
    NoCommands(map[]);
    LogNext([c], 0);
    assert [c][..1] == [c] && [c][..0] == [];
  }

  lemma CheckpointFits()
    ensures Framable(Encoded(Checkpoint))
  {
  }

  lemma OneAppend(d: Disk, c: Command, before: seq<Disk>, after: seq<Disk>)
    requires var one := d.(wal := d.wal + LogOf([c])); after == before + [one] + [one.(synced := |one.wal|)]
    ensures after == before + BatchTrace(d, [c])
  {
    hide LogOf;
    assert [c][..1] == [c];
    assert Appends(d, [c], 1) == Appends(d, [c], 0) + [d.(wal := d.wal + LogOf([c]))];
  }

  method ApplyCommand(tree: BTreeIndex, c: Command)
    requires tree.Valid()
    modifies tree
    ensures tree.Valid() && tree.Contents() == Applied(old(tree.Contents()), c)
  {
    match c
    case Set(key, value) => tree.Insert(key, value);
    case Delete(key) => var existed := tree.Delete(key);
    case Checkpoint =>
  }

  datatype OpenOutcome = Running(store: Store) | Failed | Stuck

  /** Replays the log over the loaded snapshot; fails if a snapshot or a record cannot be read. */
  method OpenStore(files: Files) returns (r: OpenOutcome)
    requires files.Valid()
    modifies files
    ensures r.Stuck? <==> old(Hangs(files))
    ensures r.Running? ==> fresh(r.store) && fresh(r.store.data) && r.store.files == files
    ensures r.Running? ==> r.store.Valid() && Opens(old(files.State()), r.store.State())
    ensures r.Failed? ==> forall w :: !Opens(old(files.State()), w)
  {
    hide Replays, Decoded, Applied, BTreeIndex.Valid, BTreeIndex.Contents, SnapshotOf, Sane, Hangs;
    var records, truncated, valid := Wal.Replay(files.wal);
    ReplayBound(files.wal, records, valid);
    var tree := Load(files);
    if tree.NoReturn? {
      return Stuck;
    }
    if tree.Rejected? {
      return Failed;
    }
    ghost var base, cs := tree.index.Contents(), [];
    for i := 0 to |records|
      invariant files.Valid() && files.State() == old(files.State()) && fresh(tree.index) && tree.index.Valid()
      invariant DecodedAll(records[..i]) == Some(cs) && tree.index.Contents() == AppliedAll(base, cs)
    {
      assert records[..i + 1][..i] == records[..i];
      var c := Decode(records[i]);
      if c.None? {
        DecodeStuck(records, i + 1);
        NeverOpens(old(files.State()), records, valid);
        return Failed;
      }
      ApplyCommand(tree.index, c.value);
      cs := cs + [c.value];
      assert cs[..|cs| - 1] + [c.value] == cs;
    }
    assert records[..|records|] == records;
    if truncated {
      files.Repair(valid);
    }
    var store := new Store(files, tree.index);
    assert OpensWith(old(files.State()), records, valid, store.State());
    return Running(store);
  }
}
