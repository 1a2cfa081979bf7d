/** The transaction log as bytes: whatever a crash leaves of them decodes to a prefix of the records. */
module MvccBytes {
  import opened Bytes
  import opened Wal
  import opened MvccLog
  import opened MvccRules
  import opened MvccSafety
  import opened MvccRecords

  /** The log takes the record, and its numbers are 64-bit. */
  ghost predicate Sized(r: Record) {
    RecordFits(r) && NumbersFit(r)
  }

  ghost predicate AllSized(log: Log) {
    forall i :: 0 <= i < |log| ==> Sized(log[i])
  }

  // ----- Every record ever logged fits -----

  ghost predicate WorldFits(w: World) {
    AllSized(w.store.log) && w.store.commitTs < U64_LIMIT
  }

  lemma CallFits(w: World, call: Call)
    requires MvccSafety.Sound(w) && WorldFits(w) && Callable(w, call)
    ensures WorldFits(After(w, call))
  {
    hide MvccSafety.Sound, CanCommit;
    IdsFit(w);
  }

  lemma IdsFit(w: World)
    requires MvccSafety.Sound(w)
    ensures forall id :: id in w.open ==> id < U64_LIMIT && w.open[id].id == id
  {
    hide MvccVersions.Faithful, Hist;
    var low :| Inv(w, low);
    LiveBelowMax(w.store.log);
    forall id | id in w.open
      ensures id < U64_LIMIT && w.open[id].id == id
    {
      assert OpenOk(w, id, low);
    }
  }

  lemma StepFits(w: World, step: Step, v: World)
    requires MvccSafety.Sound(w) && WorldFits(w) && Leads(w, step, v)
    ensures WorldFits(v)
  {
    hide MvccSafety.Sound, After, Callable, Opened, Sized;
    match step
    case Does(call) => CallFits(w, call);
    case Crashes(call, cut) =>
      CallFits(w, call);
      OpenedLog(After(w, call).store.log[..cut], w.store.synced);
      OpenedClock(w, call, cut, v);
  }

  lemma OpenedClock(w: World, call: Call, cut: nat, v: World)
    requires MvccSafety.Sound(w) && Leads(w, Crashes(call, cut), v)
    ensures v.store.commitTs <= After(w, call).store.commitTs
  {
    hide After, Callable, MvccVersions.Faithful, Proper, Hist, MaxId, Live, WritesOf;
    var low :| Inv(w, low);
    var next := CallOk(w, low, call);
    var u := After(w, call);
    Recovered(u.store.log, w.store.synced, cut);
    OpenedLog(u.store.log[..cut], w.store.synced);
    LogGrows(u.store.log, cut);
  }

  lemma {:induction false} RunFits(ws: seq<World>, steps: seq<Step>, i: nat)
    requires Run(ws, steps) && ws[0] == Fresh() && i <= |steps|
    ensures WorldFits(ws[i]) && MvccSafety.Sound(ws[i])
  {
    hide Leads, MvccSafety.Sound, WorldFits;
    if i == 0 {
      FreshFits();
    } else {
      RunFits(ws, steps, i - 1);
      StepFits(ws[i - 1], steps[i - 1], ws[i]);
      StepSound(ws[i - 1], steps[i - 1], ws[i]);
    }
  }

  lemma FreshFits()
    ensures WorldFits(Fresh()) && MvccSafety.Sound(Fresh())
  {
    hide Inv;
    FreshInv();
  }

  /** Every record of every reachable log fits the log and is read back. */
  lemma RecordsReadBack(w: World, i: nat)
    requires Reached(w) && i < |w.store.log|
    ensures Sized(w.store.log[i]) && Framable(Encoded(w.store.log[i]))
    ensures Decoded(Encoded(w.store.log[i])) == Some(w.store.log[i])
  {
    hide Leads, Encoded, Decoded, RecordFits, NumbersFit;
    var ws, steps :| Run(ws, steps) && ws[0] == Fresh() && ws[|steps|] == w;
    RunFits(ws, steps, |steps|);
    var r := w.store.log[i];
    assert Sized(r);
    FitsExact(r);
    RecordRoundTrip(r);
  }

  // ----- From bytes back to records -----

  function EncodedAll(log: Log): (ps: seq<Payload>)
    ensures |ps| == |log|
  {
    seq(|log|, i requires 0 <= i < |log| => Encoded(log[i]))
  }

  /** The decoding loop of `open`. */
  function DecodedAll(ps: seq<Payload>): Option<Log> {
    if ps == [] then Some([])
    else
      match (DecodedAll(ps[..|ps| - 1]), Decoded(ps[|ps| - 1]))
      case (Some(front), Some(r)) => Some(front + [r])
      case _ => None
  }

  lemma {:induction false} DecodesBack(log: Log)
    requires AllSized(log)
    ensures DecodedAll(EncodedAll(log)) == Some(log)
  {
    hide Encoded, Decoded;
    if log != [] {
      var front, r := log[..|log| - 1], log[|log| - 1];
      DecodesBack(front);
      assert Sized(r);
      RecordRoundTrip(r);
      assert EncodedAll(log)[..|log| - 1] == EncodedAll(front);
      assert log == front + [r];
    } else {
      assert EncodedAll(log) == [];
    }
  }

  lemma EncodedFramable(log: Log)
    requires AllSized(log)
    ensures AllFramable(EncodedAll(log))
  {
    hide Encoded, RecordFits;
    forall i | 0 <= i < |log|
      ensures Framable(EncodedAll(log)[i])
    {
      assert Sized(log[i]);
      FitsExact(log[i]);
    }
  }

  lemma EncodedPrefix(log: Log, k: nat)
    requires k <= |log|
    ensures EncodedAll(log)[..k] == EncodedAll(log[..k])
  {
    hide Encoded;
  }

  /**
   * A crash inside any call leaves any bytes of the log from what was synced on.
   * Replay finds whole records, they decode to a prefix of the log, and opening
   * that prefix is what the recovery theorem is about.
   */
  lemma BytesRecover(w: World, call: Call, cut: nat, records: seq<Payload>, valid: nat) returns (k: nat)
    requires Reached(w) && Callable(w, call)
    requires var log := After(w, call).store.log;
      && w.store.synced <= |log| && cut <= |Framed(EncodedAll(log))|
      && |Framed(EncodedAll(log[..w.store.synced]))| <= cut
      && Replays(Framed(EncodedAll(log))[..cut], records, valid)
    ensures var log := After(w, call).store.log;
      && w.store.synced <= k <= |log| && DecodedAll(records) == Some(log[..k])
      && valid == |Framed(EncodedAll(log[..k]))| && Opened(log[..k], w.store.synced).Ok?
  {
    hide Encoded, Framed, Replays, Reached, After, Callable, Opened, Decoded, RecordFits, NumbersFit;
    var v := After(w, call);
    var log, ps := v.store.log, EncodedAll(v.store.log);
    AfterFits(w, call);
    EncodedFramable(log);
    CutReport(ps, cut, records, valid);
    k := |records|;
    EncodedPrefix(log, k);
    EncodedPrefix(log, w.store.synced);
    if k < w.store.synced {
      FramedGrows(ps, k + 1, w.store.synced);
    }
    PrefixSized(log, k);
    DecodesBack(log[..k]);
    RecoveryExact(w, call, k, []);
  }

  lemma PrefixSized(log: Log, k: nat)
    requires AllSized(log) && k <= |log|
    ensures AllSized(log[..k])
  {
    hide Sized;
  }

  lemma AfterFits(w: World, call: Call)
    requires Reached(w) && Callable(w, call)
    ensures AllSized(After(w, call).store.log)
  {
    hide Leads, After, Callable, MvccSafety.Sound, Sized;
    var ws, steps :| Run(ws, steps) && ws[0] == Fresh() && ws[|steps|] == w;
    RunFits(ws, steps, |steps|);
    CallFits(w, call);
  }
}
