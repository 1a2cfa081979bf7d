/** The transaction log, what it says was committed, and what replaying it rebuilds. */
module MvccLog {
  import opened Bytes
  import opened Keys
  import opened MvccVersions

  datatype Record =
    | Begin(txn: nat, snapshot: nat)
    | Set(txn: nat, key: Key, value: Value)
    | Delete(txn: nat, key: Key)
    | Commit(txn: nat, commitTs: nat)
    | Abort(txn: nat)

  type Log = seq<Record>

  // ----- What a log says, transaction by transaction -----

  ghost function Wrote(before: Writes, r: Record, txn: nat): Writes {
    if r.Set? && r.txn == txn then before[r.key := Some(r.value)]
    else if r.Delete? && r.txn == txn then before[r.key := None]
    else before
  }

  /** The last write of `txn` to each key, whatever else happened in between. */
  ghost function WritesOf(log: Log, txn: nat): Writes {
    if log == [] then map[] else Wrote(WritesOf(log[..|log| - 1], txn), log[|log| - 1], txn)
  }

  /** The write sets of the committed transactions, in commit order. */
  ghost function Hist(log: Log): History {
    if log == [] then []
    else
      var before, r := log[..|log| - 1], log[|log| - 1];
      if r.Commit? then Hist(before) + [WritesOf(before, r.txn)] else Hist(before)
  }

  /** Transactions begun and neither committed nor aborted. */
  ghost function Live(log: Log): set<nat> {
    if log == [] then {}
    else
      var before, r := Live(log[..|log| - 1]), log[|log| - 1];
      match r
      case Begin(t, _) => before + {t}
      case Commit(t, _) => before - {t}
      case Abort(t) => before - {t}
      case _ => before
  }

  /** The largest transaction id begun. */
  ghost function MaxId(log: Log): nat {
    if log == [] then 0
    else
      var before, r := MaxId(log[..|log| - 1]), log[|log| - 1];
      if r.Begin? && r.txn > before then r.txn else before
  }

  /** `r` may follow `log`: ids grow, writes and ends belong to live transactions, timestamps count up. */
  ghost predicate MayFollow(log: Log, r: Record) {
    match r
    case Begin(t, _) => t > MaxId(log) && t < U64_LIMIT - 1
    case Commit(t, ts) => t in Live(log) && ts == |Hist(log)| + 1
    case _ => r.txn in Live(log)
  }

  ghost predicate Proper(log: Log) {
    log != [] ==> Proper(log[..|log| - 1]) && MayFollow(log[..|log| - 1], log[|log| - 1])
  }

  lemma {:induction false} ProperPrefix(log: Log, cut: nat)
    requires Proper(log) && cut <= |log|
    ensures Proper(log[..cut])
  {
    if cut < |log| {
      ProperPrefix(log[..|log| - 1], cut);
      assert log[..|log| - 1][..cut] == log[..cut];
    } else {
      assert log[..cut] == log;
    }
  }

  /** A longer log keeps the commits of a shorter one and knows at least its ids. */
  lemma {:induction false} LogGrows(log: Log, cut: nat)
    requires cut <= |log|
    ensures Hist(log[..cut]) <= Hist(log) && MaxId(log[..cut]) <= MaxId(log)
  {
    if cut < |log| {
      LogGrows(log[..|log| - 1], cut);
      assert log[..|log| - 1][..cut] == log[..cut];
    } else {
      assert log[..cut] == log;
    }
  }

  lemma {:induction false} LiveBelowMax(log: Log)
    requires Proper(log)
    ensures forall t :: t in Live(log) ==> t <= MaxId(log)
    ensures MaxId(log) < U64_LIMIT - 1
  {
    if log != [] {
      LiveBelowMax(log[..|log| - 1]);
    }
  }

  lemma {:induction false} NoWritesYet(log: Log, t: nat)
    requires Proper(log) && t > MaxId(log)
    ensures WritesOf(log, t) == map[]
  {
    if log != [] {
      NoWritesYet(log[..|log| - 1], t);
      LiveBelowMax(log[..|log| - 1]);
    }
  }

  lemma Extend(log: Log, r: Record)
    requires Proper(log) && MayFollow(log, r)
    ensures Proper(log + [r]) && (log + [r])[..|log|] == log
    ensures Hist(log + [r]) == if r.Commit? then Hist(log) + [WritesOf(log, r.txn)] else Hist(log)
    ensures MaxId(log + [r]) == if r.Begin? then r.txn else MaxId(log)
    ensures Live(log + [r]) ==
      if r.Begin? then Live(log) + {r.txn} else if r.Commit? || r.Abort? then Live(log) - {r.txn} else Live(log)
    ensures forall t :: WritesOf(log + [r], t) == Wrote(WritesOf(log, t), r, t)
  {
    hide Proper, MayFollow, Hist, MaxId, Live, WritesOf, Wrote;
    ExtendProper(log, r);
    ExtendHist(log, r);
    ExtendIds(log, r);
    forall t: nat
      ensures WritesOf(log + [r], t) == Wrote(WritesOf(log, t), r, t)
    {
      ExtendWrites(log, r, t);
    }
  }

  lemma ExtendProper(log: Log, r: Record)
    requires Proper(log) && MayFollow(log, r)
    ensures Proper(log + [r]) && (log + [r])[..|log|] == log
  {
    hide MayFollow;
    assert (log + [r])[..|log|] == log;
  }

  lemma ExtendHist(log: Log, r: Record)
    ensures Hist(log + [r]) == if r.Commit? then Hist(log) + [WritesOf(log, r.txn)] else Hist(log)
  {
    hide WritesOf;
    assert (log + [r])[..|log|] == log;
  }

  lemma ExtendIds(log: Log, r: Record)
    requires MayFollow(log, r)
    ensures MaxId(log + [r]) == if r.Begin? then r.txn else MaxId(log)
    ensures Live(log + [r]) ==
      if r.Begin? then Live(log) + {r.txn} else if r.Commit? || r.Abort? then Live(log) - {r.txn} else Live(log)
  {
    hide Hist;
    assert (log + [r])[..|log|] == log;
  }

  lemma ExtendWrites(log: Log, r: Record, t: nat)
    ensures WritesOf(log + [r], t) == Wrote(WritesOf(log, t), r, t)
  {
    hide Wrote;
    assert (log + [r])[..|log|] == log;
  }

  // ----- Replay -----

  datatype Recovery = Recovery(
    versions: Versions, pending: map<nat, Writes>, begun: map<nat, nat>, maxTxn: nat, commitTs: nat)

  datatype Outcome<+T> = Ok(value: T) | UnknownTransaction | TimestampsNotIncreasing | IdsExhausted

  function Pending(rec: Recovery, txn: nat): Writes {
    if txn in rec.pending then rec.pending[txn] else map[]
  }

  /** One turn of the replay loop. */
  function Replayed(rec: Recovery, r: Record): Outcome<Recovery> {
    match r
    case Begin(txn, snapshot) =>
      Ok(rec.(maxTxn := if txn > rec.maxTxn then txn else rec.maxTxn,
              begun := rec.begun[txn := snapshot],
              pending := rec.pending[txn := Pending(rec, txn)]))
    case Set(txn, key, value) =>
      if txn !in rec.begun then UnknownTransaction
      else Ok(rec.(pending := rec.pending[txn := Pending(rec, txn)[key := Some(value)]]))
    case Delete(txn, key) =>
      if txn !in rec.begun then UnknownTransaction
      else Ok(rec.(pending := rec.pending[txn := Pending(rec, txn)[key := None]]))
    case Commit(txn, ts) =>
      if txn !in rec.begun then UnknownTransaction
      else if ts <= rec.commitTs then TimestampsNotIncreasing
      else Ok(rec.(versions := Applied(rec.versions, Pending(rec, txn), ts),
                   pending := rec.pending - {txn}, begun := rec.begun - {txn}, commitTs := ts))
    case Abort(txn) =>
      Ok(rec.(pending := rec.pending - {txn}, begun := rec.begun - {txn}))
  }

  function ReplayedAll(log: Log): Outcome<Recovery> {
    if log == [] then Ok(Recovery(map[], map[], map[], 0, 0))
    else
      var before := ReplayedAll(log[..|log| - 1]);
      if before.Ok? then Replayed(before.value, log[|log| - 1]) else before
  }

  /** Replay has rebuilt what the log says. */
  ghost predicate Rebuilt(rec: Recovery, log: Log) {
    && rec.commitTs == |Hist(log)| && rec.maxTxn == MaxId(log)
    && rec.begun.Keys == Live(log) && rec.pending.Keys == Live(log)
    && (forall t :: t in Live(log) ==> rec.pending[t] == WritesOf(log, t))
    && Faithful(rec.versions, Hist(log), 0)
  }

  lemma {:induction false} ReplayRebuilds(log: Log)
    requires Proper(log)
    ensures ReplayedAll(log).Ok? && Rebuilt(ReplayedAll(log).value, log)
  {
    if log == [] {
      NothingFaithful();
    } else {
      var before, r := log[..|log| - 1], log[|log| - 1];
      ReplayRebuilds(before);
      assert before + [r] == log;
      ReplayStep(ReplayedAll(before).value, before, r);
    }
  }

  lemma ReplayStep(rec: Recovery, log: Log, r: Record)
    requires Proper(log) && Rebuilt(rec, log) && MayFollow(log, r)
    ensures Replayed(rec, r).Ok? && Rebuilt(Replayed(rec, r).value, log + [r])
  {
    hide Faithful, Applied, Proper, Hist, WritesOf, Live, MaxId;
    LiveBelowMax(log);
    Extend(log, r);
    if r.Begin? {
      NoWritesYet(log, r.txn);
    } else if r.Commit? {
      AppliedFaithful(rec.versions, Hist(log), 0, WritesOf(log, r.txn));
    }
  }

  /** The loop of `open`. */
  method Replay(log: Log) returns (r: Outcome<Recovery>)
    ensures r == ReplayedAll(log)
  {
    var rec := Recovery(map[], map[], map[], 0, 0);
    for i := 0 to |log|
      invariant ReplayedAll(log[..i]) == Ok(rec)
    {
      assert log[..i + 1][..i] == log[..i];
      r := Replayed(rec, log[i]);
      if !r.Ok? {
        ReplayStuck(log, i + 1);
        return;
      }
      rec := r.value;
    }
    assert log[..|log|] == log;
    return Ok(rec);
  }

  lemma {:induction false} ReplayStuck(log: Log, cut: nat)
    requires cut <= |log| && !ReplayedAll(log[..cut]).Ok?
    ensures ReplayedAll(log) == ReplayedAll(log[..cut])
    decreases |log| - cut
  {
    if cut < |log| {
      assert log[..cut + 1][..cut] == log[..cut];
      ReplayStuck(log, cut + 1);
    } else {
      assert log[..cut] == log;
    }
  }
}
