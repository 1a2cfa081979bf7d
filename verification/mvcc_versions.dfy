/** Version chains against the history of committed write sets; commit `t` wrote `hist[t - 1]`. */
module MvccVersions {
  import opened Bytes
  import opened Keys

  type Value = Key
  type Writes = map<Key, Option<Value>>

  datatype Version = Version(value: Value, createdAt: nat, deletedAt: Option<nat>) {
    predicate VisibleAt(snapshot: nat) {
      createdAt <= snapshot && (deletedAt.Some? ==> deletedAt.value > snapshot)
    }

    function LastModified(): nat {
      var changed := if deletedAt.Some? then deletedAt.value else createdAt;
      if changed < createdAt then createdAt else changed
    }
  }

  type Chain = seq<Version>
  type Versions = map<Key, Chain>

  function ChainOf(versions: Versions, k: Key): Chain {
    if k in versions then versions[k] else []
  }

  /** The newest version visible at `s`. */
  function Visible(chain: Chain, s: nat): Option<Value> {
    if chain == [] then None
    else if chain[|chain| - 1].VisibleAt(s) then Some(chain[|chain| - 1].value)
    else Visible(chain[..|chain| - 1], s)
  }

  function LatestChange(chain: Chain): nat {
    if chain == [] then 0 else chain[|chain| - 1].LastModified()
  }

  /** The end of the newest version, if it was still open. */
  function Closed(chain: Chain, ts: nat): (r: Chain)
    ensures |r| == |chain|
  {
    if chain != [] && chain[|chain| - 1].deletedAt.None?
    then chain[|chain| - 1 := chain[|chain| - 1].(deletedAt := Some(ts))]
    else chain
  }

  /** One write of the commit at `ts`, applied to its key's chain. */
  function Written(chain: Chain, w: Option<Value>, ts: nat): Chain {
    Closed(chain, ts) + (if w.Some? then [Version(w.value, ts, None)] else [])
  }

  /** A whole write set. Deleting a key that has no chain leaves an empty one. */
  function Applied(versions: Versions, writes: Writes, ts: nat): Versions {
    map k | k in versions.Keys + writes.Keys ::
      if k in writes then Written(ChainOf(versions, k), writes[k], ts) else versions[k]
  }

  predicate Dead(v: Version, watermark: nat) {
    v.deletedAt.Some? && v.deletedAt.value < watermark
  }

  /** What collection keeps of a chain. */
  function Kept(chain: Chain, watermark: nat): Chain {
    if chain == [] then []
    else Kept(chain[..|chain| - 1], watermark)
         + (if Dead(chain[|chain| - 1], watermark) then [] else [chain[|chain| - 1]])
  }

  /** Collection keeps exactly the versions that did not end before the watermark. */
  lemma {:induction false} KeptExact(chain: Chain, watermark: nat, v: Version)
    ensures v in Kept(chain, watermark) <==>
      v in chain && !(v.deletedAt.Some? && v.deletedAt.value < watermark)
  {
    if chain != [] {
      KeptExact(chain[..|chain| - 1], watermark, v);
      assert chain == chain[..|chain| - 1] + [chain[|chain| - 1]];
    }
  }

  /** What collection keeps; keys left with no version disappear. */
  function Collected(versions: Versions, watermark: nat): Versions {
    map k | k in versions && Kept(versions[k], watermark) != [] :: Kept(versions[k], watermark)
  }

  // ----- The history -----

  type History = seq<Writes>

  /** The value of `k` after the first `s` commits. */
  function ValueAt(hist: History, s: nat, k: Key): Option<Value>
    requires s <= |hist|
  {
    if s == 0 then None
    else if k in hist[s - 1] then hist[s - 1][k]
    else ValueAt(hist, s - 1, k)
  }

  /** Commit `t` set `k`, or deleted it while it had a value. */
  predicate Effective(hist: History, t: nat, k: Key)
    requires 0 < t <= |hist|
  {
    k in hist[t - 1] && (hist[t - 1][k].Some? || ValueAt(hist, t - 1, k).Some?)
  }

  /** The last commit up to `s` that effectively changed `k`, or 0. */
  function Changed(hist: History, s: nat, k: Key): (t: nat)
    requires s <= |hist|
    ensures t <= s
  {
    if s == 0 then 0
    else if Effective(hist, s, k) then s
    else Changed(hist, s - 1, k)
  }

  lemma {:induction false} ValueAtPrefix(hist: History, longer: History, s: nat, k: Key)
    requires s <= |hist| && hist <= longer
    ensures ValueAt(longer, s, k) == ValueAt(hist, s, k)
    ensures Changed(longer, s, k) == Changed(hist, s, k)
  {
    if s > 0 {
      ValueAtPrefix(hist, longer, s - 1, k);
    }
  }

  lemma {:induction false} ChangedExact(hist: History, s: nat, n: nat, k: Key)
    requires s <= n <= |hist|
    ensures Changed(hist, n, k) > s <==> exists t :: s < t <= n && Effective(hist, t, k)
  {
    if n > 0 && s < n {
      ChangedExact(hist, s, n - 1, k);
    }
  }

  // ----- Chains that tell the history -----

  /** Versions follow one another in time, all up to `now`; only the last may be open. */
  ghost predicate Ordered(chain: Chain, now: nat) {
    && (forall i :: 0 <= i < |chain| ==>
          && 0 < chain[i].createdAt <= now
          && (chain[i].deletedAt.Some? ==> chain[i].createdAt < chain[i].deletedAt.value <= now))
    && (forall i, j :: 0 <= i < j < |chain| ==>
          chain[i].deletedAt.Some? && chain[i].deletedAt.value <= chain[j].createdAt)
  }

  /** Past the last change only a version that has not ended is kept. */
  lemma {:induction false} KeptLast(chain: Chain, now: nat, watermark: nat)
    requires Ordered(chain, now) && now < watermark
    ensures Kept(chain, watermark)
      == if chain == [] || chain[|chain| - 1].deletedAt.Some? then [] else [chain[|chain| - 1]]
  {
    if chain != [] {
      var front, last := chain[..|chain| - 1], chain[|chain| - 1];
      OrderedPart(chain, 0, |front|, now);
      assert chain[0..|front|] == front;
      KeptLast(front, now, watermark);
      if front != [] {
        assert front[|front| - 1] == chain[|front| - 1] && chain[|front| - 1].deletedAt.Some?;
      }
      assert last.deletedAt.Some? ==> last.deletedAt.value < watermark;
    }
  }

  /** The chain shows every snapshot from `low` on, and the last change unless it is before `low`. */
  ghost predicate Tells(chain: Chain, hist: History, k: Key, low: nat) {
    && low <= |hist|
    && Ordered(chain, |hist|)
    && (forall s :: low <= s <= |hist| ==> Visible(chain, s) == ValueAt(hist, s, k))
    && (LatestChange(chain) == Changed(hist, |hist|, k) || (chain == [] && Changed(hist, |hist|, k) <= low))
  }

  ghost predicate Faithful(versions: Versions, hist: History, low: nat) {
    forall k :: Tells(ChainOf(versions, k), hist, k, low)
  }

  lemma {:induction false} NoneVisible(chain: Chain, s: nat)
    requires forall i :: 0 <= i < |chain| ==> !chain[i].VisibleAt(s)
    ensures Visible(chain, s) == None
  {
    if chain != [] {
      NoneVisible(chain[..|chain| - 1], s);
    }
  }

  /** From the last timestamp on, exactly an open last version is visible. */
  lemma VisibleNow(chain: Chain, now: nat, s: nat)
    requires Ordered(chain, now) && now <= s
    ensures Visible(chain, s) ==
      if chain != [] && chain[|chain| - 1].deletedAt.None? then Some(chain[|chain| - 1].value) else None
  {
    if chain == [] || chain[|chain| - 1].deletedAt.Some? {
      NoneVisible(chain, s);
    }
  }

  lemma ClosedVisible(chain: Chain, now: nat, s: nat)
    requires Ordered(chain, now) && s <= now
    ensures Visible(Closed(chain, now + 1), s) == Visible(chain, s)
  {
    if chain != [] && chain[|chain| - 1].deletedAt.None? {
      assert Closed(chain, now + 1)[..|chain| - 1] == chain[..|chain| - 1];
    }
  }

  lemma ClosedOrdered(chain: Chain, now: nat)
    requires Ordered(chain, now)
    ensures Ordered(Closed(chain, now + 1), now + 1)
    ensures Visible(Closed(chain, now + 1), now + 1) == None
    ensures var c := Closed(chain, now + 1); forall i :: 0 <= i < |c| ==> c[i].deletedAt.Some?
  {
    NoneVisible(Closed(chain, now + 1), now + 1);
  }

  lemma WrittenVisible(chain: Chain, w: Option<Value>, now: nat, s: nat)
    requires Ordered(chain, now) && s <= now + 1
    ensures Visible(Written(chain, w, now + 1), s) == if s == now + 1 then w else Visible(chain, s)
  {
    var c := Closed(chain, now + 1);
    ClosedOrdered(chain, now);
    if w.Some? {
      assert Written(chain, w, now + 1)[..|c|] == c;
    } else {
      assert Written(chain, w, now + 1) == c;
    }
    if s <= now {
      ClosedVisible(chain, now, s);
    }
  }

  /** A write extends the story by one commit. */
  lemma WrittenTells(chain: Chain, hist: History, k: Key, low: nat, writes: Writes)
    requires Tells(chain, hist, k, low) && k in writes
    ensures Tells(Written(chain, writes[k], |hist| + 1), hist + [writes], k, low)
  {
    hide Visible, Written;
    var now, longer := |hist|, hist + [writes];
    var next := Written(chain, writes[k], now + 1);
    WrittenOrdered(chain, writes[k], now);
    forall s | low <= s <= now + 1
      ensures Visible(next, s) == ValueAt(longer, s, k)
    {
      WrittenVisible(chain, writes[k], now, s);
      if s <= now {
        ValueAtPrefix(hist, longer, s, k);
      }
    }
    ValueAtPrefix(hist, longer, now, k);
    VisibleNow(chain, now, now);
    WrittenLatest(chain, writes[k], now);
  }

  lemma WrittenOrdered(chain: Chain, w: Option<Value>, now: nat)
    requires Ordered(chain, now)
    ensures Ordered(Written(chain, w, now + 1), now + 1)
  {
    ClosedOrdered(chain, now);
  }

  lemma WrittenLatest(chain: Chain, w: Option<Value>, now: nat)
    requires Ordered(chain, now)
    ensures LatestChange(Written(chain, w, now + 1)) ==
      if w.Some? || (chain != [] && chain[|chain| - 1].deletedAt.None?) then now + 1 else LatestChange(chain)
    ensures Written(chain, w, now + 1) == [] ==> chain == []
  {
    if w.None? {
      assert Written(chain, w, now + 1) == Closed(chain, now + 1);
    }
  }

  /** A commit that does not write `k` leaves its chain true. */
  lemma UnwrittenTells(chain: Chain, hist: History, k: Key, low: nat, writes: Writes)
    requires Tells(chain, hist, k, low) && k !in writes
    ensures Tells(chain, hist + [writes], k, low)
  {
    hide Visible;
    var now, longer := |hist|, hist + [writes];
    forall s | low <= s <= now + 1
      ensures Visible(chain, s) == ValueAt(longer, s, k)
    {
      ValueAtPrefix(hist, longer, if s <= now then s else now, k);
      if s == now + 1 {
        VisibleNow(chain, now, s);
        VisibleNow(chain, now, now);
      }
    }
    ValueAtPrefix(hist, longer, now, k);
  }

  lemma AppliedFaithful(versions: Versions, hist: History, low: nat, writes: Writes)
    requires Faithful(versions, hist, low)
    ensures Faithful(Applied(versions, writes, |hist| + 1), hist + [writes], low)
  {
    hide Tells, Written;
    var after := Applied(versions, writes, |hist| + 1);
    forall k: Key
      ensures Tells(ChainOf(after, k), hist + [writes], k, low)
    {
      var chain := ChainOf(versions, k);
      assert Tells(chain, hist, k, low);
      if k in writes {
        WrittenTells(chain, hist, k, low, writes);
      } else {
        UnwrittenTells(chain, hist, k, low, writes);
      }
    }
  }

  lemma NothingFaithful()
    ensures Faithful(map[], [], 0)
  {
  }

  // ----- Collection -----

  lemma {:induction false} KeptVisible(chain: Chain, watermark: nat, s: nat)
    requires watermark <= s + 1
    ensures Visible(Kept(chain, watermark), s) == Visible(chain, s)
  {
    if chain != [] {
      var t := chain[..|chain| - 1];
      KeptVisible(t, watermark, s);
      if Dead(chain[|chain| - 1], watermark) {
        assert Kept(chain, watermark) == Kept(t, watermark);
      } else {
        assert Kept(chain, watermark)[..|Kept(t, watermark)|] == Kept(t, watermark);
      }
    }
  }

  /** Once the newest version is dead, so are all. */
  lemma {:induction false} KeptNone(chain: Chain, watermark: nat)
    requires forall i :: 0 <= i < |chain| ==> Dead(chain[i], watermark)
    ensures Kept(chain, watermark) == []
  {
    hide Dead;
    if chain != [] {
      KeptNone(chain[..|chain| - 1], watermark);
    }
  }

  lemma AllDead(chain: Chain, watermark: nat, now: nat)
    requires Ordered(chain, now) && chain != [] && Dead(chain[|chain| - 1], watermark)
    ensures forall i :: 0 <= i < |chain| ==> Dead(chain[i], watermark)
  {
  }

  lemma OrderedPart(chain: Chain, from: nat, to: nat, now: nat)
    requires Ordered(chain, now) && from <= to <= |chain|
    ensures Ordered(chain[from..to], now)
  {
    var part := chain[from..to];
    forall i | 0 <= i < |part|
      ensures 0 < part[i].createdAt <= now
      ensures part[i].deletedAt.Some? ==> part[i].createdAt < part[i].deletedAt.value <= now
    {
      assert part[i] == chain[from + i];
    }
    forall i, j | 0 <= i < j < |part|
      ensures part[i].deletedAt.Some? && part[i].deletedAt.value <= part[j].createdAt
    {
      assert part[i] == chain[from + i] && part[j] == chain[from + j];
    }
  }

  /** Collection drops the oldest versions, and all once the newest is dead. */
  lemma {:induction false} KeptSuffix(chain: Chain, watermark: nat, now: nat) returns (n: nat)
    requires Ordered(chain, now)
    ensures n <= |chain| && Kept(chain, watermark) == chain[n..]
    ensures chain != [] && Dead(chain[|chain| - 1], watermark) ==> n == |chain|
    ensures chain != [] && !Dead(chain[|chain| - 1], watermark) ==> n < |chain|
  {
    hide Ordered, Dead;
    if chain == [] {
      n := 0;
    } else if Dead(chain[|chain| - 1], watermark) {
      AllDead(chain, watermark, now);
      KeptNone(chain, watermark);
      n := |chain|;
    } else {
      OrderedPart(chain, 0, |chain| - 1, now);
      assert chain[0..|chain| - 1] == chain[..|chain| - 1];
      n := KeptSuffix(chain[..|chain| - 1], watermark, now);
    }
  }

  lemma KeptTells(chain: Chain, hist: History, k: Key, low: nat, watermark: nat, next: nat)
    requires Tells(chain, hist, k, low) && low <= next <= |hist| && watermark <= next + 1
    ensures Tells(Kept(chain, watermark), hist, k, next)
  {
    hide Ordered, Kept, Visible, ValueAt, Changed;
    var n := KeptSuffix(chain, watermark, |hist|);
    OrderedPart(chain, n, |chain|, |hist|);
    assert chain[n..|chain|] == chain[n..];
    forall s | next <= s <= |hist|
      ensures Visible(Kept(chain, watermark), s) == ValueAt(hist, s, k)
    {
      KeptVisible(chain, watermark, s);
    }
    if chain != [] {
      DeadChange(chain, |hist|, watermark);
    }
  }

  lemma DeadChange(chain: Chain, now: nat, watermark: nat)
    requires Ordered(chain, now) && chain != []
    ensures Dead(chain[|chain| - 1], watermark) ==> LatestChange(chain) < watermark
  {
  }

  lemma CollectedFaithful(versions: Versions, hist: History, low: nat, watermark: nat, next: nat)
    requires Faithful(versions, hist, low) && low <= next <= |hist| && watermark <= next + 1
    ensures Faithful(Collected(versions, watermark), hist, next)
  {
    hide Tells;
    forall k: Key
      ensures Tells(ChainOf(Collected(versions, watermark), k), hist, k, next)
    {
      assert Tells(ChainOf(versions, k), hist, k, low);
      KeptTells(ChainOf(versions, k), hist, k, low, watermark, next);
    }
  }

  /** What a chain says about changes after a snapshot it covers is what happened. */
  lemma ConflictExact(chain: Chain, hist: History, k: Key, low: nat, s: nat)
    requires Tells(chain, hist, k, low) && low <= s <= |hist|
    ensures LatestChange(chain) > s <==> exists t :: s < t <= |hist| && Effective(hist, t, k)
  {
    ChangedExact(hist, s, |hist|, k);
  }
}
