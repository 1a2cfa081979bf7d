/**
 * Replication keeps the invariant; what it commits, it commits for good.
 *
 * The leader's own append extends the log the history has for its term. Every
 * follower reached ends with exactly that log, because the requests carry the
 * whole suffix. Once a majority stores it, the commit is added to the history
 * with that majority as its quorum. Heartbeats then publish the commit, and
 * applying hands out committed entries only.
 *
 * Lemmas named after a function of the harness (`...Ok`) say that it keeps the
 * invariant; the others are the steps between them.
 */
module RaftReplication {
  import opened Bytes
  import opened RaftState
  import opened RaftHarness
  import opened RaftInvariant
  import opened RaftSteps

  // ----- The leader's own log -----

  ghost function Grown(h: History, t: nat, log: seq<Entry>): History {
    h.(logs := h.logs[t := log])
  }

  /** Appending to the log of term `t`'s leader. */
  lemma GrownHistory(h: History, ids: set<U64>, t: nat, e: Entry)
    requires HistoryOk(h, ids) && t in h.logs && e.term == t
    ensures Extends(h, Grown(h, t, h.logs[t] + [e])) && HistoryOk(Grown(h, t, h.logs[t] + [e]), ids)
  {
    hide Rooted, Majority, Bounded;
    var g := Grown(h, t, h.logs[t] + [e]);
    forall u | u in g.logs
      ensures TermOk(g, ids, u)
    {
      assert TermOk(h, ids, u);
      RootedGrows(h.logs[u], h, g);
      if u == t {
        GrownRooted(h, t, e);
      }
    }
    forall u, k | (u, k) in g.commits
      ensures CommitOk(g, ids, u, k)
    {
      assert CommitOk(h, ids, u, k);
      GrownCommit(h, ids, t, e, u, k);
    }
  }

  lemma GrownRooted(h: History, t: nat, e: Entry)
    requires t in h.logs && e.term == t
    requires Bounded(h.logs[t], t)
    requires Rooted(h.logs[t], Grown(h, t, h.logs[t] + [e]))
    ensures Rooted(h.logs[t] + [e], Grown(h, t, h.logs[t] + [e]))
    ensures Bounded(h.logs[t] + [e], t)
  {
    var g := Grown(h, t, h.logs[t] + [e]);
    var base, log := h.logs[t], h.logs[t] + [e];
    forall i | 0 <= i < |log|
      ensures log[i].term in g.logs && Shares(log, g.logs[log[i].term], i + 1)
    {
      if i < |base| {
        assert log[i] == base[i];
        assert log[..i + 1] == base[..i + 1];
      }
    }
  }

  lemma GrownCommit(h: History, ids: set<U64>, t: nat, e: Entry, u: nat, k: nat)
    requires t in h.logs && (u, k) in h.commits && CommitOk(h, ids, u, k)
    ensures CommitOk(Grown(h, t, h.logs[t] + [e]), ids, u, k)
  {
    hide Majority;
    var g := Grown(h, t, h.logs[t] + [e]);
    assert h.logs[u] <= g.logs[u];
    forall w | w in g.logs && w > u
      ensures Shares(g.logs[u], g.logs[w], k)
    {
      assert Shares(h.logs[u], h.logs[w], k);
      SharesLonger(h.logs[u], h.logs[w], g.logs[w], k);
      SharesLonger(g.logs[w], h.logs[u], g.logs[u], k);
    }
  }

  lemma LeaderNode(n: Node, m: Node, done: seq<Command>, h: History, e: Entry)
    requires NodeOk(n, done, h) && n.role.Leader? && e.term == n.term
    requires n.term in h.logs && Extends(h, Grown(h, n.term, n.log + [e]))
    requires m == n.(log := n.log + [e], wal := m.wal, room := m.room)
    requires Replayed(m.wal) == Some(m.Stored())
    ensures NodeOk(m, done, Grown(h, n.term, n.log + [e]))
  {
    hide Replayed;
    var g := Grown(h, n.term, n.log + [e]);
    RootedGrows(n.log, h, g);
    GrownRooted(h, n.term, e);
    HeldGrows(n, h, g);
    CertifiedGrows(n.log, n.commit, n.term, h, g);
    assert m.log[..n.applied] == n.log[..n.applied];
    if n.commit != 0 {
      var t, k :| (t, k) in g.commits && t <= n.term && n.commit <= k && t in g.logs
        && Shares(n.log, g.logs[t], n.commit);
      assert m.log[..n.commit] == n.log[..n.commit];
      assert Certified(m.log, m.commit, m.term, g);
    }
    assert VoteOk(m, g);
    HeldLonger(n, m, g);
  }

  lemma HeldLonger(n: Node, m: Node, g: History)
    requires HeldOk(n, g) && m.id == n.id && m.term == n.term && n.log <= m.log
    ensures HeldOk(m, g)
  {
    forall t, k | (t, k) in g.commits && m.id in g.commits[(t, k)]
      ensures t <= m.term && t in g.logs && Shares(m.log, g.logs[t], k)
    {
      SharesLonger(g.logs[t], n.log, m.log, k);
    }
  }

  lemma ReignAt(n: Node, done: seq<Command>, h: History)
    requires NodeOk(n, done, h)
    ensures ReignOk(n, h) && n.commit <= |n.log| && Certified(n.log, n.commit, n.term, h)
  {
  }

  lemma LeaderAppendOk(c: Cluster, leader: U64, command: Command, h: History) returns (g: History)
    requires Inv(c, h) && leader in c.nodes
    ensures Extends(h, g)
    ensures var (n, index) := LeaderAppended(c.nodes[leader], command);
      && n.id == leader
      && (index.Ok? ==>
            && Inv(Put(c, leader, n), g) && n.role.Leader? && index.value == |n.log|
            && n.log == c.nodes[leader].log + [Entry(n.term, command)]
            && n.commit == c.nodes[leader].commit)
      && (index.Err? ==> if index.error == Io then Recoverable(Put(c, leader, n), g)
                         else index.error == NotLeader && n == c.nodes[leader] && g == h)
  {
    hide NodeOk, HistoryOk, Extends, Replayed, Recoverable;
    var n := c.nodes[leader];
    var (m, index) := LeaderAppended(n, command);
    ExtendsSelf(h);
    g := h;
    NodeReplays(n, c.applied[leader], h);
    ReignAt(n, c.applied[leader], h);
    if n.role.Leader? {
      var e := Entry(n.term, command);
      PersistedOk(n.(log := n.log + [e]));
      if index.Err? {
        FailedPut(c, leader, m, h);
      } else {
        g := Grown(h, n.term, n.log + [e]);
        GrownHistory(h, c.nodes.Keys, n.term, e);
        LeaderNode(n, m, c.applied[leader], h, e);
        GrownOthers(c, leader, e, h);
      }
    }
  }

  lemma GrownOthers(c: Cluster, leader: U64, e: Entry, h: History)
    requires Inv(c, h) && leader in c.nodes && c.nodes[leader].role.Leader? && ReignOk(c.nodes[leader], h)
    requires Extends(h, Grown(h, c.nodes[leader].term, c.nodes[leader].log + [e]))
    ensures forall p :: p in c.nodes && p != leader ==>
      NodeOk(c.nodes[p], c.applied[p], Grown(h, c.nodes[leader].term, c.nodes[leader].log + [e]))
  {
    hide NodeOk, HistoryOk, Extends;
    var g := Grown(h, c.nodes[leader].term, c.nodes[leader].log + [e]);
    forall p | p in c.nodes && p != leader
      ensures NodeOk(c.nodes[p], c.applied[p], g)
    {
      NodeLog(c.nodes[p], c.applied[p], h);
      ReignAt(c.nodes[p], c.applied[p], h);
      HeldGrows(c.nodes[p], h, g);
      NodeStays(c.nodes[p], c.applied[p], h, g);
    }
  }

  // ----- A follower -----

  /** The mission is that of the leader of its term, with a commit index that is certified. */
  ghost predicate MissionOk(m: Mission, h: History) {
    && m.term in h.logs && h.logs[m.term] == m.log
    && m.commit <= |m.log| && Certified(m.log, m.commit, m.term, h)
  }

  ghost predicate FromMission(r: AppendEntries, m: Mission) {
    && r.term == m.term && r.prevIndex <= |m.log| && r.prevTerm == TermBefore(m.log, r.prevIndex)
    && r.entries == m.log[r.prevIndex..] && r.leaderCommit == m.commit
  }

  /** Where the previous entry matches, the whole log becomes the leader's. */
  lemma MergedIsLeaders(n: Node, r: AppendEntries, m: Mission, h: History, ids: set<U64>)
    requires HistoryOk(h, ids) && Rooted(n.log, h) && MissionOk(m, h) && FromMission(r, m)
    requires PreviousMatches(n.log, r)
    ensures n.log[..r.prevIndex] + r.entries == m.log
  {
    assert TermOk(h, ids, m.term);
    if r.prevIndex > 0 {
      Matching(n.log, m.log, h, r.prevIndex - 1);
    }
    assert m.log[..r.prevIndex] + m.log[r.prevIndex..] == m.log;
  }

  /** Taking over the leader's log keeps everything certified, applied and acknowledged. */
  lemma FollowedOk(n: Node, w: Node, done: seq<Command>, m: Mission, h: History, ids: set<U64>)
    requires HistoryOk(h, ids) && NodeOk(n, done, h) && MissionOk(m, h) && m.term >= n.term
    requires w.id == n.id && w.term == m.term && w.log == m.log && w.role == Follower
    requires w.vote == if m.term > n.term then None else n.vote
    requires w.applied == n.applied && w.commit == (if m.commit > n.commit then m.commit else n.commit)
    requires Replayed(w.wal) == Some(w.Stored())
    ensures NodeOk(w, done, h)
  {
    hide Replayed, CommitOk;
    assert TermOk(h, ids, m.term);
    CertifiedInLog(n.log, n.commit, n.term, h, ids, m.term);
    assert n.log[..n.applied] == n.log[..n.commit][..n.applied] == m.log[..n.applied];
    assert VoteOk(w, h);
    forall t, k | (t, k) in h.commits && w.id in h.commits[(t, k)]
      ensures t <= w.term && t in h.logs && Shares(w.log, h.logs[t], k)
    {
      CommitInLog(h, ids, t, k, m.term);
    }
  }

  lemma RejectedOk(n: Node, w: Node, done: seq<Command>, h: History)
    requires NodeOk(n, done, h) && w.term >= n.term
    requires w == n.(term := w.term, vote := w.vote, role := Follower, leader := w.leader, wal := w.wal, room := w.room)
    requires w.vote == if w.term > n.term then None else n.vote
    requires Replayed(w.wal) == Some(w.Stored())
    ensures NodeOk(w, done, h)
  {
    hide NodeOk, Replayed;
    NodeVotes(n, done, h);
    ExtendsSelf(h);
    assert VoteOk(w, h);
    Restamped(n, w, done, h, h);
  }

  /** The node follows `leader` and knows as much committed as it was told. */
  ghost predicate Informed(n: Node, leader: U64, commit: nat) {
    n.role == Follower && n.leader == Some(leader) && n.commit >= commit
  }

  lemma AppendedOk(n: Node, done: seq<Command>, r: AppendEntries, m: Mission, h: History, ids: set<U64>)
    requires HistoryOk(h, ids) && NodeOk(n, done, h) && MissionOk(m, h) && FromMission(r, m)
    ensures var (w, o) := Appended(n, r);
      && w.id == n.id
      && (o.Err? ==> o.error == Io && w.wal == n.wal)
      && (o.Ok? ==> NodeOk(w, done, h) && o.value.term == w.term)
      && (o.Ok? && r.term >= n.term ==> w.term == r.term)
      && (o.Ok? && o.value.success ==>
            w.log == m.log && w.term == m.term && o.value.matchIndex == |m.log| && Informed(w, r.leader, m.commit))
      && (o.Ok? && !o.value.success ==>
            || w.term > m.term
            || (w.log == n.log && w.term == m.term && !PreviousMatches(n.log, r)))
  {
    hide NodeOk, HistoryOk, Replayed, Persisted, MissionOk, Encoded;
    NodeReplays(n, done, h);
    if r.term >= n.term {
      var b := (if r.term > n.term then n.(term := r.term, vote := None) else n)
               .(role := Follower, leader := Some(r.leader));
      if !PreviousMatches(n.log, r) {
        PersistedOk(b);
        var (w, o) := Appended(n, r);
        if o.Ok? {
          RejectedOk(n, w, done, h);
        }
      } else {
        AcceptedOk(n, b, done, r, m, h, ids);
      }
    }
  }

  lemma AcceptedOk(n: Node, b: Node, done: seq<Command>, r: AppendEntries, m: Mission, h: History, ids: set<U64>)
    requires HistoryOk(h, ids) && NodeOk(n, done, h) && MissionOk(m, h) && FromMission(r, m)
    requires PreviousMatches(n.log, r) && r.term >= n.term
    requires b == (if r.term > n.term then n.(term := r.term, vote := None) else n)
               .(role := Follower, leader := Some(r.leader))
    ensures var (w, o) := Accepted(b, r, b.term != n.term);
      && w.id == n.id
      && (o.Err? ==> o.error == Io && w.wal == n.wal)
      && (o.Ok? ==>
            && NodeOk(w, done, h) && w.log == m.log && w.term == m.term && Informed(w, r.leader, m.commit)
            && o.value == AppendResponse(w.term, true, |m.log|))
  {
    hide NodeOk, HistoryOk, Replayed, Persisted, Encoded, Certified;
    NodeReplays(n, done, h);
    NodeLog(n, done, h);
    MergedIsLeaders(n, r, m, h, ids);
    PersistedOk(b.(log := m.log));
    var (w, o) := Accepted(b, r, b.term != n.term);
    if o.Ok? {
      FollowedOk(n, w, done, m, h, ids);
    }
  }

  // ----- All followers -----

  lemma {:induction false} ProbeOk(n: Node, done: seq<Command>, m: Mission, prev: nat, h: History, ids: set<U64>)
    requires HistoryOk(h, ids) && NodeOk(n, done, h) && MissionOk(m, h) && prev <= |m.log|
    ensures var (w, o) := Probe(n, m, prev);
      && w.id == n.id
      && (o.Err? ==> o.error == Io && DiskOk(w, h))
      && (o.Ok? ==> NodeOk(w, done, h) && !o.value.Unmatched?)
      && (o.Ok? && o.value.Matched? ==>
            o.value.index == |m.log| && w.log == m.log && w.term == m.term)
    decreases prev
  {
    hide NodeOk, HistoryOk, MissionOk, DiskOk, Appended;
    var r := ProbeRequest(m, prev);
    AppendedOk(n, done, r, m, h, ids);
    var (w, o) := Appended(n, r);
    if o.Err? {
      DiskStays(n, w, done, h);
    } else if o.value.term <= m.term && !o.value.success && prev > 0 {
      ProbeOk(w, done, m, prev - 1, h, ids);
    }
  }

  lemma FailedDisk(c: Cluster, id: U64, m: Node, h: History)
    requires Inv(c, h) && id in c.nodes && m.id == id && DiskOk(m, h)
    ensures Recoverable(Put(c, id, m), h)
  {
    hide NodeOk, HistoryOk, DiskOk;
    InvRecoverable(c, h);
  }

  /** The followers among the first `i` nodes that the leader can reach. */
  ghost function Reached(c: Cluster, leader: U64, i: nat): set<U64>
    requires i <= |c.ids|
  {
    set id | id in c.ids[..i] && id != leader && CanSend(c, leader, id)
  }

  ghost predicate Stored(c: Cluster, m: Mission, i: nat)
    requires i <= |c.ids|
  {
    forall id :: id in Reached(c, m.leader, i) && id in c.nodes ==>
      c.nodes[id].log == m.log && c.nodes[id].term == m.term
  }

  ghost function Others(c: Cluster, leader: U64, i: nat): set<U64>
    requires i <= |c.ids|
  {
    set id | id in c.ids[..i] && id != leader
  }

  /** One reply per other node, and a full match from exactly the reached ones. */
  ghost predicate Tallied(c: Cluster, m: Mission, i: nat, matched: seq<nat>)
    requires i <= |c.ids|
  {
    && |matched| == |Others(c, m.leader, i)|
    && forall x :: 0 < x <= |m.log| ==> Copies(matched, x) == |Reached(c, m.leader, i)|
  }

  lemma TallyOne(c: Cluster, m: Mission, i: nat, matched: seq<nat>, index: nat)
    requires Enumerates(c.ids, c.nodes.Keys) && i < |c.ids| && Tallied(c, m, i, matched) && c.ids[i] != m.leader
    requires index == if CanSend(c, m.leader, c.ids[i]) then |m.log| else 0
    ensures Tallied(c, m, i + 1, matched + [index])
  {
    hide Enumerates, Copies, CanSend;
    var id := c.ids[i];
    var more := matched + [index];
    NextId(c, i);
    assert Others(c, m.leader, i + 1) == Others(c, m.leader, i) + {id};
    var before, now := Reached(c, m.leader, i), Reached(c, m.leader, i + 1);
    assert now == if CanSend(c, m.leader, id) then before + {id} else before;
    forall x | 0 < x <= |m.log|
      ensures Copies(more, x) == |now|
    {
      CopiesMore(matched, index, x);
    }
  }

  lemma CopiesMore(matched: seq<nat>, index: nat, x: nat)
    ensures Copies(matched + [index], x) == Copies(matched, x) + (if index >= x then 1 else 0)
  {
    assert (matched + [index])[..|matched|] == matched;
  }

  lemma NextId(c: Cluster, i: nat)
    requires Enumerates(c.ids, c.nodes.Keys) && i < |c.ids|
    ensures c.ids[..i + 1] == c.ids[..i] + [c.ids[i]] && c.ids[i] !in c.ids[..i]
  {
  }

  lemma TallySkip(c: Cluster, m: Mission, i: nat, matched: seq<nat>)
    requires i < |c.ids| && Tallied(c, m, i, matched) && c.ids[i] == m.leader
    ensures Tallied(c, m, i + 1, matched)
    ensures Reached(c, m.leader, i + 1) == Reached(c, m.leader, i)
  {
    assert c.ids[..i + 1] == c.ids[..i] + [c.ids[i]];
    assert Others(c, m.leader, i + 1) == Others(c, m.leader, i);
    assert Reached(c, m.leader, i + 1) == Reached(c, m.leader, i);
  }

  lemma SameTally(c: Cluster, d: Cluster, m: Mission, i: nat, matched: seq<nat>)
    requires SameShape(c, d) && i <= |c.ids| && Tallied(c, m, i, matched)
    ensures Tallied(d, m, i, matched)
    ensures Reached(d, m.leader, i) == Reached(c, m.leader, i)
  {
    assert Reached(d, m.leader, i) == Reached(c, m.leader, i);
    assert Others(d, m.leader, i) == Others(c, m.leader, i);
  }

  /** A mission under way: the leader still leads with that log. */
  ghost predicate Underway(c: Cluster, m: Mission, i: nat, h: History) {
    && Inv(c, h) && MissionOk(m, h) && m.leader in c.nodes && i <= |c.ids|
    && c.nodes[m.leader].role.Leader? && c.nodes[m.leader].term == m.term && c.nodes[m.leader].log == m.log
    && Stored(c, m, i)
  }

  /** What one follower's answers leave. */
  ghost predicate FollowerLeft(d: Cluster, m: Mission, i: nat, got: Outcome<Probed>, h: History) {
    match got
    case Err(error) => error == Io && Recoverable(d, h)
    case Ok(Matched(index)) => index == |m.log| && Inv(d, h) && Underway(d, m, i, h)
    case Ok(Ahead(_)) => Inv(d, h)
    case Ok(Unmatched) => false
  }

  ghost function Sent(c: Cluster, m: Mission, id: U64): (Cluster, Outcome<Probed>)
    requires Shaped(c) && id in c.nodes
  {
    var (n, got) := Probe(c.nodes[id], m, |m.log|);
    (Put(c, id, n), got)
  }

  /** One follower brought up to date. */
  lemma FollowerOk(c: Cluster, m: Mission, i: nat, d: Cluster, got: Outcome<Probed>, h: History)
    requires Shaped(c) && i < |c.ids| && c.ids[i] in c.nodes && (d, got) == Sent(c, m, c.ids[i])
    requires c.ids[i] != m.leader && CanSend(c, m.leader, c.ids[i])
    requires Underway(c, m, i, h)
    ensures FollowerLeft(d, m, i + 1, got, h)
  {
    hide NodeOk, HistoryOk, MissionOk, Probe, Recoverable, DiskOk;
    IdAt(c, h, i);
    var id := c.ids[i];
    var n := Probe(c.nodes[id], m, |m.log|).0;
    ProbeOk(c.nodes[id], c.applied[id], m, |m.log|, h, c.nodes.Keys);
    if got.Err? {
      FailedDisk(c, id, n, h);
    } else {
      PutOk(c, id, n, h);
      assert c.ids[..i + 1] == c.ids[..i] + [id];
    }
  }

  lemma SkippedOk(c: Cluster, m: Mission, i: nat, h: History)
    requires Underway(c, m, i, h) && i < |c.ids|
    requires c.ids[i] == m.leader || !CanSend(c, m.leader, c.ids[i])
    ensures Underway(c, m, i + 1, h)
  {
    hide NodeOk, HistoryOk, MissionOk;
    assert c.ids[..i + 1] == c.ids[..i] + [c.ids[i]];
  }

  /** The first loop of `replicate_existing`: every reached follower ends with the leader's log. */
  lemma {:induction false} ReplicateFromOk(c: Cluster, m: Mission, i: nat, matched: seq<nat>, h: History)
    requires Underway(c, m, i, h) && Tallied(c, m, i, matched)
    ensures var (d, o) := ReplicateFrom(c, m, i, matched);
      && (o.Err? ==> if o.error == Io then Recoverable(d, h) else o.error == HigherTerm && Inv(d, h))
      && (o.Ok? ==>
            && Underway(d, m, |d.ids|, h) && Tallied(d, m, |d.ids|, o.value)
            && d.nodes[m.leader] == c.nodes[m.leader])
    decreases |c.ids| - i
  {
    hide NodeOk, HistoryOk, MissionOk, Inv, Recoverable, Probe, Tallied, Stored, TermObserved;
    IdAt(c, h, i);
    if i < |c.ids| {
      var id := c.ids[i];
      if id == m.leader {
        SkippedOk(c, m, i, h);
        TallySkip(c, m, i, matched);
        ReplicateFromOk(c, m, i + 1, matched, h);
      } else if !CanSend(c, m.leader, id) {
        SkippedOk(c, m, i, h);
        TallyOne(c, m, i, matched, 0);
        ReplicateFromOk(c, m, i + 1, matched + [0], h);
      } else {
        var (n, got) := Probe(c.nodes[id], m, |m.log|);
        var d := Put(c, id, n);
        FollowerOk(c, m, i, d, got, h);
        if got.Ok? {
          if got.value.Ahead? {
            StepDown(d, m.leader, got.value.term, h);
            assert ReplicateFrom(c, m, i, matched).0
                == Put(d, m.leader, TermObserved(d.nodes[m.leader], got.value.term).0);
          } else {
            TallyOne(c, m, i, matched, |m.log|);
            SameTally(c, d, m, i + 1, matched + [|m.log|]);
            ReplicateFromOk(d, m, i + 1, matched + [|m.log|], h);
          }
        }
      }
    }
  }

  // ----- Commit -----

  lemma {:induction false} NothingReady(n: Node, matched: seq<nat>, copies: nat, index: nat)
    requires index < |n.log| && n.commit < |n.log|
    requires forall x :: 0 < x <= |n.log| ==> Copies(matched, x) == copies
    requires forall j :: 0 <= j < |n.log| ==> n.log[j].term <= n.log[|n.log| - 1].term <= n.term
    requires !CommitReady(n, matched, |n.log|)
    ensures BestCommit(n, matched, index) == n.commit
    decreases index
  {
    if index > n.commit {
      NothingReady(n, matched, copies, index - 1);
    }
  }

  /** A leader's commit index jumps to the end of its log or stays where it was. */
  lemma CommitJumps(n: Node, matched: seq<nat>, copies: nat)
    requires n.commit <= |n.log|
    requires forall x :: 0 < x <= |n.log| ==> Copies(matched, x) == copies
    requires forall j :: 0 <= j < |n.log| ==> n.log[j].term <= n.log[|n.log| - 1].term <= n.term
    ensures BestCommit(n, matched, |n.log|)
         == if n.commit < |n.log| && CommitReady(n, matched, |n.log|) then |n.log| else n.commit
  {
    if n.commit < |n.log| && !CommitReady(n, matched, |n.log|) {
      NothingReady(n, matched, copies, |n.log| - 1);
    }
  }

  ghost function Sealed(h: History, t: nat, k: nat, quorum: set<U64>): History {
    if (t, k) in h.commits then h else h.(commits := h.commits[(t, k) := quorum])
  }

  /** No leader of a later term can exist while a majority is still in this one. */
  lemma NoLaterChief(c: Cluster, quorum: set<U64>, t: nat, h: History, u: nat)
    requires Inv(c, h) && Majority(quorum, c.nodes.Keys) && u > t
    requires forall v :: v in quorum && v in c.nodes ==> c.nodes[v].term == t
    ensures u !in h.logs
  {
    hide NodeOk;
    if u in h.logs {
      assert TermOk(h, c.nodes.Keys, u);
      var v := QuorumsMeet(quorum, h.electors[u], c.nodes.Keys);
      NodeVotes(c.nodes[v], c.applied[v], h);
      assert false;
    }
  }

  lemma SealedHistory(c: Cluster, m: Mission, quorum: set<U64>, h: History)
    requires Inv(c, h) && MissionOk(m, h) && Majority(quorum, c.nodes.Keys)
    requires |m.log| > 0 && m.log[|m.log| - 1].term == m.term
    requires forall v :: v in quorum && v in c.nodes ==> c.nodes[v].term == m.term
    ensures Extends(h, Sealed(h, m.term, |m.log|, quorum))
    ensures HistoryOk(Sealed(h, m.term, |m.log|, quorum), c.nodes.Keys)
  {
    hide NodeOk, Rooted, Majority, Bounded, Certified;
    var g, ids := Sealed(h, m.term, |m.log|, quorum), c.nodes.Keys;
    assert Extends(h, g);
    forall u | u in h.logs && u > m.term
      ensures false
    {
      NoLaterChief(c, quorum, m.term, h, u);
    }
    forall u | u in g.logs
      ensures TermOk(g, ids, u)
    {
      assert TermOk(h, ids, u);
      RootedGrows(h.logs[u], h, g);
    }
    forall u, k | (u, k) in g.commits
      ensures CommitOk(g, ids, u, k)
    {
      if (u, k) in h.commits {
        assert CommitOk(h, ids, u, k);
      }
    }
  }

  lemma SealedNodes(c: Cluster, m: Mission, quorum: set<U64>, h: History)
    requires Inv(c, h) && MissionOk(m, h)
    requires forall v :: v in quorum && v in c.nodes ==> c.nodes[v].term == m.term && c.nodes[v].log == m.log
    requires Extends(h, Sealed(h, m.term, |m.log|, quorum))
    ensures forall id :: id in c.nodes ==>
      NodeOk(c.nodes[id], c.applied[id], Sealed(h, m.term, |m.log|, quorum))
  {
    hide NodeOk, HistoryOk, Extends;
    var g := Sealed(h, m.term, |m.log|, quorum);
    forall id | id in c.nodes
      ensures NodeOk(c.nodes[id], c.applied[id], g)
    {
      NodeLog(c.nodes[id], c.applied[id], h);
      ReignAt(c.nodes[id], c.applied[id], h);
      assert HeldOk(c.nodes[id], g);
      NodeStays(c.nodes[id], c.applied[id], h, g);
    }
  }

  ghost function Quorum(c: Cluster, leader: U64): set<U64> {
    Reached(c, leader, |c.ids|) + {leader}
  }

  lemma OthersCount(c: Cluster, leader: U64)
    requires Enumerates(c.ids, c.nodes.Keys) && leader in c.nodes
    ensures |Others(c, leader, |c.ids|)| + 1 == |c.nodes|
    ensures Reached(c, leader, |c.ids|) <= c.nodes.Keys
  {
    assert c.ids[..|c.ids|] == c.ids;
    assert Others(c, leader, |c.ids|) == c.nodes.Keys - {leader};
    assert |c.nodes| == |c.nodes.Keys|;
  }

  lemma WholeTally(c: Cluster, m: Mission, matched: seq<nat>)
    requires Shaped(c) && m.leader in c.nodes && Tallied(c, m, |c.ids|, matched)
    requires |m.log| > 0 && (1 + Copies(matched, |m.log|)) * 2 > |matched| + 1
    ensures Majority(Quorum(c, m.leader), c.nodes.Keys)
  {
    hide Enumerates;
    OthersCount(c, m.leader);
    var reached := Reached(c, m.leader, |c.ids|);
    assert m.leader !in reached;
    assert |reached + {m.leader}| == |reached| + 1;
    assert |c.nodes| == |c.nodes.Keys|;
  }

  /** What `advance_commit` does after a full replication round, and why it is safe. */
  lemma AdvanceOk(c: Cluster, m: Mission, matched: seq<nat>, h: History) returns (g: History)
    requires Underway(c, m, |c.ids|, h) && Tallied(c, m, |c.ids|, matched)
    ensures Extends(h, g)
    ensures var w := CommitAdvanced(c.nodes[m.leader], matched);
      && w.id == m.leader
      && w == c.nodes[m.leader].(commit := w.commit)
      && (w.commit == c.nodes[m.leader].commit || w.commit == |m.log|)
      && (w.commit > c.nodes[m.leader].commit ==>
            (m.term as nat, |m.log|) in g.commits && m.term in g.logs && g.logs[m.term] == m.log)
      && Underway(Put(c, m.leader, w), m.(commit := w.commit), |c.ids|, g)
  {
    hide NodeOk, HistoryOk, Extends, Inv, MissionOk;
    IdAt(c, h, |c.ids|);
    InvAt(c, h, m.leader);
    var n := c.nodes[m.leader];
    var w := CommitAdvanced(n, matched);
    LeaderTerms(n, c.applied[m.leader], h, c.nodes.Keys);
    CommitJumps(n, matched, |Reached(c, m.leader, |c.ids|)|);
    if w.commit == n.commit {
      g := h;
      ExtendsSelf(h);
      assert w == n && c.nodes[m.leader := w] == c.nodes && Put(c, m.leader, w) == c;
      LeaderMission(c, m, h);
    } else {
      g := SealOk(c, m, matched, h);
    }
  }

  lemma InvAt(c: Cluster, h: History, id: U64)
    requires Inv(c, h) && id in c.nodes
    ensures Shaped(c) && NodeOk(c.nodes[id], c.applied[id], h)
  {
  }

  lemma LeaderTerms(n: Node, done: seq<Command>, h: History, ids: set<U64>)
    requires NodeOk(n, done, h) && HistoryOk(h, ids)
    ensures n.commit <= |n.log|
    ensures forall j :: 0 <= j < |n.log| ==> n.log[j].term <= n.log[|n.log| - 1].term <= n.term
  {
    hide HistoryOk;
    forall j | 0 <= j < |n.log|
      ensures n.log[j].term <= n.log[|n.log| - 1].term
    {
      TermsRise(n.log, h, ids, j, |n.log| - 1);
    }
  }

  lemma LeaderMission(c: Cluster, m: Mission, h: History)
    requires Inv(c, h) && MissionOk(m, h) && m.leader in c.nodes
    requires c.nodes[m.leader].term == m.term && c.nodes[m.leader].log == m.log
    ensures MissionOk(m.(commit := c.nodes[m.leader].commit), h)
  {
    hide NodeOk, HistoryOk;
    ReignAt(c.nodes[m.leader], c.applied[m.leader], h);
  }

  lemma SealOk(c: Cluster, m: Mission, matched: seq<nat>, h: History) returns (g: History)
    requires Underway(c, m, |c.ids|, h) && Tallied(c, m, |c.ids|, matched)
    requires |m.log| > c.nodes[m.leader].commit && CommitReady(c.nodes[m.leader], matched, |m.log|)
    ensures Extends(h, g) && (m.term as nat, |m.log|) in g.commits && m.term in g.logs && g.logs[m.term] == m.log
    ensures Underway(Put(c, m.leader, c.nodes[m.leader].(commit := |m.log|)), m.(commit := |m.log|), |c.ids|, g)
  {
    hide NodeOk, HistoryOk, Extends, Tallied, Majority, Inv, Certified, Enumerates;
    IdAt(c, h, |c.ids|);
    var n, quorum := c.nodes[m.leader], Quorum(c, m.leader);
    WholeTally(c, m, matched);
    g := Sealed(h, m.term, |m.log|, quorum);
    SealedHistory(c, m, quorum, h);
    SealedNodes(c, m, quorum, h);
    SealedInv(c, g);
    SealedUnderway(c, m, n.(commit := |m.log|), g);
  }

  lemma SealedInv(c: Cluster, g: History)
    requires Shaped(c) && HistoryOk(g, c.nodes.Keys)
    requires forall id :: id in c.nodes ==> NodeOk(c.nodes[id], c.applied[id], g)
    ensures Inv(c, g)
  {
  }

  lemma SealedUnderway(c: Cluster, m: Mission, w: Node, g: History)
    requires Inv(c, g) && m.leader in c.nodes && (m.term as nat, |m.log|) in g.commits
    requires m.term in g.logs && g.logs[m.term] == m.log && Stored(c, m, |c.ids|)
    requires c.nodes[m.leader].role.Leader? && c.nodes[m.leader].term == m.term && c.nodes[m.leader].log == m.log
    requires w == c.nodes[m.leader].(commit := |m.log|) && w.id == m.leader
    ensures Underway(Put(c, m.leader, w), m.(commit := |m.log|), |c.ids|, g)
  {
    hide NodeOk, HistoryOk;
    RaisedOk(c.nodes[m.leader], w, c.applied[m.leader], g);
    PutOk(c, m.leader, w, g);
    var d := Put(c, m.leader, w);
    assert Certified(m.log, |m.log|, m.term, g);
    assert Reached(d, m.leader, |c.ids|) == Reached(c, m.leader, |c.ids|);
  }

  lemma RaisedOk(n: Node, w: Node, done: seq<Command>, g: History)
    requires NodeOk(n, done, g) && w == n.(commit := |n.log|)
    requires n.term in g.logs && g.logs[n.term] == n.log && (n.term as nat, |n.log|) in g.commits
    ensures NodeOk(w, done, g)
  {
    assert Certified(w.log, w.commit, w.term, g);
    assert VoteOk(w, g) && HeldOk(w, g);
  }

  // ----- Publication and application -----

  lemma HeartbeatOk(c: Cluster, m: Mission, id: U64, n: Node, reply: Outcome<AppendResponse>, h: History)
    requires Underway(c, m, |c.ids|, h) && id in c.nodes && id != m.leader && CanSend(c, m.leader, id)
    requires |c.nodes[id].log| == |m.log| && n.id == id
    requires (n, reply) == Appended(c.nodes[id], HeartbeatRequest(m, |c.nodes[id].log|))
    ensures reply.Ok? && Underway(Put(c, id, n), m, |c.ids|, h) && Informed(n, m.leader, m.commit)
  {
    hide NodeOk, HistoryOk, MissionOk, Appended, Recoverable;
    var r := HeartbeatRequest(m, |m.log|);
    assert c.ids[..|c.ids|] == c.ids;
    assert id in Reached(c, m.leader, |c.ids|);
    AppendedOk(c.nodes[id], c.applied[id], r, m, h, c.nodes.Keys);
    HeartbeatQuiet(c.nodes[id], m);
    PutOk(c, id, n, h);
    assert Reached(Put(c, id, n), m.leader, |c.ids|) == Reached(c, m.leader, |c.ids|);
  }

  /** A follower that already has the log and the term takes a heartbeat without writing. */
  lemma HeartbeatQuiet(n: Node, m: Mission)
    requires n.log == m.log && n.term == m.term
    ensures var (w, o) := Appended(n, HeartbeatRequest(m, |m.log|)); o.Ok? && o.value.success
  {
    assert n.log[..|m.log|] + [] == n.log;
  }

  /** The reached followers among the first `i` nodes that know the leader and its commit index. */
  ghost predicate Published(c: Cluster, m: Mission, i: nat)
    requires i <= |c.ids|
  {
    forall id :: id in Reached(c, m.leader, i) && id in c.nodes ==> Informed(c.nodes[id], m.leader, m.commit)
  }

  lemma PublishOne(c: Cluster, m: Mission, i: nat, n: Node)
    requires Shaped(c) && i < |c.ids| && Published(c, m, i) && c.ids[i] in c.nodes && n.id == c.ids[i]
    requires c.ids[i] != m.leader && CanSend(c, m.leader, c.ids[i]) && Informed(n, m.leader, m.commit)
    ensures Published(Put(c, c.ids[i], n), m, i + 1)
  {
    hide Informed, Enumerates;
    assert c.ids[..i + 1] == c.ids[..i] + [c.ids[i]];
  }

  lemma PublishSkip(c: Cluster, m: Mission, i: nat)
    requires i < |c.ids| && Published(c, m, i) && (c.ids[i] == m.leader || !CanSend(c, m.leader, c.ids[i]))
    ensures Published(c, m, i + 1)
  {
    hide Informed;
    assert c.ids[..i + 1] == c.ids[..i] + [c.ids[i]];
  }

  /** A reached follower has the leader's log, so the index the program takes is in bounds. */
  lemma ReachedLength(c: Cluster, m: Mission, i: nat, h: History)
    requires Underway(c, m, |c.ids|, h) && i < |c.ids| && c.ids[i] != m.leader && CanSend(c, m.leader, c.ids[i])
    ensures c.ids[i] in c.nodes && c.nodes[c.ids[i]].log == m.log
  {
    hide NodeOk, HistoryOk, MissionOk;
    assert c.ids[..|c.ids|] == c.ids;
    assert c.ids[i] in Reached(c, m.leader, |c.ids|);
  }

  lemma UnderwayShape(c: Cluster, m: Mission, h: History)
    requires Underway(c, m, |c.ids|, h)
    ensures Inv(c, h) && Shaped(c) && m.leader in c.nodes
  {
  }

  lemma {:induction false} PublishFromOk(c: Cluster, m: Mission, i: nat, h: History)
    requires i <= |c.ids| && Underway(c, m, |c.ids|, h) && Published(c, m, i)
    ensures var (d, o) := PublishFrom(c, m, i);
      && o.Ok? && Underway(d, m, |d.ids|, h) && Published(d, m, |d.ids|)
      && d.nodes[m.leader] == c.nodes[m.leader]
    decreases |c.ids| - i
  {
    hide NodeOk, HistoryOk, Appended, Underway, Enumerates, Inv, Published;
    UnderwayShape(c, m, h);
    IdAt(c, h, i);
    if i < |c.ids| {
      var id := c.ids[i];
      if id == m.leader || !CanSend(c, m.leader, id) {
        PublishSkip(c, m, i);
        PublishFromOk(c, m, i + 1, h);
      } else {
        ReachedLength(c, m, i, h);
        var (n, reply) := Appended(c.nodes[id], HeartbeatRequest(m, |c.nodes[id].log|));
        AppendedId(c.nodes[id], HeartbeatRequest(m, |c.nodes[id].log|));
        HeartbeatOk(c, m, id, n, reply, h);
        PublishOne(c, m, i, n);
        PublishFromOk(Put(c, id, n), m, i + 1, h);
      }
    }
  }

  lemma AppendedId(n: Node, r: AppendEntries)
    ensures Appended(n, r).0.id == n.id
  {
  }

  lemma TakenOk(n: Node, done: seq<Command>, h: History)
    requires NodeOk(n, done, h)
    ensures var (w, taken) := AppliedTaken(n);
      && taken.Ok? && w == n.(applied := n.commit)
      && NodeOk(w, done + Commands(taken.value), h)
      && done + Commands(taken.value) == Commands(n.log[..n.commit])
  {
    hide Replayed, Rooted, Bounded, Certified;
    var (w, taken) := AppliedTaken(n);
    assert n.log[..n.commit] == n.log[..n.applied] + taken.value;
    assert Commands(n.log[..n.commit]) == Commands(n.log[..n.applied]) + Commands(taken.value);
    assert VoteOk(w, h) && HeldOk(w, h);
  }

  /** Nodes that have applied exactly what they know committed. */
  ghost predicate CaughtUp(c: Cluster, i: nat)
    requires Shaped(c) && i <= |c.ids|
  {
    forall j :: 0 <= j < i ==> c.nodes[c.ids[j]].applied == c.nodes[c.ids[j]].commit
  }

  /** The same cluster but for how much each node has applied, and that only grows. */
  ghost predicate OnlyApplied(c: Cluster, d: Cluster)
    requires Shaped(c) && Shaped(d)
  {
    && SameShape(c, d)
    && (forall id :: id in c.nodes ==> d.nodes[id] == c.nodes[id].(applied := d.nodes[id].applied))
    && (forall id :: id in c.nodes ==> c.applied[id] <= d.applied[id])
  }

  lemma PutApplied(c: Cluster, id: U64, n: Node, done: seq<Command>, h: History)
    requires Inv(c, h) && id in c.nodes && n.id == id && NodeOk(n, done, h)
    ensures Inv(Put(c, id, n).(applied := c.applied[id := done]), h)
  {
    hide NodeOk, HistoryOk;
    var d := Put(c, id, n).(applied := c.applied[id := done]);
    assert d.applied.Keys == c.applied.Keys;
  }

  lemma ApplyOne(c: Cluster, i: nat, h: History) returns (d: Cluster)
    requires Inv(c, h) && i < |c.ids| && CaughtUp(c, i)
    ensures Inv(d, h) && OnlyApplied(c, d) && CaughtUp(d, i + 1)
    ensures ApplyFrom(c, i) == ApplyFrom(d, i + 1)
  {
    hide NodeOk, HistoryOk, AppliedTaken, Inv, Commands, Enumerates, CaughtUp, OnlyApplied;
    IdAt(c, h, i);
    var id := c.ids[i];
    TakenOk(c.nodes[id], c.applied[id], h);
    var (n, taken) := AppliedTaken(c.nodes[id]);
    var more := c.applied[id] + Commands(taken.value);
    assert ApplyAt(c, id).0 == Put(c, id, n).(applied := c.applied[id := more]);
    d := Put(c, id, n).(applied := c.applied[id := more]);
    PutApplied(c, id, n, more, h);
    ApplyOneShape(c, i, id, n, more, d);
  }

  lemma ApplyOneShape(c: Cluster, i: nat, id: U64, n: Node, more: seq<Command>, d: Cluster)
    requires Shaped(c) && i < |c.ids| && id == c.ids[i] && CaughtUp(c, i)
    requires n == c.nodes[id].(applied := c.nodes[id].commit) && n.id == id && c.applied[id] <= more
    requires d == Put(c, id, n).(applied := c.applied[id := more])
    ensures Shaped(d) && OnlyApplied(c, d) && CaughtUp(d, i + 1)
  {
    assert d.applied.Keys == c.applied.Keys;
  }

  lemma AppliedTrans(c: Cluster, d: Cluster, e: Cluster)
    requires Shaped(c) && Shaped(d) && Shaped(e) && OnlyApplied(c, d) && OnlyApplied(d, e)
    ensures OnlyApplied(c, e)
  {
    hide Enumerates;
  }

  lemma AppliedSelf(c: Cluster)
    requires Shaped(c)
    ensures OnlyApplied(c, c)
  {
    hide Enumerates;
  }

  lemma InvShape(c: Cluster, h: History)
    requires Inv(c, h)
    ensures Shaped(c)
  {
  }

  lemma {:induction false} ApplyFromOk(c: Cluster, i: nat, h: History)
    requires Inv(c, h) && i <= |c.ids| && CaughtUp(c, i)
    ensures var (d, o) := ApplyFrom(c, i);
      o.Ok? && Inv(d, h) && OnlyApplied(c, d) && CaughtUp(d, |d.ids|)
    decreases |c.ids| - i
  {
    hide AppliedTaken, Commands, Inv, Enumerates, OnlyApplied, CaughtUp;
    InvShape(c, h);
    if i < |c.ids| {
      var d := ApplyOne(c, i, h);
      InvShape(d, h);
      AppliedShape(c, d);
      ApplyFromOk(d, i + 1, h);
      AppliedTrans(c, d, ApplyFrom(d, i + 1).0);
    } else {
      AppliedSelf(c);
    }
  }

  lemma AppliedShape(c: Cluster, d: Cluster)
    requires Shaped(c) && Shaped(d) && OnlyApplied(c, d)
    ensures SameShape(c, d)
  {
  }

  /** Replication as a whole, from a leader. */
  lemma ReplicateExistingOk(c: Cluster, leader: U64, h: History) returns (g: History)
    requires Inv(c, h) && leader in c.nodes && c.nodes[leader].role.Leader?
    ensures Extends(h, g) && Left(ReplicatedExisting(c, leader), g)
    ensures var (d, o) := ReplicatedExisting(c, leader);
      o.Ok? ==>
        && Settled(c, d, leader) && o.value == d.nodes[leader].commit
        && (d.nodes[leader].commit > c.nodes[leader].commit ==>
              CommittedAll(c, d, leader, g))
  {
    hide NodeOk, HistoryOk, Inv, Recoverable, Enumerates, ReplicateFrom, Committed, CommitAdvanced, Extends;
    hide Underway, Tallied, LeaderSettled, FollowersEqual, AllApplied, CaughtUp;
    InvAt(c, h, leader);
    var l := c.nodes[leader];
    var m := Mission(leader, l.term, l.log, l.commit);
    StartMission(c, m, h);
    ReplicateFromOk(c, m, 0, [], h);
    var (d, matched) := ReplicateFrom(c, m, 0, []);
    g := h;
    ExtendsSelf(h);
    if matched.Ok? {
      g := AdvanceOk(d, m, matched.value, h);
      var w := CommitAdvanced(d.nodes[leader], matched.value);
      var e := Put(d, leader, w);
      CommittedOk(e, m.(commit := w.commit), g);
      var (f, done) := Committed(e, m.(commit := w.commit));
      if done.Ok? {
        Conclude(c, f, m.(commit := w.commit), g);
        FollowersSettled(f, m.(commit := w.commit), g);
      }
    }
  }

  lemma StartMission(c: Cluster, m: Mission, h: History)
    requires Inv(c, h) && m.leader in c.nodes && c.nodes[m.leader].role.Leader?
    requires m == Mission(m.leader, c.nodes[m.leader].term, c.nodes[m.leader].log, c.nodes[m.leader].commit)
    ensures Underway(c, m, 0, h) && Tallied(c, m, 0, [])
  {
    hide NodeOk, HistoryOk;
    ReignAt(c.nodes[m.leader], c.applied[m.leader], h);
    assert Others(c, m.leader, 0) == {} && Reached(c, m.leader, 0) == {};
  }

  /** Every follower the leader can reach has its log and term, follows it, and knows its commit index. */
  ghost predicate FollowersEqual(d: Cluster, leader: U64)
    requires leader in d.nodes
  {
    forall id :: id in d.nodes && id != leader && CanSend(d, leader, id) ==>
      && d.nodes[id].log == d.nodes[leader].log && d.nodes[id].term == d.nodes[leader].term
      && Informed(d.nodes[id], leader, d.nodes[leader].commit)
  }

  ghost predicate AllApplied(d: Cluster) {
    forall id :: id in d.nodes ==> d.nodes[id].applied == d.nodes[id].commit
  }

  /** The leader keeps log and term; its commit index stays or jumps to the end of the log. */
  ghost predicate LeaderSettled(c: Cluster, d: Cluster, leader: U64)
    requires leader in c.nodes && leader in d.nodes
  {
    var l, k := c.nodes[leader], d.nodes[leader];
    k.log == l.log && k.term == l.term && k.role.Leader? && (k.commit == l.commit || k.commit == |k.log|)
  }

  /** After a successful round of replication. */
  ghost predicate Settled(c: Cluster, d: Cluster, leader: U64)
    requires leader in c.nodes && leader in d.nodes
  {
    LeaderSettled(c, d, leader) && FollowersEqual(d, leader) && AllApplied(d)
  }

  /** The leader's whole log is committed in its term. */
  ghost predicate CommittedAll(c: Cluster, d: Cluster, leader: U64, g: History)
    requires leader in c.nodes
  {
    var l := c.nodes[leader];
    (l.term as nat, |l.log|) in g.commits && l.term in g.logs && g.logs[l.term] == l.log
  }

  lemma CommittedOk(e: Cluster, m: Mission, g: History)
    requires Underway(e, m, |e.ids|, g)
    ensures Left(Committed(e, m), g)
    ensures var (d, o) := Committed(e, m);
      && o == Ok(m.commit) && Underway(d, m, |d.ids|, g) && Published(d, m, |d.ids|) && CaughtUp(d, |d.ids|)
      && d.nodes[m.leader] == e.nodes[m.leader].(applied := d.nodes[m.leader].applied)
  {
    hide NodeOk, HistoryOk, Inv, Recoverable, Enumerates, PublishFrom, ApplyFrom, Underway;
    UnderwayShape(e, m, g);
    assert Published(e, m, 0);
    PublishFromOk(e, m, 0, g);
    var d := PublishFrom(e, m, 0).0;
    UnderwayShape(d, m, g);
    ApplyFromOk(d, 0, g);
    AppliedUnderway(d, ApplyFrom(d, 0).0, m, g);
    UnderwayShape(ApplyFrom(d, 0).0, m, g);
  }

  lemma AppliedUnderway(c: Cluster, d: Cluster, m: Mission, g: History)
    requires Underway(c, m, |c.ids|, g) && Published(c, m, |c.ids|) && Inv(d, g) && OnlyApplied(c, d)
    ensures Underway(d, m, |d.ids|, g) && Published(d, m, |d.ids|)
  {
    hide NodeOk, HistoryOk;
    assert Reached(d, m.leader, |d.ids|) == Reached(c, m.leader, |c.ids|);
  }

  lemma Conclude(c: Cluster, d: Cluster, m: Mission, g: History)
    requires m.leader in c.nodes && m.leader in d.nodes && Underway(d, m, |d.ids|, g)
    requires c.nodes[m.leader].log == m.log && c.nodes[m.leader].term == m.term
    requires d.nodes[m.leader].commit == c.nodes[m.leader].commit || d.nodes[m.leader].commit == |m.log|
    ensures LeaderSettled(c, d, m.leader)
  {
    hide Inv, MissionOk, Stored;
  }

  lemma FollowersSettled(d: Cluster, m: Mission, g: History)
    requires m.leader in d.nodes && Underway(d, m, |d.ids|, g) && CaughtUp(d, |d.ids|)
    requires Published(d, m, |d.ids|) && d.nodes[m.leader].commit == m.commit
    ensures FollowersEqual(d, m.leader) && AllApplied(d)
  {
    hide NodeOk, HistoryOk, MissionOk;
    assert d.ids[..|d.ids|] == d.ids;
    forall id | id in d.nodes && id != m.leader && CanSend(d, m.leader, id)
      ensures d.nodes[id].log == d.nodes[m.leader].log && d.nodes[id].term == d.nodes[m.leader].term
      ensures Informed(d.nodes[id], m.leader, m.commit)
    {
      assert id in Reached(d, m.leader, |d.ids|);
    }
  }
}
