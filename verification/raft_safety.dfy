module RaftSafety {
  // The safety theorems of Raft over every run: any cluster size, calls, faults, I/O errors and reopenings.

  import opened Bytes
  import opened RaftState
  import opened RaftHarness
  import opened RaftInvariant
  import opened RaftSteps
  import opened RaftReplication

  datatype Call =
    | Elect(candidate: U64)
    | Replicate(leader: U64, command: Command)
    | Synchronize(leader: U64)
    | Partition(a: U64, b: U64)
    | Isolate(node: U64)
    | HealAll
    | Stop(node: U64)
    | Start(node: U64)
    | Open(rooms: map<U64, nat>)

  datatype Reply = Done | Won(won: bool) | Index(index: nat)

  /** A cluster and whether an I/O error ended its run; then it can only be reopened. */
  datatype System = System(cluster: Cluster, failed: bool)

  predicate Permitted(s: System, call: Call) {
    match call
    case Open(rooms) => rooms.Keys == s.cluster.nodes.Keys
    case Synchronize(leader) =>
      !s.failed && leader in s.cluster.nodes && s.cluster.nodes[leader].role.Leader?
    case _ => !s.failed
  }

  function Answered<T>(o: (Cluster, Outcome<T>), reply: T -> Reply): (System, Outcome<Reply>) {
    (System(o.0, o.1 == Err(Io)), match o.1 case Ok(v) => Ok(reply(v)) case Err(e) => Err(e))
  }

  function Quietly(c: Cluster): (System, Outcome<Reply>) {
    (System(c, false), Ok(Done))
  }

  function Perform(s: System, call: Call): (System, Outcome<Reply>)
    requires Shaped(s.cluster) && Permitted(s, call)
  {
    var c := s.cluster;
    match call
    case Elect(candidate) => Answered(Elected(c, candidate), won => Won(won))
    case Replicate(leader, command) => Answered(Replicated(c, leader, command), i => Index(i))
    case Synchronize(leader) => Answered(ReplicatedExisting(c, leader), i => Done)
    case Partition(a, b) => Quietly(Partitioned(c, a, b))
    case Isolate(node) => Quietly(Isolated(c, node))
    case HealAll => Quietly(c.(blocked := {}))
    case Stop(node) => Quietly(c.(stopped := c.stopped + {node}))
    case Start(node) => Quietly(c.(stopped := c.stopped - {node}))
    case Open(rooms) =>
      match Reopened(c, rooms)
      case None => (s.(failed := true), Err(Io))
      case Some(d) => Quietly(d)
  }

  /** A cluster opened on an empty directory. */
  ghost predicate Fresh(s: System) {
    && !s.failed && Shaped(s.cluster)
    && (forall id :: id in s.cluster.nodes ==>
          Some(s.cluster.nodes[id]) == Opened(id, [], s.cluster.nodes[id].room) && s.cluster.applied[id] == [])
  }

  ghost predicate Run(states: seq<System>, calls: seq<Call>) {
    && |states| == |calls| + 1
    && Fresh(states[0])
    && forall i :: 0 <= i < |calls| ==>
         && Shaped(states[i].cluster) && Permitted(states[i], calls[i])
         && states[i + 1] == Perform(states[i], calls[i]).0
  }

  // ----- One call -----

  ghost predicate SystemOk(s: System, h: History) {
    if s.failed then Recoverable(s.cluster, h) else Inv(s.cluster, h)
  }

  /** A call acknowledged at index `k` has its command committed there, in the leader's term. */
  ghost predicate Acknowledged(s: System, call: Call, reply: Outcome<Reply>, h: History) {
    call.Replicate? && reply.Ok? && reply.value.Index? ==>
      && call.leader in s.cluster.nodes
      && Recorded(h, s.cluster.nodes[call.leader].term, reply.value.index, call.command)
  }

  ghost predicate Recorded(h: History, term: U64, index: nat, command: Command) {
    && (term as nat, index) in h.commits && term in h.logs
    && 0 < index <= |h.logs[term]| && h.logs[term][index - 1] == Entry(term, command)
  }

  lemma ReopenOk(c: Cluster, rooms: map<U64, nat>, h: History)
    requires Recoverable(c, h) && rooms.Keys == c.nodes.Keys
    ensures Reopened(c, rooms).Some? && Inv(Reopened(c, rooms).value, h)
  {
    hide NodeOk, HistoryOk, Enumerates;
    assert forall id :: id in c.nodes ==> Replayed(c.nodes[id].wal).Some?;
    var d := Reopened(c, rooms).value;
    assert d.nodes.Keys == c.nodes.Keys;
    forall id | id in d.nodes
      ensures NodeOk(d.nodes[id], d.applied[id], h)
    {
      RoomIgnored(Rebooted(c.nodes[id]), [], h, rooms[id]);
    }
  }

  lemma RoomIgnored(n: Node, done: seq<Command>, h: History, room: nat)
    requires NodeOk(n, done, h)
    ensures NodeOk(n.(room := room), done, h)
  {
    var m := n.(room := room);
    assert VoteOk(m, h) && HeldOk(m, h);
  }

  lemma ReplicateOk(c: Cluster, leader: U64, command: Command, h: History) returns (g: History)
    requires Inv(c, h)
    ensures Extends(h, g) && Left(Replicated(c, leader, command), g)
    ensures var (d, o) := Replicated(c, leader, command);
      o.Ok? ==>
        && leader in c.nodes && Recorded(g, c.nodes[leader].term, o.value, command)
        && leader in d.nodes && FollowersEqual(d, leader) && AllApplied(d)
  {
    hide NodeOk, HistoryOk, Inv, Recoverable, Extends, LeaderAppended, ReplicatedExisting, Enumerates;
    hide FollowersEqual, AllApplied, Recorded, CommittedAll, Certified;
    InvShape(c, h);
    g := h;
    ExtendsSelf(h);
    if leader !in c.stopped && leader in c.nodes {
      InvAt(c, h, leader);
      ReignAt(c.nodes[leader], c.applied[leader], h);
      var (n, index) := LeaderAppended(c.nodes[leader], command);
      var e := LeaderAppendOk(c, leader, command, h);
      g := e;
      var d := Put(c, leader, n);
      if index.Ok? {
        g := ReplicateExistingOk(d, leader, e);
        ExtendsTrans(h, e, g);
        LeaderAppendedTerm(c.nodes[leader], command);
        var (f, commit) := ReplicatedExisting(d, leader);
        if commit.Ok? && f.nodes[leader].commit >= index.value {
          RecordedAll(d, f, leader, command, g);
        }
        assert Left(Replicated(c, leader, command), g);
      } else if index.error == NotLeader {
        assert c.nodes[leader := n] == c.nodes && d == c;
        assert Replicated(c, leader, command) == (c, Err(NotLeader));
        assert Left(Replicated(c, leader, command), g);
      } else {
        assert Replicated(c, leader, command) == (d, Err(Io));
        assert Left(Replicated(c, leader, command), g);
      }
    } else {
      assert Left(Replicated(c, leader, command), g);
    }
  }

  lemma RecordedAll(d: Cluster, f: Cluster, leader: U64, command: Command, g: History)
    requires leader in d.nodes && CommittedAll(d, f, leader, g)
    requires var n := d.nodes[leader]; n.log != [] && n.log[|n.log| - 1] == Entry(n.term, command)
    ensures Recorded(g, d.nodes[leader].term, |d.nodes[leader].log|, command)
  {
  }

  lemma LeaderAppendedTerm(n: Node, command: Command)
    ensures LeaderAppended(n, command).0.term == n.term && LeaderAppended(n, command).0.id == n.id
  {
  }

  lemma StepOk(s: System, call: Call, h: History) returns (g: History)
    requires SystemOk(s, h) && Shaped(s.cluster) && Permitted(s, call)
    ensures Extends(h, g)
    ensures var (t, reply) := Perform(s, call);
      && SystemOk(t, g) && Acknowledged(s, call, reply, g)
      && reply != Err(OutOfBounds) && (call.Open? ==> reply.Ok?)
  {
    hide NodeOk, HistoryOk, Inv, Recoverable, Extends, Elected, Replicated, ReplicatedExisting, Reopened;
    hide Enumerates, Recorded;
    g := h;
    ExtendsSelf(h);
    match call
    case Elect(candidate) => g := ElectOk(s.cluster, candidate, h);
    case Replicate(leader, command) => g := ReplicateOk(s.cluster, leader, command, h);
    case Synchronize(leader) => g := ReplicateExistingOk(s.cluster, leader, h);
    case Open(rooms) =>
      if !s.failed {
        InvRecoverable(s.cluster, h);
      }
      ReopenOk(s.cluster, rooms, h);
    case _ => FaultOk(s.cluster, Perform(s, call).0.cluster, h);
  }

  lemma FaultOk(c: Cluster, d: Cluster, h: History)
    requires Inv(c, h) && d == c.(blocked := d.blocked, stopped := d.stopped)
    ensures Inv(d, h)
  {
  }

  lemma FreshOk(s: System) returns (h: History)
    requires Fresh(s)
    ensures SystemOk(s, h)
  {
    h := History(map[], map[], map[], map[], map[]);
    forall id | id in s.cluster.nodes
      ensures NodeOk(s.cluster.nodes[id], s.cluster.applied[id], h)
    {
      var n := s.cluster.nodes[id];
      assert n == Node(id, 0, None, [], 0, 0, Follower, None, [], n.room);
      assert Commands(n.log[..0]) == [];
    }
  }

  // ----- Whole runs -----

  /** A history for every state of a run, each extending those before. */
  ghost predicate Told(states: seq<System>, calls: seq<Call>, hs: seq<History>) {
    && |hs| == |states|
    && (forall i :: 0 <= i < |states| ==> SystemOk(states[i], hs[i]))
    && (forall i, j :: 0 <= i <= j < |hs| ==> Extends(hs[i], hs[j]))
  }

  ghost predicate AllAcknowledged(states: seq<System>, calls: seq<Call>, hs: seq<History>)
    requires Run(states, calls) && |hs| == |states|
  {
    forall i :: 0 <= i < |calls| ==>
      Acknowledged(states[i], calls[i], Perform(states[i], calls[i]).1, hs[i + 1])
  }

  lemma {:induction false} Chronicle(states: seq<System>, calls: seq<Call>) returns (hs: seq<History>)
    requires Run(states, calls)
    ensures Told(states, calls, hs) && AllAcknowledged(states, calls, hs)
    decreases |calls|
  {
    hide SystemOk, Extends, Perform, Acknowledged, Fresh, Shaped, Permitted;
    if calls == [] {
      var h := FreshOk(states[0]);
      ExtendsSelf(h);
      hs := [h];
    } else {
      var n := |calls| - 1;
      var before, some := states[..n + 1], calls[..n];
      assert Run(before, some);
      var past := Chronicle(before, some);
      assert states[n] == before[n] && |past| == n + 1;
      var g := StepOk(states[n], calls[n], past[n]);
      hs := past + [g];
      Extended(past, g);
      forall i | 0 <= i < |calls|
        ensures Acknowledged(states[i], calls[i], Perform(states[i], calls[i]).1, hs[i + 1])
      {
        if i < n {
          assert before[i] == states[i] && some[i] == calls[i];
        }
      }
    }
  }

  lemma Extended(past: seq<History>, g: History)
    requires |past| > 0 && Extends(past[|past| - 1], g)
    requires forall i, j :: 0 <= i <= j < |past| ==> Extends(past[i], past[j])
    ensures forall i, j :: 0 <= i <= j < |past| + 1 ==> Extends((past + [g])[i], (past + [g])[j])
  {
    hide Extends;
    ExtendsSelf(g);
    forall i, j | 0 <= i <= j < |past| + 1
      ensures Extends((past + [g])[i], (past + [g])[j])
    {
      if i < |past| && j == |past| {
        ExtendsTrans(past[i], past[|past| - 1], g);
      }
    }
  }

  lemma ToldAt(states: seq<System>, calls: seq<Call>, hs: seq<History>, i: nat, id: U64)
    requires Told(states, calls, hs) && i < |states| && !states[i].failed && id in states[i].cluster.nodes
    ensures id in states[i].cluster.applied
    ensures NodeOk(states[i].cluster.nodes[id], states[i].cluster.applied[id], hs[i])
    ensures states[i].cluster.nodes[id].id == id
    ensures HistoryOk(hs[i], states[i].cluster.nodes.Keys)
  {
    hide NodeOk, HistoryOk, Extends;
    assert SystemOk(states[i], hs[i]);
  }

  /** Two nodes that ever lead in the same term are the same node. */
  lemma ElectionSafety(states: seq<System>, calls: seq<Call>, i: nat, j: nat, a: U64, b: U64)
    requires Run(states, calls) && i <= j < |states| && !states[i].failed && !states[j].failed
    requires a in states[i].cluster.nodes && b in states[j].cluster.nodes
    requires states[i].cluster.nodes[a].role.Leader? && states[j].cluster.nodes[b].role.Leader?
    requires states[i].cluster.nodes[a].term == states[j].cluster.nodes[b].term
    ensures a == b
  {
    hide Run, NodeOk, HistoryOk, AllAcknowledged, SystemOk;
    var hs := Chronicle(states, calls);
    ToldAt(states, calls, hs, i, a);
    ToldAt(states, calls, hs, j, b);
    ReignAt(states[i].cluster.nodes[a], states[i].cluster.applied[a], hs[i]);
    ReignAt(states[j].cluster.nodes[b], states[j].cluster.applied[b], hs[j]);
    assert Extends(hs[i], hs[j]);
  }

  /** No node ever votes for two candidates in one term, across restarts included. */
  lemma OneVotePerTerm(states: seq<System>, calls: seq<Call>, i: nat, j: nat, id: U64)
    requires Run(states, calls) && i <= j < |states| && !states[i].failed && !states[j].failed
    requires id in states[i].cluster.nodes && id in states[j].cluster.nodes
    requires states[i].cluster.nodes[id].term == states[j].cluster.nodes[id].term
    requires states[i].cluster.nodes[id].vote.Some?
    ensures states[j].cluster.nodes[id].vote == states[i].cluster.nodes[id].vote
  {
    hide Run, NodeOk, HistoryOk, AllAcknowledged, SystemOk;
    var hs := Chronicle(states, calls);
    ToldAt(states, calls, hs, i, id);
    ToldAt(states, calls, hs, j, id);
    NodeVotes(states[i].cluster.nodes[id], states[i].cluster.applied[id], hs[i]);
    NodeVotes(states[j].cluster.nodes[id], states[j].cluster.applied[id], hs[j]);
    assert Extends(hs[i], hs[j]);
  }

  /** Equal terms at an index of two logs: the logs are the same up to there. */
  lemma LogMatching(states: seq<System>, calls: seq<Call>, i: nat, a: U64, b: U64, k: nat)
    requires Run(states, calls) && i < |states| && !states[i].failed
    requires a in states[i].cluster.nodes && b in states[i].cluster.nodes
    requires k < |states[i].cluster.nodes[a].log| && k < |states[i].cluster.nodes[b].log|
    requires states[i].cluster.nodes[a].log[k].term == states[i].cluster.nodes[b].log[k].term
    ensures states[i].cluster.nodes[a].log[..k + 1] == states[i].cluster.nodes[b].log[..k + 1]
  {
    hide Run, NodeOk, HistoryOk, AllAcknowledged, SystemOk, Extends;
    var hs := Chronicle(states, calls);
    ToldAt(states, calls, hs, i, a);
    ToldAt(states, calls, hs, i, b);
    NodeLog(states[i].cluster.nodes[a], states[i].cluster.applied[a], hs[i]);
    NodeLog(states[i].cluster.nodes[b], states[i].cluster.applied[b], hs[i]);
    Matching(states[i].cluster.nodes[a].log, states[i].cluster.nodes[b].log, hs[i], k);
  }

  /**
   * Once `replicate` acknowledged a command at an index, every node that leads
   * that term or a later one has it there, restarts included.
   */
  lemma LeaderCompleteness(states: seq<System>, calls: seq<Call>, i: nat, j: nat, id: U64, index: nat)
    requires Run(states, calls) && i < j < |states| && !states[j].failed
    requires calls[i].Replicate? && Perform(states[i], calls[i]).1 == Ok(Index(index))
    requires id in states[j].cluster.nodes && states[j].cluster.nodes[id].role.Leader?
    requires calls[i].leader in states[i].cluster.nodes
    requires states[j].cluster.nodes[id].term >= states[i].cluster.nodes[calls[i].leader].term
    ensures 0 < index <= |states[j].cluster.nodes[id].log|
    ensures states[j].cluster.nodes[id].log[index - 1]
         == Entry(states[i].cluster.nodes[calls[i].leader].term, calls[i].command)
  {
    hide NodeOk, HistoryOk, SystemOk, Perform, Shaped;
    var hs := Chronicle(states, calls);
    var term: nat := states[i].cluster.nodes[calls[i].leader].term;
    var n, h, ids := states[j].cluster.nodes[id], hs[j], states[j].cluster.nodes.Keys;
    assert Acknowledged(states[i], calls[i], Perform(states[i], calls[i]).1, hs[i + 1]);
    assert Extends(hs[i + 1], h);
    ToldAt(states, calls, hs, j, id);
    ReignAt(n, states[j].cluster.applied[id], h);
    CommitInLog(h, ids, term, index, n.term);
    assert n.log[index - 1] == n.log[..index][index - 1] == h.logs[term][..index][index - 1];
  }

  ghost predicate Comparable(a: seq<Command>, b: seq<Command>) {
    a <= b || b <= a
  }

  /** Any two applied lists, of any nodes at any times, agree as far as both go. */
  lemma StateMachineSafety(states: seq<System>, calls: seq<Call>, i: nat, j: nat, a: U64, b: U64)
    requires Run(states, calls) && i <= j < |states| && !states[i].failed && !states[j].failed
    requires a in states[i].cluster.nodes && b in states[j].cluster.nodes
    requires a in states[i].cluster.applied && b in states[j].cluster.applied
    ensures Comparable(states[i].cluster.applied[a], states[j].cluster.applied[b])
  {
    hide Run, NodeOk, HistoryOk, AllAcknowledged, SystemOk, Extends;
    var hs := Chronicle(states, calls);
    ToldAt(states, calls, hs, i, a);
    ToldAt(states, calls, hs, j, b);
    var m, n := states[i].cluster.nodes[a], states[j].cluster.nodes[b];
    assert Extends(hs[i], hs[j]);
    AppliedAt(m, states[i].cluster.applied[a], hs[i]);
    AppliedAt(n, states[j].cluster.applied[b], hs[j]);
    CertifiedGrows(m.log, m.commit, m.term, hs[i], hs[j]);
    CertifiedAgree(m.log, m.commit, m.term, n.log, n.commit, n.term, hs[j], states[j].cluster.nodes.Keys);
    CommandsAgree(m.log, m.commit, m.applied, n.log, n.commit, n.applied);
  }

  lemma AppliedAt(n: Node, done: seq<Command>, h: History)
    requires NodeOk(n, done, h)
    ensures n.applied <= n.commit <= |n.log| && done == Commands(n.log[..n.applied])
    ensures Certified(n.log, n.commit, n.term, h)
  {
  }

  /** Two certified prefixes agree as far as both go. */
  lemma CertifiedAgree(a: seq<Entry>, k: nat, s: nat, b: seq<Entry>, l: nat, t: nat, h: History, ids: set<U64>)
    requires HistoryOk(h, ids) && Certified(a, k, s, h) && Certified(b, l, t, h)
    requires k <= |a| && l <= |b|
    ensures Shares(a, b, Min(k, l))
  {
    hide HistoryOk;
    if k != 0 && l != 0 {
      var u, x :| (u, x) in h.commits && u <= s && k <= x && u in h.logs && Shares(a, h.logs[u], k);
      var v, y :| (v, y) in h.commits && v <= t && l <= y && v in h.logs && Shares(b, h.logs[v], l);
      var p, q := h.logs[u], h.logs[v];
      var z := Min(k, l);
      SharesLess(a, p, k, z);
      SharesLess(b, q, l, z);
      if u <= v {
        CommitInLog(h, ids, u, x, v);
        SharesLess(p, q, x, z);
      } else {
        CommitInLog(h, ids, v, y, u);
        SharesLess(q, p, y, z);
      }
    }
  }

  lemma CommandsAgree(a: seq<Entry>, k: nat, x: nat, b: seq<Entry>, l: nat, y: nat)
    requires k <= |a| && l <= |b| && Shares(a, b, Min(k, l)) && x <= k && y <= l
    ensures Comparable(Commands(a[..x]), Commands(b[..y]))
  {
    var z := Min(x, y);
    SharesLess(a, b, Min(k, l), z);
    assert a[..z] == a[..x][..z] && b[..z] == b[..y][..z];
    assert Commands(a[..x])[..z] == Commands(a[..z]);
    assert Commands(b[..y])[..z] == Commands(b[..z]);
  }

  /** Between openings an applied list only grows. */
  lemma AppliedOnlyGrows(s: System, call: Call, id: U64)
    requires Shaped(s.cluster) && Permitted(s, call) && !call.Open? && id in s.cluster.applied
    ensures id in Perform(s, call).0.cluster.applied
    ensures s.cluster.applied[id] <= Perform(s, call).0.cluster.applied[id]
  {
    hide Elected, Replicated, ReplicatedExisting, Enumerates, Reopened;
  }

  /** No call of a run indexes out of bounds, and every reopening succeeds. */
  lemma NeverPanics(states: seq<System>, calls: seq<Call>, i: nat)
    requires Run(states, calls) && i < |calls|
    ensures Perform(states[i], calls[i]).1 != Err(OutOfBounds)
    ensures calls[i].Open? ==> Perform(states[i], calls[i]).1.Ok?
  {
    hide SystemOk, Perform;
    var hs := Chronicle(states, calls);
    var g := StepOk(states[i], calls[i], hs[i]);
  }

  /** The cluster a call runs its round of replication on: a new command is appended to the leader first. */
  ghost function RoundStart(c: Cluster, call: Call): Option<Cluster>
    requires Shaped(c)
  {
    match call
    case Synchronize(leader) => if leader in c.nodes then Some(c) else None
    case Replicate(leader, command) =>
      if leader in c.stopped || leader !in c.nodes || LeaderAppended(c.nodes[leader], command).1.Err? then None
      else Some(Put(c, leader, LeaderAppended(c.nodes[leader], command).0))
    case _ => None
  }

  lemma RunAt(states: seq<System>, calls: seq<Call>, hs: seq<History>, i: nat)
    requires Run(states, calls) && i < |calls| && Told(states, calls, hs)
    ensures |states| == |hs| == |calls| + 1 && SystemOk(states[i], hs[i])
    ensures Shaped(states[i].cluster) && Permitted(states[i], calls[i])
    ensures states[i + 1] == Perform(states[i], calls[i]).0
  {
    hide SystemOk, Extends, Perform, Fresh;
  }

  /**
   * After every round that ends well, also one that finds no majority for a new
   * command: reached followers equal the leader, its commit is at the end of its
   * log or unchanged, and everything committed is applied.
   */
  lemma ReplicationSettles(states: seq<System>, calls: seq<Call>, i: nat, leader: U64, start: Cluster)
    requires Run(states, calls) && i < |calls|
    requires calls[i] == Synchronize(leader) || (calls[i].Replicate? && calls[i].leader == leader)
    requires RoundStart(states[i].cluster, calls[i]) == Some(start) && ReplicatedExisting(start, leader).1.Ok?
    ensures states[i + 1].cluster == ReplicatedExisting(start, leader).0
    ensures leader in start.nodes && leader in states[i + 1].cluster.nodes
    ensures Settled(start, states[i + 1].cluster, leader)
  {
    hide Inv, Recoverable, ReplicatedExisting, Run, Told, Settled, LeaderAppended, Extends, AllAcknowledged;
    var hs := Chronicle(states, calls);
    RunAt(states, calls, hs, i);
    var c := states[i].cluster;
    InvShape(c, hs[i]);
    if calls[i].Synchronize? {
      var g := ReplicateExistingOk(c, leader, hs[i]);
    } else {
      InvAt(c, hs[i], leader);
      var e := LeaderAppendOk(c, leader, calls[i].command, hs[i]);
      var g := ReplicateExistingOk(start, leader, e);
    }
  }
}
