/** The synchronous cluster harness: elections, replication and fault injection over a set of nodes. */
module RaftHarness {
  // Every call is a function on the value `Cluster`; the class `RaftCluster`
  // computes it. `ids` is the order in which the node map is traversed. Nothing
  // below depends on which order it is.

  import opened Bytes
  import opened RaftState

  datatype Cluster = Cluster(
    nodes: map<U64, Node>,
    ids: seq<U64>,
    blocked: set<(U64, U64)>,
    stopped: set<U64>,
    applied: map<U64, seq<Command>>)

  predicate Enumerates(ids: seq<U64>, keys: set<U64>) {
    && (forall i :: 0 <= i < |ids| ==> ids[i] in keys)
    && (forall id :: id in keys ==> id in ids)
    && (forall i, j :: 0 <= i < j < |ids| ==> ids[i] != ids[j])
  }

  predicate Shaped(c: Cluster) {
    && Enumerates(c.ids, c.nodes.Keys)
    && c.applied.Keys == c.nodes.Keys
    && (forall id :: id in c.nodes ==> c.nodes[id].id == id)
  }

  /** Same nodes, faults and traversal order; only node states and applied lists may differ. */
  predicate SameShape(c: Cluster, d: Cluster) {
    d.ids == c.ids && d.nodes.Keys == c.nodes.Keys && d.blocked == c.blocked && d.stopped == c.stopped
  }

  function Put(c: Cluster, id: U64, n: Node): (r: Cluster)
    requires Shaped(c) && id in c.nodes && n.id == id
    ensures Shaped(r) && SameShape(c, r) && r.applied == c.applied
  {
    var r := c.(nodes := c.nodes[id := n]);
    assert r.nodes.Keys == c.nodes.Keys;
    r
  }

  function Failure<T>(e: Error): Outcome<T> { Err(e) }

  // ----- Elections -----

  predicate CanAsk(c: Cluster, candidate: U64, peer: U64) {
    && peer != candidate && peer !in c.stopped
    && (candidate, peer) !in c.blocked && (peer, candidate) !in c.blocked
  }

  /** One peer asked: the votes so far, or none if a later term ends the election. */
  function AskOne(c: Cluster, r: RequestVote, peer: U64, votes: nat): (o: (Cluster, Outcome<Option<nat>>))
    requires Shaped(c) && r.candidate in c.nodes && peer in c.nodes
    ensures Shaped(o.0) && SameShape(c, o.0) && o.0.applied == c.applied
  {
    var (n, reply) := VoteAsked(c.nodes[peer], r);
    var d := Put(c, peer, n);
    if reply.Err? then (d, Err(reply.error))
    else if reply.value.term > r.term then
      var (m, seen) := TermObserved(d.nodes[r.candidate], reply.value.term);
      (Put(d, r.candidate, m), if seen.Err? then Err(seen.error) else Ok(None))
    else (d, Ok(Some(votes + if reply.value.granted then 1 else 0)))
  }

  function ElectFrom(c: Cluster, r: RequestVote, i: nat, votes: nat): (o: (Cluster, Outcome<bool>))
    requires Shaped(c) && i <= |c.ids| && r.candidate in c.nodes
    ensures Shaped(o.0) && SameShape(c, o.0) && o.0.applied == c.applied
    decreases |c.ids| - i
  {
    if i == |c.ids| then
      if votes * 2 > |c.nodes| then (Put(c, r.candidate, Crowned(c.nodes[r.candidate])), Ok(true))
      else (c, Ok(false))
    else if !CanAsk(c, r.candidate, c.ids[i]) then ElectFrom(c, r, i + 1, votes)
    else
      var (d, asked) := AskOne(c, r, c.ids[i], votes);
      if asked.Err? then (d, Err(asked.error))
      else if asked.value.None? then (d, Ok(false))
      else ElectFrom(d, r, i + 1, asked.value.value)
  }

  function Elected(c: Cluster, candidate: U64): (o: (Cluster, Outcome<bool>))
    requires Shaped(c)
    ensures Shaped(o.0) && SameShape(c, o.0) && o.0.applied == c.applied
  {
    if candidate in c.stopped then (c, Ok(false))
    else if candidate !in c.nodes then (c, Err(UnknownNode))
    else
      var (n, r) := ElectionStarted(c.nodes[candidate]);
      var d := Put(c, candidate, n);
      if r.Err? then (d, Err(r.error)) else ElectFrom(d, r.value, 0, 1)
  }

  // ----- Replication -----

  /** What a leader replicates: its log, term and commit index when the call began. */
  datatype Mission = Mission(leader: U64, term: U64, log: seq<Entry>, commit: nat)

  function TermBefore(log: seq<Entry>, index: nat): nat
    requires index <= |log|
  {
    if index == 0 then 0 else log[index - 1].term
  }

  function ProbeRequest(m: Mission, prev: nat): AppendEntries
    requires prev <= |m.log|
  {
    AppendEntries(m.term, m.leader, prev, TermBefore(m.log, prev), m.log[prev..], m.commit)
  }

  datatype Probed = Matched(index: nat) | Ahead(term: U64) | Unmatched

  /** One follower's answers to the leader's requests at `prev`, `prev - 1`, ..., 0. */
  function Probe(n: Node, m: Mission, prev: nat): (o: (Node, Outcome<Probed>))
    requires prev <= |m.log|
    ensures o.0.id == n.id
    decreases prev
  {
    var (w, reply) := Appended(n, ProbeRequest(m, prev));
    if reply.Err? then (w, Err(reply.error))
    else if reply.value.term > m.term then (w, Ok(Ahead(reply.value.term)))
    else if reply.value.success then (w, Ok(Matched(reply.value.matchIndex)))
    else if prev == 0 then (w, Ok(Unmatched))
    else Probe(w, m, prev - 1)
  }

  predicate CanSend(c: Cluster, leader: U64, follower: U64) {
    follower !in c.stopped && (leader, follower) !in c.blocked
  }

  function ReplicateFrom(c: Cluster, m: Mission, i: nat, matched: seq<nat>)
    : (o: (Cluster, Outcome<seq<nat>>))
    requires Shaped(c) && i <= |c.ids| && m.leader in c.nodes
    ensures Shaped(o.0) && SameShape(c, o.0) && o.0.applied == c.applied
    decreases |c.ids| - i
  {
    if i == |c.ids| then (c, Ok(matched))
    else if c.ids[i] == m.leader then ReplicateFrom(c, m, i + 1, matched)
    else if !CanSend(c, m.leader, c.ids[i]) then ReplicateFrom(c, m, i + 1, matched + [0])
    else
      var (n, got) := Probe(c.nodes[c.ids[i]], m, |m.log|);
      var d := Put(c, c.ids[i], n);
      if got.Err? then (d, Err(got.error))
      else match got.value
        case Ahead(term) =>
          var (l, seen) := TermObserved(d.nodes[m.leader], term);
          (Put(d, m.leader, l), Err(if seen.Err? then seen.error else HigherTerm))
        case Matched(index) => ReplicateFrom(d, m, i + 1, matched + [index])
        case Unmatched => ReplicateFrom(d, m, i + 1, matched + [0])
  }

  function HeartbeatRequest(m: Mission, len: nat): AppendEntries
    requires len <= |m.log|
  {
    AppendEntries(m.term, m.leader, len, TermBefore(m.log, len), [], m.commit)
  }

  function PublishFrom(c: Cluster, m: Mission, i: nat): (o: (Cluster, Outcome<()>))
    requires Shaped(c) && i <= |c.ids|
    ensures Shaped(o.0) && SameShape(c, o.0) && o.0.applied == c.applied
    decreases |c.ids| - i
  {
    if i == |c.ids| then (c, Ok(()))
    else if c.ids[i] == m.leader || !CanSend(c, m.leader, c.ids[i]) then PublishFrom(c, m, i + 1)
    else
      var len := |c.nodes[c.ids[i]].log|;
      if len > |m.log| then (c, Err(OutOfBounds))
      else
        var (n, reply) := Appended(c.nodes[c.ids[i]], HeartbeatRequest(m, len));
        var d := Put(c, c.ids[i], n);
        if reply.Err? then (d, Err(reply.error)) else PublishFrom(d, m, i + 1)
  }

  function Commands(log: seq<Entry>): (s: seq<Command>)
    ensures |s| == |log|
    ensures forall i :: 0 <= i < |log| ==> s[i] == log[i].command
  {
    seq(|log|, i requires 0 <= i < |log| => log[i].command)
  }

  /** No applied list shrinks or changes below its old end. */
  predicate Grew(c: Cluster, d: Cluster) {
    forall id :: id in c.applied ==> id in d.applied && c.applied[id] <= d.applied[id]
  }

  function ApplyAt(c: Cluster, id: U64): (o: (Cluster, Outcome<()>))
    requires Shaped(c) && id in c.nodes
    ensures Shaped(o.0) && SameShape(c, o.0) && Grew(c, o.0)
  {
    var (n, taken) := AppliedTaken(c.nodes[id]);
    if taken.Err? then (c, Err(taken.error))
    else
      var d := Put(c, id, n);
      var e := d.(applied := d.applied[id := d.applied[id] + Commands(taken.value)]);
      assert e.applied.Keys == c.applied.Keys;
      (e, Ok(()))
  }

  function ApplyFrom(c: Cluster, i: nat): (o: (Cluster, Outcome<()>))
    requires Shaped(c) && i <= |c.ids|
    ensures Shaped(o.0) && SameShape(c, o.0) && Grew(c, o.0)
    decreases |c.ids| - i
  {
    if i == |c.ids| then (c, Ok(()))
    else
      var (d, done) := ApplyAt(c, c.ids[i]);
      if done.Err? then (d, done) else ApplyFrom(d, i + 1)
  }

  function ReplicatedExisting(c: Cluster, leader: U64): (o: (Cluster, Outcome<nat>))
    requires Shaped(c)
    ensures Shaped(o.0) && SameShape(c, o.0) && Grew(c, o.0)
  {
    if leader !in c.nodes then (c, Err(OutOfBounds))
    else
      var l := c.nodes[leader];
      var m := Mission(leader, l.term, l.log, l.commit);
      var (d, matched) := ReplicateFrom(c, m, 0, []);
      if matched.Err? then (d, Err(matched.error))
      else
        var e := Put(d, leader, CommitAdvanced(d.nodes[leader], matched.value));
        Committed(e, m.(commit := e.nodes[leader].commit))
  }

  /** The end of `replicate_existing`: publish the commit index, then apply everywhere. */
  function Committed(c: Cluster, m: Mission): (o: (Cluster, Outcome<nat>))
    requires Shaped(c)
    ensures Shaped(o.0) && SameShape(c, o.0) && Grew(c, o.0)
  {
    var (d, published) := PublishFrom(c, m, 0);
    if published.Err? then (d, Err(published.error))
    else
      var (e, done) := ApplyFrom(d, 0);
      (e, if done.Err? then Err(done.error) else Ok(m.commit))
  }

  function Replicated(c: Cluster, leader: U64, command: Command): (o: (Cluster, Outcome<nat>))
    requires Shaped(c)
    ensures Shaped(o.0) && SameShape(c, o.0) && Grew(c, o.0)
  {
    if leader in c.stopped then (c, Err(Stopped))
    else if leader !in c.nodes then (c, Err(UnknownNode))
    else
      var (n, index) := LeaderAppended(c.nodes[leader], command);
      var d := Put(c, leader, n);
      if index.Err? then (d, Err(index.error))
      else
        var (e, commit) := ReplicatedExisting(d, leader);
        if commit.Err? then (e, Err(commit.error))
        else if e.nodes[leader].commit < index.value then (e, Err(NoMajority))
        else (e, Ok(index.value))
  }

  // ----- Faults and restarts -----

  function Partitioned(c: Cluster, a: U64, b: U64): Cluster {
    c.(blocked := c.blocked + {(a, b), (b, a)})
  }

  /** Both directions between `node` and each other peer. */
  function Links(node: U64, peers: set<U64>): set<(U64, U64)> {
    (set p | p in peers && p != node :: (node, p)) + (set p | p in peers && p != node :: (p, node))
  }

  function Isolated(c: Cluster, node: U64): Cluster {
    c.(blocked := c.blocked + Links(node, c.nodes.Keys))
  }

  /** Reopening every node from its file, with `rooms[id]` further records of space each. */
  function Reopened(c: Cluster, rooms: map<U64, nat>): (r: Option<Cluster>)
    requires Shaped(c) && rooms.Keys == c.nodes.Keys
    ensures r.Some? ==> Shaped(r.value)
  {
    if exists id :: id in c.nodes && Opened(id, c.nodes[id].wal, rooms[id]).None? then None
    else
      var nodes := map id | id in c.nodes :: Opened(id, c.nodes[id].wal, rooms[id]).value;
      var applied := map id | id in c.nodes :: [];
      assert nodes.Keys == c.nodes.Keys && applied.Keys == c.nodes.Keys;
      Some(Cluster(nodes, c.ids, {}, {}, applied))
  }
}
