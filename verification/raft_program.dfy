/** The harness as the program runs it: loops over nodes that are changed in place. */
module RaftProgram {
  import opened Bytes
  import opened RaftState
  import opened RaftHarness

  class RaftCluster {
    var nodes: map<U64, RaftNode>
    const ids: seq<U64>
    var blocked: set<(U64, U64)>
    var stopped: set<U64>
    var applied: map<U64, seq<Command>>

    ghost predicate Valid()
      reads this, nodes.Values
    {
      && (forall a, b :: a in nodes && b in nodes && a != b ==> nodes[a] != nodes[b])
      && Shaped(View())
    }

    ghost function View(): Cluster
      reads this, nodes.Values
    {
      Cluster(map id | id in nodes :: nodes[id].View(), ids, blocked, stopped, applied)
    }

    /** A cluster over nodes already opened from their files. */
    constructor (ids: seq<U64>, nodes: map<U64, RaftNode>)
      requires Enumerates(ids, nodes.Keys)
      requires forall id :: id in nodes ==> nodes[id].id == id
      requires forall a, b :: a in nodes && b in nodes && a != b ==> nodes[a] != nodes[b]
      ensures Valid() && this.nodes == nodes && this.ids == ids
      ensures blocked == {} && stopped == {} && applied == map id | id in nodes :: []
    {
      this.ids, this.nodes := ids, nodes;
      blocked, stopped := {}, {};
      applied := map id | id in nodes :: [];
    }

    method AskPeer(request: RequestVote, peer: U64) returns (r: Outcome<VoteResponse>)
      requires Valid() && peer in nodes
      modifies nodes.Values
      ensures Valid() && nodes == old(nodes)
      ensures View() == Put(old(View()), peer, VoteAsked(old(View()).nodes[peer], request).0)
      ensures r == VoteAsked(old(View()).nodes[peer], request).1
    {
      r := nodes[peer].HandleRequestVote(request);
      assert View().nodes == old(View()).nodes[peer := nodes[peer].View()];
    }

    method StartElection(candidate: U64) returns (r: Outcome<RequestVote>)
      requires Valid() && candidate in nodes
      modifies nodes.Values
      ensures Valid() && nodes == old(nodes)
      ensures View() == Put(old(View()), candidate, ElectionStarted(old(View()).nodes[candidate]).0)
      ensures r == ElectionStarted(old(View()).nodes[candidate]).1
    {
      r := nodes[candidate].StartElection();
      assert View().nodes == old(View()).nodes[candidate := nodes[candidate].View()];
    }

    method Observe(id: U64, term: U64) returns (r: Outcome<()>)
      requires Valid() && id in nodes
      modifies nodes.Values
      ensures Valid() && nodes == old(nodes)
      ensures View() == Put(old(View()), id, TermObserved(old(View()).nodes[id], term).0)
      ensures r == TermObserved(old(View()).nodes[id], term).1
    {
      r := nodes[id].ObserveTerm(term);
      assert View().nodes == old(View()).nodes[id := nodes[id].View()];
    }

    method Crown(id: U64)
      requires Valid() && id in nodes
      modifies nodes.Values
      ensures Valid() && nodes == old(nodes)
      ensures View() == Put(old(View()), id, Crowned(old(View()).nodes[id]))
    {
      nodes[id].BecomeLeader();
      assert View().nodes == old(View()).nodes[id := nodes[id].View()];
    }

    method Canvass(request: RequestVote, peer: U64, votes: nat) returns (r: Outcome<Option<nat>>)
      requires Valid() && peer in nodes && request.candidate in nodes
      modifies nodes.Values
      ensures Valid() && nodes == old(nodes)
      ensures (View(), r) == AskOne(old(View()), request, peer, votes)
    {
      hide VoteAsked, TermObserved, Enumerates;
      var response := AskPeer(request, peer);
      if response.Err? {
        return Err(response.error);
      }
      if response.value.term > request.term {
        var seen := Observe(request.candidate, response.value.term);
        if seen.Err? {
          return Err(seen.error);
        }
        return Ok(None);
      }
      return Ok(Some(votes + if response.value.granted then 1 else 0));
    }

    lemma IdKnown(i: nat)
      requires Valid() && i < |ids|
      ensures ids[i] in nodes
    {
      assert ids[i] in View().nodes.Keys;
    }

    lemma Counted()
      requires Valid()
      ensures |View().nodes| == |nodes|
    {
      assert View().nodes.Keys == nodes.Keys;
      assert |View().nodes| == |View().nodes.Keys| && |nodes| == |nodes.Keys|;
    }

    method Elect(candidate: U64) returns (r: Outcome<bool>)
      requires Valid()
      modifies nodes.Values
      ensures Valid() && nodes == old(nodes)
      ensures (View(), r) == Elected(old(View()), candidate)
    {
      hide AskOne, Persisted, Enumerates;
      if candidate in stopped {
        return Ok(false);
      }
      if candidate !in nodes {
        return Err(UnknownNode);
      }
      var started := StartElection(candidate);
      if started.Err? {
        return Err(started.error);
      }
      r := CountVotes(started.value);
    }

    /** The loop of `elect` over the peers, and its verdict. */
    method CountVotes(request: RequestVote) returns (r: Outcome<bool>)
      requires Valid() && request.candidate in nodes
      modifies nodes.Values
      ensures Valid() && nodes == old(nodes)
      ensures (View(), r) == ElectFrom(old(View()), request, 0, 1)
    {
      hide AskOne, Enumerates, Crowned, Shaped;
      var candidate, votes: nat := request.candidate, 1;
      for i := 0 to |ids|
        invariant Valid() && nodes == old(nodes)
        invariant ElectFrom(View(), request, i, votes) == ElectFrom(old(View()), request, 0, 1)
      {
        var peer := ids[i];
        if peer == candidate || peer in stopped
           || (candidate, peer) in blocked || (peer, candidate) in blocked
        {
          continue;
        }
        IdKnown(i);
        var asked := Canvass(request, peer, votes);
        if asked.Err? {
          return Err(asked.error);
        }
        if asked.value.None? {
          return Ok(false);
        }
        votes := asked.value.value;
      }
      Counted();
      if votes * 2 > |nodes| {
        Crown(candidate);
        return Ok(true);
      }
      return Ok(false);
    }

    // ----- Replication -----

    method SendTo(follower: U64, request: AppendEntries) returns (r: Outcome<AppendResponse>)
      requires Valid() && follower in nodes
      modifies nodes.Values
      ensures Valid() && nodes == old(nodes)
      ensures forall id :: id in nodes && id != follower ==> nodes[id].View() == old(nodes[id].View())
      ensures (nodes[follower].View(), r) == Appended(old(nodes[follower].View()), request)
    {
      r := nodes[follower].HandleAppendEntries(request);
      assert View().nodes == old(View()).nodes[follower := nodes[follower].View()];
    }

    /** The inner loop of `replicate_existing`: one follower, probed from the end of the log down. */
    method ProbeFollower(m: Mission, follower: U64) returns (r: Outcome<Probed>)
      requires Valid() && follower in nodes
      modifies nodes.Values
      ensures Valid() && nodes == old(nodes)
      ensures forall id :: id in nodes && id != follower ==> nodes[id].View() == old(nodes[id].View())
      ensures (nodes[follower].View(), r) == Probe(old(nodes[follower].View()), m, |m.log|)
    {
      hide Appended, Shaped;
      var prev: nat := |m.log|;
      while true
        invariant prev <= |m.log|
        invariant Valid() && nodes == old(nodes)
        invariant forall id :: id in nodes && id != follower ==> nodes[id].View() == old(nodes[id].View())
        invariant Probe(nodes[follower].View(), m, prev) == Probe(old(nodes[follower].View()), m, |m.log|)
        decreases prev
      {
        var response := SendTo(follower, ProbeRequest(m, prev));
        if response.Err? {
          return Err(response.error);
        }
        if response.value.term > m.term {
          return Ok(Ahead(response.value.term));
        }
        if response.value.success {
          return Ok(Matched(response.value.matchIndex));
        }
        if prev == 0 {
          return Ok(Unmatched);
        }
        prev := prev - 1;
      }
    }

    twostate lemma OneChanged(id: U64)
      requires old(Valid()) && Valid() && nodes == old(nodes) && id in nodes
      requires blocked == old(blocked) && stopped == old(stopped) && applied == old(applied)
      requires forall p :: p in nodes && p != id ==> nodes[p].View() == old(nodes[p].View())
      ensures nodes[id].View().id == id
      ensures View() == Put(old(View()), id, nodes[id].View())
    {
      assert View().nodes[id].id == id;
      assert View().nodes == old(View()).nodes[id := nodes[id].View()];
    }

    method ReplicateToAll(m: Mission) returns (r: Outcome<seq<nat>>)
      requires Valid() && m.leader in nodes
      modifies nodes.Values
      ensures Valid() && nodes == old(nodes)
      ensures (View(), r) == ReplicateFrom(old(View()), m, 0, [])
    {
      hide Probe, Enumerates, TermObserved, Shaped;
      var matched: seq<nat> := [];
      for i := 0 to |ids|
        invariant Valid() && nodes == old(nodes)
        invariant ReplicateFrom(View(), m, i, matched) == ReplicateFrom(old(View()), m, 0, [])
      {
        var follower := ids[i];
        if follower == m.leader {
          continue;
        }
        if follower in stopped || (m.leader, follower) in blocked {
          matched := matched + [0];
          continue;
        }
        IdKnown(i);
        label before:
        var got := ProbeFollower(m, follower);
        OneChanged@before(follower);
        if got.Err? {
          return Err(got.error);
        }
        match got.value {
          case Ahead(term) =>
            var seen := Observe(m.leader, term);
            return Err(if seen.Err? then seen.error else HigherTerm);
          case Matched(index) => matched := matched + [index];
          case Unmatched => matched := matched + [0];
        }
      }
      return Ok(matched);
    }

    method PublishCommit(m: Mission) returns (r: Outcome<()>)
      requires Valid()
      modifies nodes.Values
      ensures Valid() && nodes == old(nodes)
      ensures (View(), r) == PublishFrom(old(View()), m, 0)
    {
      hide Appended, Enumerates, Shaped;
      for i := 0 to |ids|
        invariant Valid() && nodes == old(nodes)
        invariant PublishFrom(View(), m, i) == PublishFrom(old(View()), m, 0)
      {
        var follower := ids[i];
        if follower == m.leader || follower in stopped || (m.leader, follower) in blocked {
          continue;
        }
        IdKnown(i);
        var len := |nodes[follower].log|;
        if len > |m.log| {
          return Err(OutOfBounds);
        }
        label before:
        var reply := SendTo(follower, HeartbeatRequest(m, len));
        OneChanged@before(follower);
        if reply.Err? {
          return Err(reply.error);
        }
      }
      return Ok(());
    }

    method TakeAt(id: U64) returns (r: Outcome<seq<Entry>>)
      requires Valid() && id in nodes
      modifies nodes.Values
      ensures Valid() && nodes == old(nodes)
      ensures View() == Put(old(View()), id, AppliedTaken(old(View()).nodes[id]).0)
      ensures r == AppliedTaken(old(View()).nodes[id]).1
    {
      hide Enumerates;
      r := nodes[id].TakeApplied();
      assert View().nodes == old(View()).nodes[id := nodes[id].View()];
    }

    method ApplyNode(id: U64) returns (r: Outcome<()>)
      requires Valid() && id in nodes
      modifies this`applied, nodes.Values
      ensures Valid() && nodes == old(nodes)
      ensures (View(), r) == ApplyAt(old(View()), id)
    {
      hide AppliedTaken, Enumerates, Commands, Grew;
      AppliedTakenErr(View().nodes[id]);
      var taken := TakeAt(id);
      if taken.Err? {
        assert View().nodes == old(View()).nodes;
        return Err(taken.error);
      }
      Extend(id, Commands(taken.value));
      return Ok(());
    }

    method Extend(id: U64, commands: seq<Command>)
      requires Valid() && id in nodes && id in applied
      modifies this`applied
      ensures Valid() && View() == old(View()).(applied := old(applied)[id := old(applied)[id] + commands])
    {
      hide Enumerates;
      applied := applied[id := applied[id] + commands];
      assert applied.Keys == old(applied).Keys;
    }

    method ApplyAll() returns (r: Outcome<()>)
      requires Valid()
      modifies this`applied, nodes.Values
      ensures Valid() && nodes == old(nodes)
      ensures (View(), r) == ApplyFrom(old(View()), 0)
    {
      hide ApplyAt, Enumerates, Shaped;
      for i := 0 to |ids|
        invariant Valid() && nodes == old(nodes)
        invariant ApplyFrom(View(), i) == ApplyFrom(old(View()), 0)
      {
        IdKnown(i);
        var done := ApplyNode(ids[i]);
        if done.Err? {
          return done;
        }
      }
      return Ok(());
    }

    method Advance(leader: U64, matched: seq<nat>) returns (commit: nat)
      requires Valid() && leader in nodes
      modifies nodes.Values
      ensures Valid() && nodes == old(nodes)
      ensures View() == Put(old(View()), leader, CommitAdvanced(old(View()).nodes[leader], matched))
      ensures commit == View().nodes[leader].commit
    {
      hide BestCommit, Enumerates;
      commit := nodes[leader].AdvanceCommit(matched);
      assert View().nodes == old(View()).nodes[leader := nodes[leader].View()];
    }

    method AppendCommand(leader: U64, command: Command) returns (r: Outcome<nat>)
      requires Valid() && leader in nodes
      modifies nodes.Values
      ensures Valid() && nodes == old(nodes)
      ensures LeaderAppended(old(View()).nodes[leader], command).0.id == leader
      ensures View() == Put(old(View()), leader, LeaderAppended(old(View()).nodes[leader], command).0)
      ensures r == LeaderAppended(old(View()).nodes[leader], command).1
    {
      hide Encoded, Enumerates;
      r := nodes[leader].AppendAsLeader(command);
      assert View().nodes == old(View()).nodes[leader := nodes[leader].View()];
    }

    method ReplicateExisting(leader: U64) returns (r: Outcome<nat>)
      requires Valid()
      modifies this`applied, nodes.Values
      ensures Valid() && nodes == old(nodes)
      ensures (View(), r) == ReplicatedExisting(old(View()), leader)
    {
      hide ReplicateFrom, PublishFrom, ApplyFrom, BestCommit, Enumerates, Shaped;
      if leader !in nodes {
        return Err(OutOfBounds);
      }
      var l := nodes[leader];
      var m := Mission(leader, l.currentTerm, l.log, l.commitIndex);
      var matched := ReplicateToAll(m);
      if matched.Err? {
        return Err(matched.error);
      }
      var commit := Advance(leader, matched.value);
      m := m.(commit := commit);
      var published := PublishCommit(m);
      if published.Err? {
        return Err(published.error);
      }
      var done := ApplyAll();
      if done.Err? {
        return Err(done.error);
      }
      return Ok(commit);
    }

    method Replicate(leader: U64, command: Command) returns (r: Outcome<nat>)
      requires Valid()
      modifies this`applied, nodes.Values
      ensures Valid() && nodes == old(nodes)
      ensures (View(), r) == Replicated(old(View()), leader, command)
    {
      hide ReplicatedExisting, Enumerates, LeaderAppended, Shaped;
      if leader in stopped {
        return Err(Stopped);
      }
      if leader !in nodes {
        return Err(UnknownNode);
      }
      var index := AppendCommand(leader, command);
      if index.Err? {
        return Err(index.error);
      }
      var commit := ReplicateExisting(leader);
      if commit.Err? {
        return Err(commit.error);
      }
      if nodes[leader].commitIndex < index.value {
        return Err(NoMajority);
      }
      return Ok(index.value);
    }

    method Partition(a: U64, b: U64)
      requires Valid()
      modifies this`blocked
      ensures Valid() && View() == Partitioned(old(View()), a, b)
    {
      hide Enumerates;
      blocked := blocked + {(a, b), (b, a)};
    }

    method Isolate(node: U64)
      requires Valid()
      modifies this`blocked
      ensures Valid() && View() == Isolated(old(View()), node)
    {
      hide Links;
      ghost var seen: set<U64>, first := {}, blocked;
      LinksNone(node);
      for i := 0 to |ids|
        invariant forall p :: p in seen <==> p in ids[..i]
        invariant blocked == first + Links(node, seen)
      {
        assert ids[..i + 1] == ids[..i] + [ids[i]];
        LinksMore(node, seen, ids[i]);
        seen := seen + {ids[i]};
        if ids[i] != node {
          blocked := blocked + {(node, ids[i]), (ids[i], node)};
        }
      }
      assert ids[..|ids|] == ids;
      assert seen == old(View()).nodes.Keys;
    }

    method HealAll()
      requires Valid()
      modifies this`blocked
      ensures Valid() && View() == old(View()).(blocked := {})
    {
      hide Enumerates;
      blocked := {};
    }

    method Stop(node: U64)
      requires Valid()
      modifies this`stopped
      ensures Valid() && View() == old(View()).(stopped := old(stopped) + {node})
    {
      hide Enumerates;
      stopped := stopped + {node};
    }

    method Start(node: U64)
      requires Valid()
      modifies this`stopped
      ensures Valid() && View() == old(View()).(stopped := old(stopped) - {node})
    {
      hide Enumerates;
      stopped := stopped - {node};
    }
  }

  lemma LinksNone(node: U64)
    ensures Links(node, {}) == {}
  {
  }

  lemma LinksMore(node: U64, peers: set<U64>, p: U64)
    ensures Links(node, peers + {p})
         == Links(node, peers) + if p == node then {} else {(node, p), (p, node)}
  {
  }

  lemma AppliedTakenErr(n: Node)
    ensures AppliedTaken(n).1.Err? ==> AppliedTaken(n).0 == n
  {
  }

  method OpenNodes(ids: seq<U64>, files: map<U64, seq<seq<Byte>>>, rooms: map<U64, nat>)
    returns (nodes: map<U64, RaftNode>, ok: bool)
    requires rooms.Keys == files.Keys
    requires forall i :: 0 <= i < |ids| ==> ids[i] in files
    ensures !ok ==> exists id :: id in files && Opened(id, files[id], rooms[id]).None?
    ensures ok ==> nodes.Keys == set id | id in ids
    ensures ok ==> forall id :: id in nodes ==>
      fresh(nodes[id]) && nodes[id].id == id && Some(nodes[id].View()) == Opened(id, files[id], rooms[id])
    ensures ok ==> forall a, b :: a in nodes && b in nodes && a != b ==> nodes[a] != nodes[b]
  {
    hide Opened;
    nodes := map[];
    for i := 0 to |ids|
      invariant nodes.Keys == set id | id in ids[..i]
      invariant forall id :: id in nodes ==>
        fresh(nodes[id]) && nodes[id].id == id && Some(nodes[id].View()) == Opened(id, files[id], rooms[id])
      invariant forall a, b :: a in nodes && b in nodes && a != b ==> nodes[a] != nodes[b]
    {
      var id := ids[i];
      var node := OpenNode(id, files[id], rooms[id]);
      if node == null {
        return map[], false;
      }
      OpenedId(id, files[id], rooms[id]);
      assert ids[..i + 1] == ids[..i] + [id];
      nodes := nodes[id := node];
    }
    assert ids[..|ids|] == ids;
    return nodes, true;
  }

  /** `open`: every node from its own file; null when some file does not decode. */
  method OpenCluster(ids: seq<U64>, files: map<U64, seq<seq<Byte>>>, rooms: map<U64, nat>)
    returns (cluster: RaftCluster?)
    requires Enumerates(ids, files.Keys) && rooms.Keys == files.Keys
    ensures cluster == null <==> exists id :: id in files && Opened(id, files[id], rooms[id]).None?
    ensures cluster != null ==>
      && fresh(cluster) && cluster.Valid() && cluster.nodes.Keys == files.Keys && cluster.ids == ids
      && (forall id :: id in files ==> Some(cluster.nodes[id].View()) == Opened(id, files[id], rooms[id]))
      && cluster.blocked == {} && cluster.stopped == {} && cluster.applied == map id | id in files :: []
  {
    hide Opened;
    var nodes, ok := OpenNodes(ids, files, rooms);
    if !ok {
      return null;
    }
    assert nodes.Keys == files.Keys;
    cluster := new RaftCluster(ids, nodes);
  }

  lemma OpenedId(id: U64, wal: seq<seq<Byte>>, room: nat)
    ensures Opened(id, wal, room).Some? ==> Opened(id, wal, room).value.id == id
  {
  }
}
