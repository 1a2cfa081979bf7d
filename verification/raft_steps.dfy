/**
 * Elections keep the invariant, wherever an I/O error may cut them short.
 *
 * A node that starts an election or answers a vote request adds its vote to the
 * history. While votes are counted, the voters so far all voted for the
 * candidate and had logs no more up to date than its own; a majority of them
 * meets every earlier quorum, so the new leader's log holds all that is committed.
 *
 * An I/O error leaves files from which the nodes reopen to a state that
 * satisfies the invariant.
 */
module RaftSteps {
  import opened Bytes
  import opened RaftState
  import opened RaftHarness
  import opened RaftInvariant

  /** What a call leaves behind: the invariant, or after an I/O error files that recover. */
  ghost predicate Left<T>(o: (Cluster, Outcome<T>), h: History) {
    if o.1 == Err(Io) then Recoverable(o.0, h) else o.1 != Err(OutOfBounds) && Inv(o.0, h)
  }

  // ----- Elections -----

  lemma ExtendsTrans(h: History, g: History, f: History)
    requires Extends(h, g) && Extends(g, f)
    ensures Extends(h, f)
  {
  }

  lemma ExtendsSelf(h: History)
    ensures Extends(h, h)
  {
  }

  /** A node that keeps its log and only moves on in terms and votes stays sound. */
  lemma Restamped(n: Node, m: Node, done: seq<Command>, h: History, g: History)
    requires NodeOk(n, done, h) && Extends(h, g) && g.commits == h.commits && g.logs == h.logs && g.chief == h.chief
    requires m == n.(term := m.term, vote := m.vote, role := m.role, leader := m.leader, wal := m.wal, room := m.room)
    requires m.term >= n.term && VoteOk(m, g)
    requires m.role.Leader? ==> n.role.Leader? && m.term == n.term
    requires Replayed(m.wal) == Some(m.Stored())
    ensures NodeOk(m, done, g)
  {
    hide Replayed;
    if n.commit != 0 {
      var t, k :| (t, k) in h.commits && t <= n.term && n.commit <= k && t in h.logs
        && Shares(n.log, h.logs[t], n.commit);
      assert (t, k) in g.commits && t <= m.term;
      assert Certified(m.log, m.commit, m.term, g);
    }
    assert HeldOk(m, g);
  }

  lemma StartOk(n: Node, done: seq<Command>, h: History, ids: set<U64>) returns (g: History)
    requires NodeOk(n, done, h) && HistoryOk(h, ids) && ElectionStarted(n).1.Ok?
    ensures g == h.(votes := h.votes[(n.term + 1, n.id) := n.id])
    ensures Extends(h, g) && HistoryOk(g, ids)
    ensures NodeOk(ElectionStarted(n).0, done, g)
  {
    hide NodeOk, HistoryOk, Replayed, Extends, VoteOk;
    var s := ElectionStarted(n).0;
    NodeVotes(n, done, h);
    NodeReplays(n, done, h);
    PersistedOk(n.(term := n.term + 1, role := Candidate, leader := None, vote := Some(n.id)));
    g := FreshVote(n, s, h, n.id);
    VotesGrow(h, g, ids);
    Restamped(n, s, done, h, g);
  }

  /** A vote cast in a later term than any before is recorded without contradiction. */
  lemma FreshVote(n: Node, m: Node, h: History, x: U64) returns (g: History)
    requires VoteOk(n, h) && m.id == n.id && m.vote == Some(x)
    requires m.term > n.term || (m.term == n.term && (n.vote.None? || n.vote == Some(x)))
    ensures g == h.(votes := h.votes[(m.term as nat, m.id) := x])
    ensures Extends(h, g) && VoteOk(m, g)
  {
    g := h.(votes := h.votes[(m.term as nat, m.id) := x]);
  }

  lemma NodeVotes(n: Node, done: seq<Command>, h: History)
    requires NodeOk(n, done, h)
    ensures VoteOk(n, h)
  {
  }

  lemma VotesGrow(h: History, g: History, ids: set<U64>)
    requires HistoryOk(h, ids) && Extends(h, g) && g == h.(votes := g.votes)
    ensures HistoryOk(g, ids)
  {
    forall t | t in g.logs
      ensures TermOk(g, ids, t)
    {
      assert TermOk(h, ids, t);
    }
    forall t, k | (t, k) in g.commits
      ensures CommitOk(g, ids, t, k)
    {
      assert CommitOk(h, ids, t, k);
    }
  }

  /** A vote added for one node does not touch the others. */
  lemma OthersStay(c: Cluster, id: U64, t: nat, x: U64, h: History, g: History)
    requires Inv(c, h) && Extends(h, g) && g == h.(votes := h.votes[(t, id) := x])
    requires HistoryOk(g, c.nodes.Keys)
    ensures forall p :: p in c.nodes && p != id ==> NodeOk(c.nodes[p], c.applied[p], g)
  {
    forall p | p in c.nodes && p != id
      ensures NodeOk(c.nodes[p], c.applied[p], g)
    {
      HeldGrows(c.nodes[p], h, g);
      NodeStays(c.nodes[p], c.applied[p], h, g);
    }
  }

  lemma InTermOk(n: Node, done: seq<Command>, h: History, term: U64, wal: seq<seq<Byte>>, room: nat)
    requires NodeOk(n, done, h) && term > n.term
    requires Replayed(wal) == Some(Persistent(term, None, n.log))
    ensures NodeOk(InTerm(n, term).(wal := wal, room := room), done, h)
  {
    var m := InTerm(n, term).(wal := wal, room := room);
    ExtendsSelf(h);
    assert VoteOk(m, h);
    Restamped(n, m, done, h, h);
  }

  lemma ObservedOk(n: Node, done: seq<Command>, h: History, term: U64)
    requires NodeOk(n, done, h)
    ensures var (m, o) := TermObserved(n, term);
      && m.id == n.id
      && (o.Ok? ==> NodeOk(m, done, h))
      && (o.Err? ==> o.error == Io && m.wal == n.wal)
  {
    if term > n.term {
      PersistedOk(InTerm(n, term));
      var m := TermObserved(n, term).0;
      if TermObserved(n, term).1.Ok? {
        InTermOk(n, done, h, term, m.wal, m.room);
      }
    }
  }

  /** The history after `n` answers `r`: a granted vote is recorded for good. */
  ghost function Voted(n: Node, r: RequestVote, h: History): History {
    var (m, o) := VoteAsked(n, r);
    if o.Ok? && o.value.granted then h.(votes := h.votes[(r.term as nat, n.id) := r.candidate]) else h
  }

  lemma VoteAskedOk(n: Node, done: seq<Command>, h: History, r: RequestVote)
    requires NodeOk(n, done, h)
    ensures var (m, o) := VoteAsked(n, r);
      && m.id == n.id && m.log == n.log
      && (o.Err? ==> o.error == Io && m.wal == n.wal)
      && (o.Ok? ==>
            && Extends(h, Voted(n, r, h)) && NodeOk(m, done, Voted(n, r, h))
            && o.value.term == m.term
            && (o.value.granted ==> m.term == r.term && UpToDate(r, m)))
  {
    hide NodeOk, Persisted, Extends, Replayed;
    NodeReplays(n, done, h);
    ExtendsSelf(h);
    var (m, o) := VoteAsked(n, r);
    if r.term >= n.term {
      var b := if r.term > n.term then InTerm(n, r.term) else n;
      var granted := (b.vote.None? || b.vote == Some(r.candidate)) && UpToDate(r, b);
      var v := if granted then b.(vote := Some(r.candidate)) else b;
      PersistedOk(v);
      if o.Ok? {
        VotedOk(n, done, h, r, m, granted);
      }
    }
  }

  lemma VotedOk(n: Node, done: seq<Command>, h: History, r: RequestVote, m: Node, granted: bool)
    requires NodeOk(n, done, h) && r.term >= n.term
    requires var b := if r.term > n.term then InTerm(n, r.term) else n;
      && granted == ((b.vote.None? || b.vote == Some(r.candidate)) && UpToDate(r, b))
      && m == (if granted then b.(vote := Some(r.candidate)) else b).(wal := m.wal, room := m.room)
    requires Replayed(m.wal) == Some(m.Stored())
    ensures var g := if granted
        then h.(votes := h.votes[(r.term as nat, n.id) := r.candidate]) else h;
      Extends(h, g) && NodeOk(m, done, g)
  {
    hide NodeOk, UpToDate, Replayed;
    var g := if granted then h.(votes := h.votes[(r.term as nat, n.id) := r.candidate]) else h;
    NodeVotes(n, done, h);
    if granted {
      var g' := FreshVote(n, m, h, r.candidate);
    } else {
      ExtendsSelf(h);
    }
    assert VoteOk(m, g);
    Restamped(n, m, done, h, g);
  }

  /** A running election: who voted so far, and that every voter's log is no newer. */
  ghost predicate Electing(c: Cluster, r: RequestVote, voters: set<U64>, votes: nat, h: History) {
    && Inv(c, h) && r.candidate in c.nodes && r.candidate in voters
    && voters <= c.nodes.Keys && |voters| == votes
    && r == RequestVote(r.term, r.candidate, |c.nodes[r.candidate].log|, c.nodes[r.candidate].LastTerm())
    && c.nodes[r.candidate].term == r.term
    && (r.term in h.chief ==> h.chief[r.term] != r.candidate)
    && (forall v :: v in voters ==>
          (r.term, v) in h.votes && h.votes[(r.term, v)] == r.candidate && UpToDate(r, c.nodes[v]))
  }

  /** An up-to-date candidate has everything committed that the voter holds. */
  lemma CandidateHolds(l: seq<Entry>, v: Node, h: History, ids: set<U64>, t: nat, k: nat, bound: nat)
    requires HistoryOk(h, ids) && (t, k) in h.commits
    requires Rooted(l, h) && Rooted(v.log, h) && Bounded(l, bound)
    requires t in h.logs && Shares(v.log, h.logs[t], k)
    requires UpToDate(RequestVote(0, 0, |l|, if l == [] then 0 else l[|l| - 1].term), v)
    ensures Shares(l, h.logs[t], k)
  {
    assert CommitOk(h, ids, t, k) && TermOk(h, ids, t);
    var last := v.log[|v.log| - 1].term;
    assert v.log[k - 1] == v.log[..k][k - 1] == h.logs[t][k - 1];
    TermsRise(v.log, h, ids, k - 1, |v.log| - 1);
    var u := l[|l| - 1].term;
    var p := h.logs[u];
    assert Shares(l, p, |l|);
    if u == last {
      assert Shares(v.log, p, |v.log|);
      SharesLess(l, p, |l|, k);
      SharesLess(v.log, p, |v.log|, k);
    } else {
      assert u > t;
      assert Shares(h.logs[t], p, k);
      assert h.logs[t][..k] == p[..k];
      assert l[|l| - 1] == p[|l| - 1];
      assert |l| > k;
      SharesLess(l, p, |l|, k);
    }
  }

  lemma NoOtherChief(c: Cluster, r: RequestVote, voters: set<U64>, votes: nat, h: History)
    requires Electing(c, r, voters, votes, h) && votes * 2 > |c.nodes|
    ensures r.term !in h.chief && r.term !in h.logs
  {
    if r.term in h.chief {
      assert TermOk(h, c.nodes.Keys, r.term);
      assert |c.nodes| == |c.nodes.Keys|;
      var v := QuorumsMeet(voters, h.electors[r.term], c.nodes.Keys);
      assert false;
    }
  }

  /** The history once `n` leads its term. */
  ghost function Reign(h: History, n: Node, voters: set<U64>): History {
    h.(chief := h.chief[n.term as nat := n.id],
       electors := h.electors[n.term as nat := voters],
       logs := h.logs[n.term as nat := n.log])
  }

  lemma ReignTerms(h: History, n: Node, voters: set<U64>, ids: set<U64>)
    requires HistoryOk(h, ids) && n.term !in h.logs && Rooted(n.log, h) && Bounded(n.log, n.term)
    requires Majority(voters, ids) && n.id in voters
    requires forall v :: v in voters ==> (n.term, v) in h.votes && h.votes[(n.term, v)] == n.id
    ensures Extends(h, Reign(h, n, voters))
    ensures forall t :: t in Reign(h, n, voters).logs ==> TermOk(Reign(h, n, voters), ids, t)
  {
    var g := Reign(h, n, voters);
    RootedGrows(n.log, h, g);
    forall t | t in g.logs
      ensures TermOk(g, ids, t)
    {
      if t != n.term {
        assert TermOk(h, ids, t);
        RootedGrows(h.logs[t], h, g);
      }
    }
  }

  lemma ReignCommit(h: History, ids: set<U64>, n: Node, voters: set<U64>, r: RequestVote, v: Node, t: nat, k: nat)
    requires HistoryOk(h, ids) && n.term !in h.logs && (t, k) in h.commits
    requires Rooted(n.log, h) && Bounded(n.log, n.term) && Rooted(v.log, h)
    requires v.id in h.commits[(t, k)] && HeldOk(v, h)
    requires UpToDate(r, v) && r.lastIndex == |n.log| && r.lastTerm == n.LastTerm()
    ensures CommitOk(Reign(h, n, voters), ids, t, k)
  {
    assert CommitOk(h, ids, t, k);
    if t < n.term {
      CandidateHolds(n.log, v, h, ids, t, k, n.term);
    }
  }

  lemma ReignHistory(c: Cluster, r: RequestVote, voters: set<U64>, h: History)
    requires Electing(c, r, voters, |voters|, h) && Majority(voters, c.nodes.Keys) && r.term !in h.logs
    ensures Extends(h, Reign(h, c.nodes[r.candidate], voters))
    ensures HistoryOk(Reign(h, c.nodes[r.candidate], voters), c.nodes.Keys)
  {
    hide NodeOk, UpToDate, Rooted, Bounded, HeldOk, TermOk, CommitOk, Extends;
    var n, ids := c.nodes[r.candidate], c.nodes.Keys;
    var g := Reign(h, n, voters);
    NodeLog(n, c.applied[r.candidate], h);
    ReignTerms(h, n, voters, ids);
    forall t, k | (t, k) in g.commits
      ensures CommitOk(g, ids, t, k)
    {
      ReignKeeps(c, r, voters, h, t, k);
    }
  }

  lemma ReignKeeps(c: Cluster, r: RequestVote, voters: set<U64>, h: History, t: nat, k: nat)
    requires Electing(c, r, voters, |voters|, h) && Majority(voters, c.nodes.Keys) && r.term !in h.logs
    requires (t, k) in h.commits
    ensures CommitOk(Reign(h, c.nodes[r.candidate], voters), c.nodes.Keys, t, k)
  {
    hide NodeOk, UpToDate, Rooted, Bounded, HeldOk;
    var n, ids := c.nodes[r.candidate], c.nodes.Keys;
    assert CommitOk(h, ids, t, k);
    var v := QuorumsMeet(voters, h.commits[(t, k)], ids);
    NodeLog(n, c.applied[r.candidate], h);
    NodeLog(c.nodes[v], c.applied[v], h);
    ReignCommit(h, ids, n, voters, r, c.nodes[v], t, k);
  }

  lemma NodeLog(n: Node, done: seq<Command>, h: History)
    requires NodeOk(n, done, h)
    ensures Rooted(n.log, h) && Bounded(n.log, n.term) && HeldOk(n, h)
  {
  }

  lemma CrownedOk(c: Cluster, r: RequestVote, voters: set<U64>, votes: nat, h: History) returns (g: History)
    requires Electing(c, r, voters, votes, h) && votes * 2 > |c.nodes|
    ensures Extends(h, g)
    ensures Inv(Put(c, r.candidate, Crowned(c.nodes[r.candidate])), g)
  {
    hide NodeOk, HistoryOk, Extends;
    NoOtherChief(c, r, voters, votes, h);
    var n := c.nodes[r.candidate];
    assert |c.nodes| == |c.nodes.Keys|;
    g := Reign(h, n, voters);
    ReignHistory(c, r, voters, h);
    forall id | id in c.nodes
      ensures NodeOk(c.nodes[id], c.applied[id], g)
    {
      ReignOthers(c, id, r.candidate, voters, h);
    }
    CrownedNode(n, c.applied[r.candidate], g);
    PutOk(c, r.candidate, Crowned(n), g);
  }

  lemma ReignOthers(c: Cluster, id: U64, candidate: U64, voters: set<U64>, h: History)
    requires Inv(c, h) && id in c.nodes && candidate in c.nodes
    requires c.nodes[candidate].term !in h.logs && Extends(h, Reign(h, c.nodes[candidate], voters))
    ensures NodeOk(c.nodes[id], c.applied[id], Reign(h, c.nodes[candidate], voters))
  {
    hide HistoryOk;
    var g := Reign(h, c.nodes[candidate], voters);
    assert NodeOk(c.nodes[id], c.applied[id], h);
    HeldGrows(c.nodes[id], h, g);
    NodeStays(c.nodes[id], c.applied[id], h, g);
  }

  lemma CrownedNode(n: Node, done: seq<Command>, g: History)
    requires NodeOk(n, done, g)
    requires n.term in g.chief && n.term in g.logs && g.chief[n.term] == n.id && g.logs[n.term] == n.log
    ensures NodeOk(Crowned(n), done, g)
  {
    var m := Crowned(n);
    assert VoteOk(m, g) && HeldOk(m, g);
  }

  lemma {:induction false} ElectFromOk(c: Cluster, r: RequestVote, i: nat, votes: nat, voters: set<U64>, h: History)
    returns (g: History)
    requires Electing(c, r, voters, votes, h) && i <= |c.ids|
    requires forall v :: v in voters && v != r.candidate ==> v in c.ids[..i]
    ensures Extends(h, g) && Left(ElectFrom(c, r, i, votes), g)
    decreases |c.ids| - i
  {
    hide NodeOk, HistoryOk, Extends, Inv, Recoverable, Enumerates, Electing, AskOne;
    g := h;
    ExtendsSelf(h);
    ElectingShape(c, r, voters, votes, h);
    IdAt(c, h, i);
    if i == |c.ids| {
      if votes * 2 > |c.nodes| {
        g := CrownedOk(c, r, voters, votes, h);
      }
    } else if !CanAsk(c, r.candidate, c.ids[i]) {
      assert c.ids[..i + 1] == c.ids[..i] + [c.ids[i]];
      g := ElectFromOk(c, r, i + 1, votes, voters, h);
    } else {
      var (d, asked) := AskOne(c, r, c.ids[i], votes);
      var e, all := AskOneOk(c, r, i, votes, voters, h);
      g := e;
      if asked.Ok? && asked.value.Some? {
        g := ElectFromOk(d, r, i + 1, asked.value.value, all, e);
        ExtendsTrans(h, e, g);
      }
    }
  }

  /** One peer asked: the election goes on, or ends in a way that keeps everything. */
  lemma AskOneOk(c: Cluster, r: RequestVote, i: nat, votes: nat, voters: set<U64>, h: History)
    returns (e: History, all: set<U64>)
    requires Electing(c, r, voters, votes, h) && i < |c.ids| && CanAsk(c, r.candidate, c.ids[i])
    requires forall v :: v in voters && v != r.candidate ==> v in c.ids[..i]
    ensures Extends(h, e)
    ensures forall v :: v in all && v != r.candidate ==> v in c.ids[..i + 1]
    ensures var (d, o) := AskOne(c, r, c.ids[i], votes);
      match o
      case Err(error) => error == Io && Recoverable(d, e)
      case Ok(None) => Inv(d, e)
      case Ok(Some(v)) => Electing(d, r, all, v, e)
  {
    hide NodeOk, HistoryOk, VoteAsked, TermObserved, Extends, UpToDate, Inv, Recoverable, Enumerates, Voted, Electing;
    ElectingShape(c, r, voters, votes, h);
    IdAt(c, h, i);
    ExtendsSelf(h);
    var peer := c.ids[i];
    var (n, reply) := VoteAsked(c.nodes[peer], r);
    AskedOk(c, r, i, votes, voters, h);
    assert c.ids[..i + 1] == c.ids[..i] + [peer];
    e, all := h, voters;
    if reply.Ok? {
      e, all := Voted(c.nodes[peer], r, h), if reply.value.granted then voters + {peer} else voters;
      if reply.value.term > r.term {
        var d := Put(c, peer, n);
        StepDown(d, r.candidate, reply.value.term, e);
        assert AskOne(c, r, peer, votes).0
            == Put(d, r.candidate, TermObserved(d.nodes[r.candidate], reply.value.term).0);
      }
    }
  }

  lemma ElectingShape(c: Cluster, r: RequestVote, voters: set<U64>, votes: nat, h: History)
    requires Electing(c, r, voters, votes, h)
    ensures Inv(c, h) && r.candidate in c.nodes
  {
  }

  lemma AskedOk(c: Cluster, r: RequestVote, i: nat, votes: nat, voters: set<U64>, h: History)
    requires Electing(c, r, voters, votes, h) && i < |c.ids| && c.ids[i] != r.candidate
    requires forall v :: v in voters && v != r.candidate ==> v in c.ids[..i]
    ensures var peer := c.ids[i];
      var (n, reply) := VoteAsked(c.nodes[peer], r);
      && peer in c.nodes && n.id == peer
      && (reply.Err? ==> reply.error == Io && Recoverable(Put(c, peer, n), h))
      && (reply.Ok? ==>
            && Extends(h, Voted(c.nodes[peer], r, h)) && Inv(Put(c, peer, n), Voted(c.nodes[peer], r, h))
            && Electing(Put(c, peer, n), r, if reply.value.granted then voters + {peer} else voters,
                        votes + if reply.value.granted then 1 else 0, Voted(c.nodes[peer], r, h)))
  {
    hide NodeOk, HistoryOk, VoteAsked, Extends, UpToDate, Inv, Recoverable, Enumerates, Voted;
    IdAt(c, h, i);
    var peer := c.ids[i];
    var (n, reply) := VoteAsked(c.nodes[peer], r);
    VoteAskedOk(c.nodes[peer], c.applied[peer], h, r);
    if reply.Err? {
      FailedPut(c, peer, n, h);
    } else {
      AnsweredOk(c, r, i, n, h, Voted(c.nodes[peer], r, h));
      StillElecting(c, r, i, n, voters, votes, h);
    }
  }

  lemma StillElecting(c: Cluster, r: RequestVote, i: nat, n: Node, voters: set<U64>, votes: nat, h: History)
    requires Electing(c, r, voters, votes, h) && i < |c.ids| && c.ids[i] != r.candidate
    requires forall v :: v in voters && v != r.candidate ==> v in c.ids[..i]
    requires var peer := c.ids[i];
      var o := VoteAsked(c.nodes[peer], r);
      && o.1.Ok? && n == o.0 && n.id == peer
      && (o.1.value.granted ==> UpToDate(r, n))
      && Inv(Put(c, peer, n), Voted(c.nodes[peer], r, h))
    ensures var granted := VoteAsked(c.nodes[c.ids[i]], r).1.value.granted;
      Electing(Put(c, c.ids[i], n), r, if granted then voters + {c.ids[i]} else voters,
               votes + if granted then 1 else 0, Voted(c.nodes[c.ids[i]], r, h))
  {
    hide NodeOk, HistoryOk, VoteAsked, UpToDate;
    assert c.ids[i] !in voters;
  }

  /** Learning of a later term from a reply. */
  lemma StepDown(c: Cluster, id: U64, term: U64, h: History)
    requires Inv(c, h) && id in c.nodes
    ensures var (m, seen) := TermObserved(c.nodes[id], term);
      && m.id == id
      && (seen.Ok? ==> Inv(Put(c, id, m), h))
      && (seen.Err? ==> seen.error == Io && Recoverable(Put(c, id, m), h))
  {
    hide NodeOk, HistoryOk, TermObserved;
    var (m, seen) := TermObserved(c.nodes[id], term);
    ObservedOk(c.nodes[id], c.applied[id], h, term);
    if seen.Err? {
      FailedPut(c, id, m, h);
    } else {
      PutOk(c, id, m, h);
    }
  }

  lemma IdAt(c: Cluster, h: History, i: nat)
    requires Inv(c, h) && i <= |c.ids|
    ensures Shaped(c) && HistoryOk(h, c.nodes.Keys)
    ensures i < |c.ids| ==> c.ids[i] in c.nodes && NodeOk(c.nodes[c.ids[i]], c.applied[c.ids[i]], h)
  {
  }

  lemma AnsweredOk(c: Cluster, r: RequestVote, i: nat, n: Node, h: History, e: History)
    requires Inv(c, h) && i < |c.ids|
    requires var peer := c.ids[i];
      && VoteAsked(c.nodes[peer], r).1.Ok?
      && n == VoteAsked(c.nodes[peer], r).0 && n.id == peer
      && e == Voted(c.nodes[peer], r, h)
      && Extends(h, e) && NodeOk(n, c.applied[peer], e)
    ensures Inv(Put(c, c.ids[i], n), e)
  {
    hide NodeOk, HistoryOk, VoteAsked, Extends;
    VotesGrow(h, e, c.nodes.Keys);
    if e != h {
      OthersStay(c, c.ids[i], r.term, r.candidate, h, e);
    }
  }

  lemma ElectOk(c: Cluster, candidate: U64, h: History) returns (g: History)
    requires Inv(c, h)
    ensures Extends(h, g) && Left(Elected(c, candidate), g)
  {
    hide NodeOk, HistoryOk, ElectionStarted, Extends;
    g := h;
    ExtendsSelf(h);
    if candidate !in c.stopped && candidate in c.nodes {
      var n := c.nodes[candidate];
      var (m, r) := ElectionStarted(n);
      StartedShape(n, c.applied[candidate], h);
      if r == Err(TermExhausted) {
        assert c.nodes[candidate := n] == c.nodes;
      } else if r.Err? {
        FailedPut(c, candidate, m, h);
      } else {
        var e := StartOk(n, c.applied[candidate], h, c.nodes.Keys);
        StartElecting(c, candidate, h, e);
        g := ElectFromOk(Put(c, candidate, m), r.value, 0, 1, {candidate}, e);
        ExtendsTrans(h, e, g);
      }
    }
  }

  lemma StartedShape(n: Node, done: seq<Command>, h: History)
    requires NodeOk(n, done, h)
    ensures var (m, r) := ElectionStarted(n);
      && m.id == n.id && m.log == n.log
      && (r.Err? ==> (r.error == TermExhausted && m == n) || (r.error == Io && m.wal == n.wal))
      && (r.Ok? ==>
            && m.term == n.term + 1 && m.vote == Some(n.id)
            && r.value == RequestVote(m.term, n.id, |m.log|, m.LastTerm()))
  {
    hide NodeOk, Replayed;
    NodeReplays(n, done, h);
    if n.term + 1 < U64_LIMIT {
      PersistedOk(n.(term := n.term + 1, role := Candidate, leader := None, vote := Some(n.id)));
    }
  }

  lemma StartElecting(c: Cluster, candidate: U64, h: History, e: History)
    requires Inv(c, h) && candidate in c.nodes && ElectionStarted(c.nodes[candidate]).1.Ok?
    requires var (m, r) := ElectionStarted(c.nodes[candidate]);
      && m.id == candidate && m.term == c.nodes[candidate].term + 1
      && e == h.(votes := h.votes[(m.term as nat, candidate) := candidate])
      && Extends(h, e) && HistoryOk(e, c.nodes.Keys) && NodeOk(m, c.applied[candidate], e)
      && r.value == RequestVote(m.term, candidate, |m.log|, m.LastTerm())
    ensures var (m, r) := ElectionStarted(c.nodes[candidate]);
      Electing(Put(c, candidate, m), r.value, {candidate}, 1, e)
  {
    hide NodeOk, HistoryOk, ElectionStarted, Extends;
    var m := ElectionStarted(c.nodes[candidate]).0;
    ChiefVoted(h, c, m.term, candidate);
    OthersStay(c, candidate, m.term, candidate, h, e);
  }

  /** The leader of a term has reached that term. */
  lemma ChiefVoted(h: History, c: Cluster, t: nat, id: U64)
    requires Inv(c, h) && id in c.nodes && c.nodes[id].term < t
    ensures t in h.chief ==> h.chief[t] != id
  {
    hide NodeOk;
    NodeVotes(c.nodes[id], c.applied[id], h);
    if t in h.chief {
      assert TermOk(h, c.nodes.Keys, t);
    }
  }
}
