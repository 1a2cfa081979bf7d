module RaftProgress {
  // What elections and replication achieve: the exact answer of every call on disks that have room.

  import opened Bytes
  import opened RaftState
  import opened RaftHarness
  import opened RaftInvariant
  import opened RaftSteps
  import opened RaftReplication
  import opened RaftSafety

  /** The disk takes `records` more records of this log. */
  ghost predicate Roomy(n: Node, records: nat) {
    n.room >= records && Encodable(n.log)
  }

  // ----- Elections -----

  /** A running peer with both directions of its link to `x` open. */
  ghost predicate Linked(c: Cluster, x: U64, p: U64) {
    p in c.nodes && p != x && p !in c.stopped && (x, p) !in c.blocked && (p, x) !in c.blocked
  }

  ghost function LastTerm(log: seq<Entry>): nat {
    if log == [] then 0 else log[|log| - 1].term
  }

  /** The last entry of `a` has an older term than that of `b`, or the same and `a` is no longer. */
  ghost predicate NoNewer(a: seq<Entry>, b: seq<Entry>) {
    LastTerm(a) < LastTerm(b) || (LastTerm(a) == LastTerm(b) && |a| <= |b|)
  }

  /** `p` is free to vote for a candidate with this log in `term`. */
  ghost predicate Free(p: Node, x: U64, term: nat, log: seq<Entry>) {
    && (p.term < term || (p.term == term && (p.vote.None? || p.vote == Some(x))))
    && NoNewer(p.log, log)
  }

  ghost function Granters(c: Cluster, x: U64): set<U64>
    requires x in c.nodes
  {
    set p | p in c.nodes && Linked(c, x, p) && Free(c.nodes[p], x, c.nodes[x].term + 1, c.nodes[x].log)
  }

  /** A peer the candidate can reach is past the term of the election. */
  ghost predicate Overtaken(c: Cluster, x: U64)
    requires x in c.nodes
  {
    exists p :: p in c.nodes && Linked(c, x, p) && c.nodes[p].term > c.nodes[x].term + 1
  }

  /** The granters among the nodes still to be asked. */
  ghost function GrantersFrom(c: Cluster, r: RequestVote, log: seq<Entry>, i: nat): set<U64>
    requires i <= |c.ids|
  {
    set p | p in c.ids[i..] && p in c.nodes && Linked(c, r.candidate, p) && Free(c.nodes[p], r.candidate, r.term, log)
  }

  ghost predicate OvertakenFrom(c: Cluster, r: RequestVote, i: nat)
    requires i <= |c.ids|
  {
    exists p :: p in c.ids[i..] && p in c.nodes && Linked(c, r.candidate, p) && c.nodes[p].term > r.term
  }

  /** A candidate in its term, with room to step down, asks on. */
  ghost predicate Asking(c: Cluster, r: RequestVote, log: seq<Entry>, i: nat) {
    && Shaped(c) && i <= |c.ids| && r.candidate in c.nodes
    && r == RequestVote(r.term, r.candidate, |log|, LastTerm(log))
    && c.nodes[r.candidate].term == r.term && Roomy(c.nodes[r.candidate], 1)
    && (forall p :: p in c.ids[i..] && p in c.nodes && Linked(c, r.candidate, p) ==> Roomy(c.nodes[p], 1))
  }

  /** A record that fits is taken, and nothing else changes. */
  lemma SaveFits(n: Node)
    requires Roomy(n, 1)
    ensures var (m, ok) := Persisted(n); ok && m == n.(wal := m.wal, room := n.room - 1)
  {
    hide HeadBytes, LogBytes;
  }

  /** One voter: who is past the term says so, who is free votes, all others only take the term. */
  lemma VoteExact(n: Node, r: RequestVote, log: seq<Entry>)
    requires Roomy(n, 1) && r.lastIndex == |log| && r.lastTerm == LastTerm(log)
    ensures var (m, o) := VoteAsked(n, r);
      && o.Ok? && m.id == n.id && m.log == n.log
      && (n.term > r.term ==> o.value.term == n.term > r.term && m == n)
      && (n.term <= r.term ==>
            && o.value.term == m.term == r.term
            && (o.value.granted <==> Free(n, r.candidate, r.term, log))
            && (o.value.granted ==> m.vote == Some(r.candidate)))
  {
    hide Persisted, Encodable;
    if n.term <= r.term {
      var b := if r.term > n.term then InTerm(n, r.term) else n;
      SaveFits(b);
      SaveFits(b.(vote := Some(r.candidate)));
    }
  }

  /** Nobody is asked twice. */
  lemma RestApart(c: Cluster, i: nat)
    requires Shaped(c) && i < |c.ids|
    ensures c.ids[i] in c.nodes && c.ids[i..] == [c.ids[i]] + c.ids[i + 1..]
    ensures forall p :: p in c.ids[i + 1..] ==> p != c.ids[i] && p in c.nodes
  {
  }

  lemma SameLinks(c: Cluster, d: Cluster, x: U64, p: U64)
    requires SameShape(c, d)
    ensures Linked(d, x, p) <==> Linked(c, x, p)
  {
  }

  /** Asking one peer changes nothing for those still to be asked. */
  lemma AskRest(c: Cluster, d: Cluster, r: RequestVote, log: seq<Entry>, i: nat)
    requires Asking(c, r, log, i) && i < |c.ids| && Shaped(d) && SameShape(c, d)
    requires forall p :: p in c.nodes && p != c.ids[i] ==> d.nodes[p] == c.nodes[p]
    requires c.ids[i] != r.candidate
    ensures Asking(d, r, log, i + 1)
    ensures GrantersFrom(d, r, log, i + 1) == GrantersFrom(c, r, log, i) - {c.ids[i]}
    ensures OvertakenFrom(c, r, i) <==>
      OvertakenFrom(d, r, i + 1) || (Linked(c, r.candidate, c.ids[i]) && c.nodes[c.ids[i]].term > r.term)
  {
    hide Free, Roomy, Enumerates, Linked;
    RestApart(c, i);
    forall p: U64
      ensures Linked(d, r.candidate, p) <==> Linked(c, r.candidate, p)
    {
      SameLinks(c, d, r.candidate, p);
    }
  }

  lemma SkipRest(c: Cluster, r: RequestVote, log: seq<Entry>, i: nat)
    requires Asking(c, r, log, i) && i < |c.ids| && !Linked(c, r.candidate, c.ids[i])
    ensures Asking(c, r, log, i + 1)
    ensures GrantersFrom(c, r, log, i + 1) == GrantersFrom(c, r, log, i)
    ensures OvertakenFrom(c, r, i) <==> OvertakenFrom(c, r, i + 1)
  {
    hide Free, Roomy, Enumerates;
    assert c.ids[i..] == [c.ids[i]] + c.ids[i + 1..];
  }

  /** The candidate steps down into the later term it learns of. */
  lemma StepsDown(n: Node, term: U64)
    requires Roomy(n, 1) && term > n.term
    ensures var (m, o) := TermObserved(n, term);
      o.Ok? && m == n.(term := term, vote := None, role := Follower, leader := None, wal := m.wal, room := n.room - 1)
  {
    hide Persisted, Encodable;
    SaveFits(InTerm(n, term));
  }

  /** How the election ends for the candidate. */
  ghost predicate Ended(before: Node, after: Node, overtaken: bool, won: bool) {
    if overtaken then after.role == Follower && after.term > before.term && after.vote == None
    else if won then after == before.(role := Leader, leader := Some(before.id))
    else after == before
  }

  /** Every voter asked that was free has voted for the candidate. */
  ghost predicate AllVoted(d: Cluster, voters: set<U64>, x: U64, term: nat) {
    forall p :: p in voters && p in d.nodes ==> d.nodes[p].vote == Some(x) && d.nodes[p].term == term
  }

  /** The end of an election in which `ids[i..]` are still to be asked. */
  ghost predicate Decided(c: Cluster, r: RequestVote, log: seq<Entry>, i: nat, votes: nat, o: (Cluster, Outcome<bool>))
    requires Asking(c, r, log, i)
  {
    var (d, answer) := o;
    var overtaken, won := OvertakenFrom(c, r, i), 2 * (votes + |GrantersFrom(c, r, log, i)|) > |c.nodes|;
    && d.nodes.Keys == c.nodes.Keys && answer == Ok(!overtaken && won)
    && Ended(c.nodes[r.candidate], d.nodes[r.candidate], overtaken, won)
    && (!overtaken ==> AllVoted(d, GrantersFrom(c, r, log, i), r.candidate, r.term))
    && (forall p :: p in c.nodes && p != r.candidate && (p in c.ids[i..] ==> !Linked(c, r.candidate, p)) ==>
          d.nodes[p] == c.nodes[p])
  }

  lemma DecidedNow(c: Cluster, r: RequestVote, log: seq<Entry>, votes: nat)
    requires Asking(c, r, log, |c.ids|)
    ensures Decided(c, r, log, |c.ids|, votes, ElectFrom(c, r, |c.ids|, votes))
  {
    hide Free, Roomy, Enumerates;
    assert GrantersFrom(c, r, log, |c.ids|) == {};
  }

  lemma DecidedSkip(c: Cluster, r: RequestVote, log: seq<Entry>, i: nat, votes: nat, o: (Cluster, Outcome<bool>))
    requires Asking(c, r, log, i) && i < |c.ids| && !Linked(c, r.candidate, c.ids[i])
    requires Asking(c, r, log, i + 1) && Decided(c, r, log, i + 1, votes, o)
    requires GrantersFrom(c, r, log, i + 1) == GrantersFrom(c, r, log, i)
    requires OvertakenFrom(c, r, i) <==> OvertakenFrom(c, r, i + 1)
    ensures Decided(c, r, log, i, votes, o)
  {
    hide Asking, GrantersFrom, OvertakenFrom, Ended, AllVoted, Linked;
    assert c.ids[i..] == [c.ids[i]] + c.ids[i + 1..];
  }

  lemma DecidedAsk(
    c: Cluster, d: Cluster, r: RequestVote, log: seq<Entry>, i: nat, votes: nat, o: (Cluster, Outcome<bool>))
    requires Asking(c, r, log, i) && i < |c.ids| && Linked(c, r.candidate, c.ids[i]) && c.nodes[c.ids[i]].term <= r.term
    requires Shaped(d) && SameShape(c, d) && forall p :: p in c.nodes && p != c.ids[i] ==> d.nodes[p] == c.nodes[p]
    requires var free := Free(c.nodes[c.ids[i]], r.candidate, r.term, log);
      && (free ==> d.nodes[c.ids[i]].vote == Some(r.candidate) && d.nodes[c.ids[i]].term == r.term)
      && Asking(d, r, log, i + 1) && Decided(d, r, log, i + 1, votes + (if free then 1 else 0), o)
    ensures Decided(c, r, log, i, votes, o)
  {
    hide Free, Roomy, Ended, Asking, OvertakenFrom, GrantersFrom, Linked, Shaped, AllVoted;
    AskingShape(c, r, log, i);
    PeerGrants(c, r, log, i);
    AskRest(c, d, r, log, i);
    var peer, voters := c.ids[i], GrantersFrom(c, r, log, i);
    OneOut(voters, peer);
    SameCount(c, d);
    Unasked(c, d, r, i, o.0);
    if !OvertakenFrom(c, r, i) {
      OneMoreVoted(o.0, voters, peer, r.candidate, r.term);
    }
  }

  lemma OneOut(voters: set<U64>, peer: U64)
    ensures |voters| == |voters - {peer}| + (if peer in voters then 1 else 0)
  {
    if peer in voters {
      assert voters == (voters - {peer}) + {peer};
    } else {
      assert voters == voters - {peer};
    }
  }

  lemma SameCount(c: Cluster, d: Cluster)
    requires SameShape(c, d)
    ensures |d.nodes| == |c.nodes|
  {
    assert |c.nodes| == |c.nodes.Keys| == |d.nodes.Keys| == |d.nodes|;
  }

  lemma OneMoreVoted(e: Cluster, voters: set<U64>, peer: U64, x: U64, term: nat)
    requires AllVoted(e, voters - {peer}, x, term)
    requires peer in voters && peer in e.nodes ==> e.nodes[peer].vote == Some(x) && e.nodes[peer].term == term
    ensures AllVoted(e, voters, x, term)
  {
  }

  /** Who was not asked before is not asked for having been asked now. */
  lemma Unasked(c: Cluster, d: Cluster, r: RequestVote, i: nat, e: Cluster)
    requires Shaped(c) && i < |c.ids| && Linked(c, r.candidate, c.ids[i])
    requires SameShape(c, d) && e.nodes.Keys == c.nodes.Keys
    requires forall p :: p in c.nodes && p != c.ids[i] ==> d.nodes[p] == c.nodes[p]
    requires forall p :: p in d.nodes && p != r.candidate && (p in d.ids[i + 1..] ==> !Linked(d, r.candidate, p)) ==>
      e.nodes[p] == d.nodes[p]
    ensures forall p :: p in c.nodes && p != r.candidate && (p in c.ids[i..] ==> !Linked(c, r.candidate, p)) ==>
      e.nodes[p] == c.nodes[p]
    ensures c.ids[i] != r.candidate && e.nodes[c.ids[i]] == d.nodes[c.ids[i]]
  {
    hide Enumerates;
    RestApart(c, i);
    assert c.ids[i] in c.ids[i..];
    forall p: U64
      ensures Linked(d, r.candidate, p) <==> Linked(c, r.candidate, p)
    {
      SameLinks(c, d, r.candidate, p);
    }
  }

  lemma PeerGrants(c: Cluster, r: RequestVote, log: seq<Entry>, i: nat)
    requires Shaped(c) && i < |c.ids| && Linked(c, r.candidate, c.ids[i])
    ensures c.ids[i] in GrantersFrom(c, r, log, i) <==> Free(c.nodes[c.ids[i]], r.candidate, r.term, log)
    ensures c.ids[i] != r.candidate
  {
    hide Free;
    assert c.ids[i] in c.ids[i..];
  }

  lemma {:induction false} ElectFromExact(c: Cluster, r: RequestVote, log: seq<Entry>, i: nat, votes: nat)
    requires Asking(c, r, log, i)
    ensures Decided(c, r, log, i, votes, ElectFrom(c, r, i, votes))
    decreases |c.ids| - i
  {
    hide Free, Roomy, VoteAsked, TermObserved, Decided, Asking, Shaped;
    AskingShape(c, r, log, i);
    if i == |c.ids| {
      DecidedNow(c, r, log, votes);
    } else if !CanAsk(c, r.candidate, c.ids[i]) {
      SkipRest(c, r, log, i);
      ElectFromExact(c, r, log, i + 1, votes);
      DecidedSkip(c, r, log, i, votes, ElectFrom(c, r, i + 1, votes));
    } else {
      var peer := c.ids[i];
      VoteExact(c.nodes[peer], r, log);
      var (n, reply) := VoteAsked(c.nodes[peer], r);
      var d := Put(c, peer, n);
      if reply.value.term > r.term {
        DecidedOvertaken(c, r, log, i, votes);
      } else {
        AskRest(c, d, r, log, i);
        var more := votes + if reply.value.granted then 1 else 0;
        ElectFromExact(d, r, log, i + 1, more);
        DecidedAsk(c, d, r, log, i, votes, ElectFrom(d, r, i + 1, more));
      }
    }
  }

  lemma AskingShape(c: Cluster, r: RequestVote, log: seq<Entry>, i: nat)
    requires Asking(c, r, log, i)
    ensures Shaped(c) && i <= |c.ids| && r.candidate in c.nodes
    ensures r.lastIndex == |log| && r.lastTerm == LastTerm(log)
    ensures i < |c.ids| ==> c.ids[i] in c.nodes && c.nodes[c.ids[i]].id == c.ids[i]
    ensures i < |c.ids| && Linked(c, r.candidate, c.ids[i]) ==> Roomy(c.nodes[c.ids[i]], 1)
  {
    hide Roomy;
    if i < |c.ids| {
      assert c.ids[i] in c.ids[i..];
    }
  }

  lemma DecidedOvertaken(c: Cluster, r: RequestVote, log: seq<Entry>, i: nat, votes: nat)
    requires Asking(c, r, log, i) && i < |c.ids| && CanAsk(c, r.candidate, c.ids[i])
    requires c.ids[i] in c.nodes && c.nodes[c.ids[i]].term > r.term
    ensures Decided(c, r, log, i, votes, ElectFrom(c, r, i, votes))
  {
    hide Free, Roomy, VoteAsked, TermObserved, Enumerates;
    var peer := c.ids[i];
    assert peer in c.ids[i..] && Linked(c, r.candidate, peer);
    VoteExact(c.nodes[peer], r, log);
    var (n, reply) := VoteAsked(c.nodes[peer], r);
    StepsDown(c.nodes[r.candidate], reply.value.term);
    assert Put(c, peer, n) == c by {
      assert c.nodes[peer := n] == c.nodes;
    }
  }

  /**
   * The exact answer of an election on disks with room: it is won if and only if no linked peer is
   * past its term and the candidate with the free voters it can reach are a majority.
   */
  lemma ElectionExact(c: Cluster, x: U64)
    requires Shaped(c) && x in c.nodes && x !in c.stopped && c.nodes[x].term + 1 < U64_LIMIT && Roomy(c.nodes[x], 2)
    requires forall p :: p in c.nodes && Linked(c, x, p) ==> Roomy(c.nodes[p], 1)
    ensures var (d, o) := Elected(c, x);
      var l, n := c.nodes[x], d.nodes[x];
      && o == Ok(!Overtaken(c, x) && 2 * |{x} + Granters(c, x)| > |c.nodes|)
      && (o == Ok(true) ==>
            && n.role == Leader && n.leader == Some(x) && n.term == l.term + 1 && n.log == l.log
            && AllVoted(d, {x} + Granters(c, x), x, l.term + 1))
      && (o == Ok(false) ==> n.role == if Overtaken(c, x) then Follower else Candidate)
      && (Overtaken(c, x) ==> n.term > l.term + 1)
      && (forall p :: p in c.nodes && p != x && !Linked(c, x, p) ==> d.nodes[p] == c.nodes[p])
  {
    hide Free, Asking, GrantersFrom, OvertakenFrom, Granters, Overtaken, Linked, Enumerates, ElectionStarted;
    var r := StartExact(c, x);
    var d := Put(c, x, ElectionStarted(c.nodes[x]).0);
    ElectFromExact(d, r, c.nodes[x].log, 0, 1);
    SameVoters(c, d, r);
    assert |{x} + Granters(c, x)| == 1 + |Granters(c, x)|;
    forall p: U64
      ensures Linked(d, x, p) <==> Linked(c, x, p)
    {
      SameLinks(c, d, x, p);
    }
  }

  lemma StartExact(c: Cluster, x: U64) returns (r: RequestVote)
    requires Shaped(c) && x in c.nodes && c.nodes[x].term + 1 < U64_LIMIT && Roomy(c.nodes[x], 2)
    requires forall p :: p in c.nodes && Linked(c, x, p) ==> Roomy(c.nodes[p], 1)
    ensures var (n, o) := ElectionStarted(c.nodes[x]);
      && o == Ok(r) && n.id == x && n.log == c.nodes[x].log && n.term == r.term == c.nodes[x].term + 1
      && n.role == Candidate && n.vote == Some(x) && r.candidate == x
      && Asking(Put(c, x, n), r, n.log, 0) && x !in Granters(c, x)
  {
    hide Persisted, Encodable, Enumerates, Free;
    var l := c.nodes[x];
    SaveFits(l.(term := l.term + 1, role := Candidate, leader := None, vote := Some(l.id)));
    r := ElectionStarted(l).1.value;
  }

  lemma SameVoters(c: Cluster, d: Cluster, r: RequestVote)
    requires Shaped(c) && Shaped(d) && SameShape(c, d) && r.candidate in c.nodes
    requires r.term == c.nodes[r.candidate].term + 1
    requires forall p :: p in c.nodes && p != r.candidate ==> d.nodes[p] == c.nodes[p]
    ensures GrantersFrom(d, r, c.nodes[r.candidate].log, 0) == Granters(c, r.candidate)
    ensures OvertakenFrom(d, r, 0) <==> Overtaken(c, r.candidate)
  {
    hide Free;
    assert d.ids[0..] == d.ids;
    if Overtaken(c, r.candidate) {
      var p :| p in c.nodes && Linked(c, r.candidate, p) && c.nodes[p].term > c.nodes[r.candidate].term + 1;
      assert p in d.ids[0..] && Linked(d, r.candidate, p);
    }
  }

  // ----- Replication -----

  /** The running followers the leader can send to. */
  ghost function Peers(c: Cluster, leader: U64): set<U64> {
    set id | id in c.nodes && id != leader && id !in c.stopped && (leader, id) !in c.blocked
  }

  /** A follower the leader can send to is in a later term. */
  ghost predicate Deposed(c: Cluster, leader: U64)
    requires leader in c.nodes
  {
    exists id :: id in Peers(c, leader) && c.nodes[id].term > c.nodes[leader].term
  }

  ghost predicate DeposedFrom(c: Cluster, m: Mission, i: nat)
    requires i <= |c.ids|
  {
    exists id :: id in c.ids[i..] && id in Peers(c, m.leader) && c.nodes[id].term > m.term
  }

  /** A leader in its term, with room to step down, sends on to followers with room. */
  ghost predicate Sending(c: Cluster, m: Mission, i: nat) {
    && Shaped(c) && i <= |c.ids| && m.leader in c.nodes && Encodable(m.log)
    && c.nodes[m.leader].term == m.term && Roomy(c.nodes[m.leader], 1)
    && (forall id :: id in c.ids[i..] && id in Peers(c, m.leader) ==> Roomy(c.nodes[id], 2))
  }

  /** A log made of a first part of one and the rest of another that fit, fits. */
  lemma MergedFits(a: seq<Entry>, b: seq<Entry>, k: nat)
    requires Encodable(a) && Encodable(b) && k <= |a| && k <= |b|
    ensures Encodable(a[..k] + b[k..])
  {
  }

  /** A request a follower cannot match costs at most the record of the new term. */
  lemma AppendFits(n: Node, m: Mission, prev: nat)
    requires prev <= |m.log| && n.term <= m.term && Encodable(m.log) && Roomy(n, if n.term < m.term then 2 else 1)
    ensures var (w, o) := Appended(n, ProbeRequest(m, prev));
      && o.Ok? && o.value.term == m.term
      && (o.value.success ==> o.value.matchIndex == |m.log|)
      && (!o.value.success ==> prev > 0 && w.term == m.term && Roomy(w, 1))
  {
    hide Persisted, Encodable;
    var r := ProbeRequest(m, prev);
    var b := (if r.term > n.term then n.(term := r.term, vote := None) else n)
             .(role := Follower, leader := Some(r.leader));
    if PreviousMatches(n.log, r) {
      MergedFits(n.log, m.log, prev);
      SaveFits(b.(log := n.log[..prev] + m.log[prev..]));
    } else {
      SaveFits(b);
    }
  }

  /** On a disk with room probing always ends in a match of the whole log. */
  lemma {:induction false} ProbeFits(n: Node, m: Mission, prev: nat)
    requires prev <= |m.log| && n.term <= m.term && Encodable(m.log) && Roomy(n, if n.term < m.term then 2 else 1)
    ensures Probe(n, m, prev).1 == Ok(Matched(|m.log|))
    decreases prev
  {
    hide Appended, Encodable;
    AppendFits(n, m, prev);
    var (w, o) := Appended(n, ProbeRequest(m, prev));
    if !o.value.success {
      ProbeFits(w, m, prev - 1);
    }
  }

  lemma ProbeAhead(n: Node, m: Mission)
    requires n.term > m.term
    ensures Probe(n, m, |m.log|) == (n, Ok(Ahead(n.term)))
  {
  }

  lemma SendingAt(c: Cluster, m: Mission, i: nat)
    requires Sending(c, m, i)
    ensures Shaped(c) && m.leader in c.nodes && Encodable(m.log) && i <= |c.ids|
    ensures c.nodes[m.leader].term == m.term && Roomy(c.nodes[m.leader], 1)
    ensures i < |c.ids| ==> c.ids[i] in c.nodes && c.nodes[c.ids[i]].id == c.ids[i]
    ensures i < |c.ids| && c.ids[i] in Peers(c, m.leader) ==> Roomy(c.nodes[c.ids[i]], 2)
  {
    hide Roomy, Encodable;
    if i < |c.ids| {
      assert c.ids[i] in c.ids[i..];
    }
  }

  lemma SendRest(c: Cluster, d: Cluster, m: Mission, i: nat)
    requires Sending(c, m, i) && i < |c.ids| && Shaped(d) && SameShape(c, d)
    requires forall id :: id in c.nodes && (id != c.ids[i] || id == m.leader) ==> d.nodes[id] == c.nodes[id]
    requires c.ids[i] in Peers(c, m.leader) ==> c.nodes[c.ids[i]].term <= m.term
    ensures Sending(d, m, i + 1)
    ensures DeposedFrom(c, m, i) <==> DeposedFrom(d, m, i + 1)
  {
    hide Roomy, Enumerates, Encodable, Peers;
    RestApart(c, i);
    SamePeers(c, d, m.leader);
  }

  lemma SamePeers(c: Cluster, d: Cluster, leader: U64)
    requires SameShape(c, d)
    ensures Peers(d, leader) == Peers(c, leader)
  {
  }

  /** A round fails exactly over a follower in a later term, and then the leader steps down. */
  lemma {:induction false} ReplicateFromExact(c: Cluster, m: Mission, i: nat, matched: seq<nat>)
    requires Sending(c, m, i)
    ensures var (d, o) := ReplicateFrom(c, m, i, matched);
      && (o.Ok? <==> !DeposedFrom(c, m, i))
      && (o.Err? ==>
            o.error == HigherTerm && d.nodes[m.leader].role == Follower && d.nodes[m.leader].term > m.term)
    decreases |c.ids| - i
  {
    hide Roomy, Enumerates, Encodable, Sending, Probe, TermObserved, DeposedFrom;
    SendingAt(c, m, i);
    if i == |c.ids| {
      NobodyLeft(c, m);
    } else {
      var id := c.ids[i];
      if id == m.leader || !CanSend(c, m.leader, id) {
        SendRest(c, c, m, i);
        ReplicateFromExact(c, m, i + 1, if id == m.leader then matched else matched + [0]);
      } else if c.nodes[id].term > m.term {
        ProbeAhead(c.nodes[id], m);
        StepsDown(c.nodes[m.leader], c.nodes[id].term);
        DeposedHere(c, m, i);
      } else {
        FitsMore(c.nodes[id], m);
        ProbeFits(c.nodes[id], m, |m.log|);
        var d := Put(c, id, Probe(c.nodes[id], m, |m.log|).0);
        SendRest(c, d, m, i);
        ReplicateFromExact(d, m, i + 1, matched + [|m.log|]);
      }
    }
  }

  lemma FitsMore(n: Node, m: Mission)
    requires Roomy(n, 2)
    ensures Roomy(n, if n.term < m.term then 2 else 1)
  {
    hide Encodable;
  }

  lemma NobodyLeft(c: Cluster, m: Mission)
    ensures !DeposedFrom(c, m, |c.ids|)
  {
  }

  lemma DeposedHere(c: Cluster, m: Mission, i: nat)
    requires i < |c.ids| && c.ids[i] in Peers(c, m.leader) && c.nodes[c.ids[i]].term > m.term
    ensures DeposedFrom(c, m, i)
  {
    assert c.ids[i] in c.ids[i..];
  }

  /** The leader and the followers it can send to are most of the cluster. */
  ghost predicate HasMajority(c: Cluster, leader: U64) {
    2 * |{leader} + Peers(c, leader)| > |c.nodes|
  }

  /** The commit index a complete round ends with. */
  ghost function CommitAfter(c: Cluster, leader: U64): nat
    requires leader in c.nodes
  {
    var l := c.nodes[leader];
    if l.log != [] && l.log[|l.log| - 1].term == l.term && HasMajority(c, leader) then |l.log| else l.commit
  }

  lemma ReachedArePeers(c: Cluster, leader: U64)
    requires Shaped(c) && leader in c.nodes
    ensures Reached(c, leader, |c.ids|) == Peers(c, leader)
    ensures |{leader} + Peers(c, leader)| == 1 + |Peers(c, leader)|
  {
    assert c.ids[..|c.ids|] == c.ids;
  }

  /** Once every follower has answered, the leader commits its log exactly if a majority stores it. */
  lemma AdvanceExact(c: Cluster, m: Mission, matched: seq<nat>, h: History)
    requires Underway(c, m, |c.ids|, h) && Tallied(c, m, |c.ids|, matched)
    ensures CommitAdvanced(c.nodes[m.leader], matched).commit == CommitAfter(c, m.leader)
  {
    hide NodeOk, HistoryOk, Inv, MissionOk, Stored, Enumerates, Peers, Reached, Others;
    UnderwayShape(c, m, h);
    IdAt(c, h, |c.ids|);
    InvAt(c, h, m.leader);
    ReachedArePeers(c, m.leader);
    OthersCount(c, m.leader);
    var n := c.nodes[m.leader];
    LeaderTerms(n, c.applied[m.leader], h, c.nodes.Keys);
    CommitJumps(n, matched, |Reached(c, m.leader, |c.ids|)|);
  }

  /** Everyone the leader can send to has room for two records, and the leader for one. */
  ghost predicate RoundRoom(c: Cluster, leader: U64)
    requires leader in c.nodes
  {
    Roomy(c.nodes[leader], 1) && forall id :: id in Peers(c, leader) ==> Roomy(c.nodes[id], 2)
  }

  /** The exact answer of a round of replication on disks with room. */
  lemma RoundExact(c: Cluster, leader: U64, h: History)
    requires Inv(c, h) && leader in c.nodes && c.nodes[leader].role.Leader? && RoundRoom(c, leader)
    ensures var (d, o) := ReplicatedExisting(c, leader);
      if Deposed(c, leader) then
        o == Err(HigherTerm) && d.nodes[leader].role == Follower && d.nodes[leader].term > c.nodes[leader].term
      else o == Ok(CommitAfter(c, leader)) && d.nodes[leader].commit == CommitAfter(c, leader)
  {
    hide NodeOk, HistoryOk, Inv, Enumerates, ReplicateFrom, Committed, CommitAdvanced, Extends, DeposedFrom;
    hide Underway, Tallied, Deposed, RoundRoom, CommitAfter, Published, CaughtUp, Recoverable;
    InvAt(c, h, leader);
    var l := c.nodes[leader];
    var m := Mission(leader, l.term, l.log, l.commit);
    StartMission(c, m, h);
    StartSending(c, m);
    ReplicateFromOk(c, m, 0, [], h);
    ReplicateFromExact(c, m, 0, []);
    var (d, matched) := ReplicateFrom(c, m, 0, []);
    if matched.Ok? {
      AdvanceExact(d, m, matched.value, h);
      SameCommitAfter(c, d, leader);
      var g := AdvanceOk(d, m, matched.value, h);
      var w := CommitAdvanced(d.nodes[leader], matched.value);
      CommittedOk(Put(d, leader, w), m.(commit := w.commit), g);
    }
  }

  lemma SameCommitAfter(c: Cluster, d: Cluster, leader: U64)
    requires SameShape(c, d) && leader in c.nodes && d.nodes[leader] == c.nodes[leader]
    ensures CommitAfter(d, leader) == CommitAfter(c, leader)
  {
    hide Peers;
    SamePeers(c, d, leader);
    assert |c.nodes| == |c.nodes.Keys| == |d.nodes.Keys| == |d.nodes|;
  }

  lemma StartSending(c: Cluster, m: Mission)
    requires Shaped(c) && m.leader in c.nodes && RoundRoom(c, m.leader)
    requires c.nodes[m.leader].log == m.log && c.nodes[m.leader].term == m.term
    ensures Sending(c, m, 0) && (DeposedFrom(c, m, 0) <==> Deposed(c, m.leader))
  {
    hide Encodable;
    assert c.ids[0..] == c.ids;
  }

  /**
   * The exact answer of `replicate` on disks with room: the next index if and only if no follower it
   * can send to is in a later term and, with the leader, they are a majority.
   */
  lemma ReplicateExact(c: Cluster, leader: U64, command: Command, h: History)
    requires Inv(c, h) && leader in c.nodes && leader !in c.stopped && c.nodes[leader].role.Leader?
    requires RoundRoom(c, leader) && c.nodes[leader].room >= 2
    requires Encodable(c.nodes[leader].log + [Entry(c.nodes[leader].term, command)])
    ensures Replicated(c, leader, command).1 ==
      if Deposed(c, leader) then Err(HigherTerm)
      else if HasMajority(c, leader) then Ok(|c.nodes[leader].log| + 1)
      else Err(NoMajority)
  {
    hide NodeOk, HistoryOk, Inv, Enumerates, Extends, ReplicatedExisting, Recoverable, Encodable, LeaderAppended;
    hide Deposed, HasMajority, RoundRoom;
    InvAt(c, h, leader);
    LeaderCommit(c, leader, h);
    AppendFitsLeader(c, leader, command);
    var g := LeaderAppendOk(c, leader, command, h);
    RoundExact(Put(c, leader, LeaderAppended(c.nodes[leader], command).0), leader, g);
  }

  lemma LeaderCommit(c: Cluster, leader: U64, h: History)
    requires Inv(c, h) && leader in c.nodes
    ensures c.nodes[leader].commit <= |c.nodes[leader].log|
  {
    hide NodeOk, HistoryOk, Enumerates;
    ReignAt(c.nodes[leader], c.applied[leader], h);
  }

  /** Appending to the leader's log changes nothing about who can be reached. */
  lemma AppendFitsLeader(c: Cluster, leader: U64, command: Command)
    requires Shaped(c) && leader in c.nodes && c.nodes[leader].role.Leader?
    requires RoundRoom(c, leader) && c.nodes[leader].room >= 2
    requires Encodable(c.nodes[leader].log + [Entry(c.nodes[leader].term, command)])
    ensures var (n, index) := LeaderAppended(c.nodes[leader], command);
      && n.id == leader && index == Ok(|c.nodes[leader].log| + 1)
      && n.log == c.nodes[leader].log + [Entry(c.nodes[leader].term, command)]
      && n.term == c.nodes[leader].term && n.role.Leader? && n.commit == c.nodes[leader].commit
      && var d := Put(c, leader, n);
      && RoundRoom(d, leader) && (Deposed(d, leader) <==> Deposed(c, leader))
      && (HasMajority(d, leader) <==> HasMajority(c, leader))
  {
    hide Enumerates, Encodable, Persisted, Peers;
    var l := c.nodes[leader];
    SaveFits(l.(log := l.log + [Entry(l.term, command)]));
    var d := Put(c, leader, LeaderAppended(l, command).0);
    SamePeers(c, d, leader);
    PeersOthers(c, leader);
    assert |c.nodes| == |c.nodes.Keys| == |d.nodes.Keys| == |d.nodes|;
  }

  lemma PeersOthers(c: Cluster, leader: U64)
    ensures Peers(c, leader) <= c.nodes.Keys - {leader}
  {
  }

  // ----- Over runs -----

  /** In every run, an election answers as above, whatever came before. */
  lemma ElectAnswers(states: seq<System>, calls: seq<Call>, i: nat, x: U64)
    requires Run(states, calls) && i < |calls| && calls[i] == Elect(x)
    requires var c := states[i].cluster;
      && x in c.nodes && x !in c.stopped && c.nodes[x].term + 1 < U64_LIMIT && Roomy(c.nodes[x], 2)
      && forall p :: p in c.nodes && Linked(c, x, p) ==> Roomy(c.nodes[p], 1)
    ensures var c, won := states[i].cluster, !Overtaken(states[i].cluster, x)
        && 2 * |{x} + Granters(states[i].cluster, x)| > |states[i].cluster.nodes|;
      && Perform(states[i], calls[i]).1 == Ok(Won(won))
      && x in states[i + 1].cluster.nodes && (won <==> states[i + 1].cluster.nodes[x].role == Leader)
  {
    hide Granters, Overtaken, Roomy, Linked, Elected, AllVoted, Fresh;
    ElectionExact(states[i].cluster, x);
  }

  /** In every run, so does `replicate`. */
  lemma ReplicateAnswers(states: seq<System>, calls: seq<Call>, i: nat, leader: U64, command: Command)
    requires Run(states, calls) && i < |calls| && calls[i] == Replicate(leader, command)
    requires var c := states[i].cluster;
      && leader in c.nodes && leader !in c.stopped && c.nodes[leader].role.Leader?
      && RoundRoom(c, leader) && c.nodes[leader].room >= 2
      && Encodable(c.nodes[leader].log + [Entry(c.nodes[leader].term, command)])
    ensures var c := states[i].cluster;
      Perform(states[i], calls[i]).1 ==
        if Deposed(c, leader) then Err(HigherTerm)
        else if HasMajority(c, leader) then Ok(Index(|c.nodes[leader].log| + 1))
        else Err(NoMajority)
  {
    hide Inv, Recoverable, Replicated, RoundRoom, Encodable, Deposed, HasMajority, Fresh, Enumerates;
    var hs := Chronicle(states, calls);
    assert SystemOk(states[i], hs[i]);
    ReplicateExact(states[i].cluster, leader, command, hs[i]);
  }

  /** What `replicate` acknowledges, the leader and every follower it can send to have applied, with all before it. */
  lemma ReplicateApplies(states: seq<System>, calls: seq<Call>, i: nat, index: nat, id: U64)
    requires Run(states, calls) && i < |calls| && calls[i].Replicate?
    requires Perform(states[i], calls[i]).1 == Ok(Index(index))
    requires id in {calls[i].leader} + Peers(states[i].cluster, calls[i].leader)
    ensures var c, leader := states[i].cluster, calls[i].leader;
      && leader in c.nodes && index == |c.nodes[leader].log| + 1 && id in states[i + 1].cluster.applied
      && states[i + 1].cluster.applied[id] == Commands(c.nodes[leader].log) + [calls[i].command]
  {
    hide Run, Peers, SystemOk, NodeOk, Commands, HistoryOk, Settled, AllAcknowledged, Extends, Perform, Told;
    var hs := Chronicle(states, calls);
    ToldLength(states, calls, hs);
    var c, d, leader := states[i].cluster, states[i + 1].cluster, calls[i].leader;
    var start := RoundOf(states, calls, i, index);
    SamePeers(start, d, leader);
    AcknowledgedApplied(start, d, leader, id);
    ToldAt(states, calls, hs, i + 1, id);
    AppliedWhole(d.nodes[id], d.applied[id], hs[i + 1]);
    CommandsMore(c.nodes[leader].log, Entry(c.nodes[leader].term, calls[i].command));
  }

  lemma ToldLength(states: seq<System>, calls: seq<Call>, hs: seq<History>)
    requires Run(states, calls) && Told(states, calls, hs)
    ensures |hs| == |states| == |calls| + 1
  {
    hide SystemOk, Perform, Fresh, Extends;
  }

  lemma AppliedWhole(n: Node, done: seq<Command>, h: History)
    requires NodeOk(n, done, h) && n.applied >= |n.log|
    ensures done == Commands(n.log)
  {
    hide NodeOk;
    AppliedAt(n, done, h);
    assert n.log[..|n.log|] == n.log;
  }

  /** The round an acknowledged command went through. */
  lemma RoundOf(states: seq<System>, calls: seq<Call>, i: nat, index: nat) returns (start: Cluster)
    requires Run(states, calls) && i < |calls| && calls[i].Replicate?
    requires Perform(states[i], calls[i]).1 == Ok(Index(index))
    ensures var c, d, leader := states[i].cluster, states[i + 1].cluster, calls[i].leader;
      && leader in c.nodes && index == |c.nodes[leader].log| + 1 && !states[i + 1].failed
      && leader in start.nodes && leader in d.nodes && SameShape(start, d) && Settled(start, d, leader)
      && start.nodes[leader].log == c.nodes[leader].log + [Entry(c.nodes[leader].term, calls[i].command)]
      && d.nodes[leader].commit >= index && Peers(start, leader) == Peers(c, leader)
  {
    hide ReplicatedExisting, Fresh, Settled, LeaderAppended, Enumerates, Peers;
    var c, leader := states[i].cluster, calls[i].leader;
    AppendExact(c.nodes[leader], calls[i].command);
    start := RoundStart(c, calls[i]).value;
    ReplicationSettles(states, calls, i, leader, start);
    SamePeers(c, start, leader);
  }

  lemma AppendExact(n: Node, command: Command)
    ensures var (m, o) := LeaderAppended(n, command);
      m.id == n.id && (o.Ok? ==> o.value == |n.log| + 1 && m.log == n.log + [Entry(n.term, command)])
  {
  }

  lemma CommandsMore(log: seq<Entry>, e: Entry)
    ensures Commands(log + [e]) == Commands(log) + [e.command]
  {
  }

  /** After a round that commits the whole log, everyone the leader can send to has applied all of it. */
  lemma AcknowledgedApplied(start: Cluster, d: Cluster, leader: U64, id: U64)
    requires leader in start.nodes && leader in d.nodes && Settled(start, d, leader)
    requires d.nodes[leader].commit >= |start.nodes[leader].log| && id in {leader} + Peers(d, leader)
    ensures id in d.nodes && d.nodes[id].log == start.nodes[leader].log
    ensures d.nodes[id].applied == d.nodes[id].commit >= |d.nodes[id].log|
  {
  }

  // ----- Faults and restarts -----

  /** Calls on a stopped node, or for a leader that is none, change nothing. */
  lemma RefusedCalls(c: Cluster, x: U64, command: Command)
    requires Shaped(c)
    ensures x in c.stopped ==> Elected(c, x) == (c, Ok(false)) && Replicated(c, x, command) == (c, Err(Stopped))
    ensures x !in c.stopped && x !in c.nodes ==>
      Elected(c, x) == (c, Err(UnknownNode)) && Replicated(c, x, command) == (c, Err(UnknownNode))
    ensures x !in c.stopped && x in c.nodes && !c.nodes[x].role.Leader? ==>
      Replicated(c, x, command) == (c, Err(NotLeader))
  {
    hide ElectFrom, ReplicatedExisting, Enumerates, ElectionStarted;
    if x in c.nodes {
      assert c.nodes[x := c.nodes[x]] == c.nodes;
    }
  }

  /** Stopping, starting and healing change nothing but what they name. */
  lemma FaultsExact(s: System, node: U64, x: U64)
    requires Shaped(s.cluster) && !s.failed
    ensures x in Perform(s, Stop(node)).0.cluster.stopped <==> x in s.cluster.stopped || x == node
    ensures x in Perform(s, Start(node)).0.cluster.stopped <==> x in s.cluster.stopped && x != node
    ensures Perform(s, HealAll).0.cluster.blocked == {}
    ensures forall call :: call in {Stop(node), Start(node), HealAll, Isolate(node)} ==>
      var c := Perform(s, call).0.cluster;
      c.nodes == s.cluster.nodes && c.applied == s.cluster.applied
        && (call.HealAll? || call.Isolate? ==> c.stopped == s.cluster.stopped)
        && (call.Stop? || call.Start? ==> c.blocked == s.cluster.blocked)
  {
    hide Elected, Replicated, ReplicatedExisting, Reopened, Enumerates;
  }

  /** A partition cuts one link both ways and no other. */
  lemma PartitionExact(c: Cluster, a: U64, b: U64, x: U64, y: U64)
    ensures (x, y) in Partitioned(c, a, b).blocked <==> (x, y) in c.blocked || {x, y} == {a, b}
  {
    if {x, y} == {a, b} {
      assert x in {a, b} && y in {a, b} && a in {x, y} && b in {x, y};
    }
  }

  /** Isolation cuts exactly the links of one node. */
  lemma IsolateExact(c: Cluster, node: U64, x: U64, y: U64)
    requires x in c.nodes && y in c.nodes && node in c.nodes && x != y
    ensures (x, y) in Isolated(c, node).blocked <==> (x, y) in c.blocked || x == node || y == node
  {
  }

  /** An isolated node of a cluster of two or more wins no election and has nothing acknowledged. */
  lemma IsolatedIsPowerless(c: Cluster, x: U64, command: Command, h: History)
    requires Inv(c, h) && x in c.nodes && x !in c.stopped && |c.nodes| >= 2
    requires Roomy(c.nodes[x], 2) && c.nodes[x].term + 1 < U64_LIMIT
    requires Encodable(c.nodes[x].log + [Entry(c.nodes[x].term, command)])
    ensures Elected(Isolated(c, x), x).1 == Ok(false)
    ensures c.nodes[x].role.Leader? ==> Replicated(Isolated(c, x), x, command).1 == Err(NoMajority)
  {
    hide NodeOk, HistoryOk, Elected, Replicated, Encodable;
    var d := Isolated(c, x);
    FaultOk(c, d, h);
    Unlinked(c, x);
    ElectionExact(d, x);
    if c.nodes[x].role.Leader? {
      ReplicateExact(d, x, command, h);
    }
  }

  lemma Unlinked(c: Cluster, x: U64)
    requires x in c.nodes
    ensures var d := Isolated(c, x);
      Granters(d, x) == {} && Peers(d, x) == {} && (forall p :: p in d.nodes ==> !Linked(d, x, p))
  {
    hide Free;
    forall p | p in c.nodes && p != x
      ensures (x, p) in Isolated(c, x).blocked
    {
      IsolateExact(c, x, x, p);
    }
  }

  /** Reopening keeps what was persisted, forgets the rest and clears all faults. */
  lemma ReopenExact(c: Cluster, rooms: map<U64, nat>, h: History)
    requires Inv(c, h) && rooms.Keys == c.nodes.Keys
    ensures Reopened(c, rooms).Some?
    ensures var d := Reopened(c, rooms).value;
      && d.nodes.Keys == c.nodes.Keys && d.blocked == {} && d.stopped == {}
      && forall id :: id in c.nodes ==>
           && d.nodes[id].Stored() == c.nodes[id].Stored() && d.nodes[id].role == Follower
           && d.nodes[id].commit == 0 && d.nodes[id].applied == 0 && d.applied[id] == []
  {
    hide NodeOk, HistoryOk, Enumerates;
    InvRecoverable(c, h);
    ReopenOk(c, rooms, h);
    forall id | id in c.nodes
      ensures Replayed(c.nodes[id].wal) == Some(c.nodes[id].Stored())
    {
      NodeReplays(c.nodes[id], c.applied[id], h);
    }
  }
}
