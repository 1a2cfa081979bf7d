/**
 * The invariant of the cluster, relative to a history of everything that was
 * ever voted, led and committed. Each clause concerns the history alone or one
 * node against the history, so a step that changes one node is checked there.
 *
 * The history only grows. It names the vote of every voter in every term, the
 * leader of every term with the quorum that chose it, the log that leader had,
 * and every commit with the quorum that stored it.
 */
module RaftInvariant {
  import opened Bytes
  import opened RaftState
  import opened RaftHarness

  datatype History = History(
    votes: map<(nat, U64), U64>,          // (term, voter): the candidate voted for
    chief: map<nat, U64>,                 // term: its leader
    electors: map<nat, set<U64>>,         // term: the nodes that elected its leader
    logs: map<nat, seq<Entry>>,           // term: the log of its leader, as far as it grew
    commits: map<(nat, nat), set<U64>>)   // (term, length): nodes that stored that much of logs[term]

  ghost predicate Shares(a: seq<Entry>, b: seq<Entry>, k: nat) {
    k <= |a| && k <= |b| && a[..k] == b[..k]
  }

  /** Every entry, with all before it, is what the leader of its term had. */
  ghost predicate Rooted(log: seq<Entry>, h: History) {
    forall i :: 0 <= i < |log| ==>
      log[i].term in h.logs && Shares(log, h.logs[log[i].term], i + 1)
  }

  ghost predicate Bounded(log: seq<Entry>, term: nat) {
    forall i :: 0 <= i < |log| ==> log[i].term <= term
  }

  ghost predicate Majority(part: set<U64>, whole: set<U64>) {
    part <= whole && 2 * |part| > |whole|
  }

  ghost predicate TermOk(h: History, ids: set<U64>, t: nat)
    requires t in h.logs && t in h.electors && t in h.chief
  {
    && Rooted(h.logs[t], h) && Bounded(h.logs[t], t)
    && Majority(h.electors[t], ids) && h.chief[t] in h.electors[t]
    && (forall v :: v in h.electors[t] ==> (t, v) in h.votes && h.votes[(t, v)] == h.chief[t])
  }

  /** Every later leader's log begins with the committed part. */
  ghost predicate CommitOk(h: History, ids: set<U64>, t: nat, k: nat)
    requires (t, k) in h.commits
  {
    && t in h.logs && 0 < k <= |h.logs[t]| && h.logs[t][k - 1].term == t
    && Majority(h.commits[(t, k)], ids)
    && (forall u :: u in h.logs && u > t ==> Shares(h.logs[t], h.logs[u], k))
  }

  ghost predicate HistoryOk(h: History, ids: set<U64>) {
    && h.chief.Keys == h.logs.Keys && h.electors.Keys == h.logs.Keys
    && (forall t :: t in h.logs ==> TermOk(h, ids, t))
    && (forall t, k :: (t, k) in h.commits ==> CommitOk(h, ids, t, k))
  }

  ghost predicate Extends(h: History, g: History) {
    && (forall p :: p in h.votes ==> p in g.votes && g.votes[p] == h.votes[p])
    && (forall t :: t in h.chief ==> t in g.chief && g.chief[t] == h.chief[t])
    && (forall t :: t in h.electors ==> t in g.electors && g.electors[t] == h.electors[t])
    && (forall t :: t in h.logs ==> t in g.logs && h.logs[t] <= g.logs[t])
    && (forall p :: p in h.commits ==> p in g.commits && g.commits[p] == h.commits[p])
  }

  // ----- One node -----

  ghost predicate VoteOk(n: Node, h: History) {
    && (n.vote.Some? ==> (n.term, n.id) in h.votes && h.votes[(n.term, n.id)] == n.vote.value)
    && (n.vote.None? ==> (n.term, n.id) !in h.votes)
    && (forall t :: (t, n.id) in h.votes ==> t <= n.term)
  }

  ghost predicate ReignOk(n: Node, h: History) {
    n.role.Leader? ==>
      n.term in h.chief && n.term in h.logs && h.chief[n.term] == n.id && n.log == h.logs[n.term]
  }

  /** The first `len` entries lie within some commit of a term up to `term`. */
  ghost predicate Certified(log: seq<Entry>, len: nat, term: nat, h: History) {
    len == 0 || exists t, k ::
      (t, k) in h.commits && t <= term && len <= k && t in h.logs && Shares(log, h.logs[t], len)
  }

  /** What the node acknowledged towards a commit, it still has. */
  ghost predicate HeldOk(n: Node, h: History) {
    forall t, k :: (t, k) in h.commits && n.id in h.commits[(t, k)] ==>
      t <= n.term && t in h.logs && Shares(n.log, h.logs[t], k)
  }

  ghost predicate NodeOk(n: Node, done: seq<Command>, h: History) {
    && VoteOk(n, h)
    && Rooted(n.log, h) && Bounded(n.log, n.term)
    && ReignOk(n, h)
    && n.commit <= |n.log| && Certified(n.log, n.commit, n.term, h)
    && n.applied <= n.commit && done == Commands(n.log[..n.applied])
    && HeldOk(n, h)
    && Replayed(n.wal) == Some(n.Stored())
  }

  ghost predicate Inv(c: Cluster, h: History) {
    && Shaped(c)
    && HistoryOk(h, c.nodes.Keys)
    && (forall id :: id in c.nodes ==> NodeOk(c.nodes[id], c.applied[id], h))
  }

  /** A node as its file alone would restart it. */
  function Rebooted(n: Node): Node {
    match Replayed(n.wal)
    case None => n
    case Some(p) => Node(n.id, p.term, p.vote, p.log, 0, 0, Follower, None, n.wal, n.room)
  }

  ghost predicate DiskOk(n: Node, h: History) {
    Replayed(n.wal).Some? && NodeOk(Rebooted(n), [], h)
  }

  /** After an I/O error only the files count. */
  ghost predicate Recoverable(c: Cluster, h: History) {
    && Shaped(c)
    && HistoryOk(h, c.nodes.Keys)
    && (forall id :: id in c.nodes ==> DiskOk(c.nodes[id], h))
  }

  // ----- General facts -----

  lemma {:induction false} QuorumsMeet(a: set<U64>, b: set<U64>, whole: set<U64>) returns (v: U64)
    requires Majority(a, whole) && Majority(b, whole)
    ensures v in a && v in b && v in whole
  {
    if a * b == {} {
      assert |a + b| == |a| + |b| - |a * b|;
      Within(a + b, whole);
      assert false;
    }
    v :| v in a * b;
  }

  lemma {:induction false} Within(a: set<U64>, whole: set<U64>)
    requires a <= whole
    ensures |a| <= |whole|
  {
    assert whole == a + (whole - a);
    assert |whole| == |a| + |whole - a|;
  }

  lemma SharesTrans(a: seq<Entry>, b: seq<Entry>, c: seq<Entry>, k: nat, l: nat)
    requires Shares(a, b, k) && Shares(b, c, l) && k <= l
    ensures Shares(a, c, k)
  {
    assert b[..k] == b[..l][..k];
    assert c[..k] == c[..l][..k];
  }

  lemma SharesLess(a: seq<Entry>, b: seq<Entry>, k: nat, l: nat)
    requires Shares(a, b, k) && l <= k
    ensures Shares(a, b, l)
  {
    assert a[..l] == a[..k][..l];
    assert b[..l] == b[..k][..l];
  }

  lemma SharesLonger(a: seq<Entry>, b: seq<Entry>, b': seq<Entry>, k: nat)
    requires Shares(a, b, k) && b <= b'
    ensures Shares(a, b', k)
  {
    assert b == b'[..|b|];
    assert b[..k] == b'[..k];
  }

  /** Terms never fall along a rooted log. */
  lemma TermsRise(log: seq<Entry>, h: History, ids: set<U64>, i: nat, j: nat)
    requires HistoryOk(h, ids) && Rooted(log, h) && i <= j < |log|
    ensures log[i].term <= log[j].term
  {
    var t := log[j].term;
    assert TermOk(h, ids, t);
    assert log[i] == log[..j + 1][i] == h.logs[t][i];
  }

  /** Log matching: equal terms at an index make the logs equal up to it. */
  lemma Matching(a: seq<Entry>, b: seq<Entry>, h: History, i: nat)
    requires Rooted(a, h) && Rooted(b, h)
    requires i < |a| && i < |b| && a[i].term == b[i].term
    ensures Shares(a, b, i + 1)
  {
  }

  lemma RootedGrows(log: seq<Entry>, h: History, g: History)
    requires Rooted(log, h) && Extends(h, g)
    ensures Rooted(log, g)
  {
    forall i | 0 <= i < |log|
      ensures log[i].term in g.logs && Shares(log, g.logs[log[i].term], i + 1)
    {
      SharesLonger(log, h.logs[log[i].term], g.logs[log[i].term], i + 1);
    }
  }

  lemma CertifiedGrows(log: seq<Entry>, len: nat, term: nat, h: History, g: History)
    requires Certified(log, len, term, h) && Extends(h, g)
    ensures Certified(log, len, term, g)
  {
    if len != 0 {
      var t, k :| (t, k) in h.commits && t <= term && len <= k && t in h.logs
        && Shares(log, h.logs[t], len);
      SharesLonger(log, h.logs[t], g.logs[t], len);
    }
  }

  /** A node that takes no part in a step stays as good as it was. */
  lemma NodeStays(n: Node, done: seq<Command>, h: History, g: History)
    requires NodeOk(n, done, h) && Extends(h, g)
    requires forall t :: (t, n.id) in g.votes ==> (t, n.id) in h.votes
    requires n.role.Leader? ==> n.term in g.logs && g.logs[n.term] == h.logs[n.term]
    requires HeldOk(n, g)
    ensures NodeOk(n, done, g)
  {
    RootedGrows(n.log, h, g);
    CertifiedGrows(n.log, n.commit, n.term, h, g);
  }

  lemma HeldGrows(n: Node, h: History, g: History)
    requires HeldOk(n, h) && Extends(h, g) && g.commits == h.commits
    ensures HeldOk(n, g)
  {
    forall t, k | (t, k) in g.commits && n.id in g.commits[(t, k)]
      ensures t <= n.term && t in g.logs && Shares(n.log, g.logs[t], k)
    {
      SharesLonger(n.log, h.logs[t], g.logs[t], k);
    }
  }

  /** A committed part is in the log of the leader of every term from its own on. */
  lemma CommitInLog(h: History, ids: set<U64>, t: nat, k: nat, u: nat)
    requires HistoryOk(h, ids) && (t, k) in h.commits && u in h.logs && t <= u
    ensures t in h.logs && Shares(h.logs[t], h.logs[u], k)
  {
    assert CommitOk(h, ids, t, k);
  }

  /** What is certified agrees with the log of any leader of the same or a later term. */
  lemma CertifiedInLog(log: seq<Entry>, len: nat, term: nat, h: History, ids: set<U64>, u: nat)
    requires HistoryOk(h, ids) && Certified(log, len, term, h) && u in h.logs && term <= u
    requires len <= |log|
    ensures Shares(log, h.logs[u], len)
    ensures Certified(h.logs[u], len, u, h)
  {
    if len != 0 {
      var t, k :| (t, k) in h.commits && t <= term && len <= k && t in h.logs
        && Shares(log, h.logs[t], len);
      CommitInLog(h, ids, t, k, u);
      SharesTrans(log, h.logs[t], h.logs[u], len, k);
      SharesTrans(h.logs[u], log, h.logs[t], len, len);
    }
  }

  // ----- Files -----

  lemma NodeReplays(n: Node, done: seq<Command>, h: History)
    requires NodeOk(n, done, h)
    ensures Replayed(n.wal) == Some(n.Stored())
  {
  }

  lemma PersistedOk(n: Node)
    requires Replayed(n.wal).Some?
    ensures var (m, ok) := Persisted(n);
      && m == n.(wal := m.wal, room := m.room)
      && (ok ==> Replayed(m.wal) == Some(n.Stored()))
      && (!ok ==> m == n)
  {
    var (m, ok) := Persisted(n);
    if ok {
      PersistentRoundTrip(n.Stored());
      assert m.wal[..|m.wal| - 1] == n.wal;
    }
  }

  lemma DiskStays(n: Node, m: Node, done: seq<Command>, h: History)
    requires NodeOk(n, done, h)
    requires m.wal == n.wal && m.id == n.id
    ensures DiskOk(m, h)
  {
    var b := Rebooted(m);
    assert Commands(b.log[..0]) == [];
    assert b.term == n.term && b.vote == n.vote && b.log == n.log && b.id == n.id;
    assert VoteOk(b, h);
    assert HeldOk(b, h);
  }

  lemma InvRecoverable(c: Cluster, h: History)
    requires Inv(c, h)
    ensures Recoverable(c, h)
  {
    forall id | id in c.nodes
      ensures DiskOk(c.nodes[id], h)
    {
      DiskStays(c.nodes[id], c.nodes[id], c.applied[id], h);
    }
  }

  /** Losing one node's memory to an I/O error leaves a recoverable cluster. */
  lemma FailedPut(c: Cluster, id: U64, m: Node, h: History)
    requires Inv(c, h) && id in c.nodes && m.id == id && m.wal == c.nodes[id].wal
    ensures Recoverable(Put(c, id, m), h)
  {
    InvRecoverable(c, h);
    DiskStays(c.nodes[id], m, c.applied[id], h);
  }

  lemma PutOk(c: Cluster, id: U64, m: Node, h: History)
    requires Inv(c, h) && id in c.nodes && m.id == id && NodeOk(m, c.applied[id], h)
    ensures Inv(Put(c, id, m), h)
  {
  }
}
