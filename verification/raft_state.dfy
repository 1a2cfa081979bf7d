/** One Raft node: its persistent record, and the receiver rules of Figure 2 of the Raft paper. */
module RaftState {
  // Each rule is given twice: as a function on the value `Node`, used by the
  // safety proof, and as a method of the class `RaftNode`, proved to compute
  // that function. A node carries its own log file (`wal`, one encoded record per
  // entry) and `room`, the number of records the file accepts before it fails;
  // a refused record is the I/O error that ends a run.

  import opened Bytes
  import Fields

  datatype Role = Follower | Candidate | Leader

  type Command = seq<Byte>

  datatype Entry = Entry(term: U64, command: Command)

  datatype Persistent = Persistent(term: U64, vote: Option<U64>, log: seq<Entry>)

  datatype Error =
    | Io
    | TermExhausted
    | NotLeader
    | Stopped
    | UnknownNode
    | HigherTerm
    | NoMajority
    | OutOfBounds  // an index or lookup the program would panic on

  datatype Outcome<+T> = Ok(value: T) | Err(error: Error)

  datatype RequestVote = RequestVote(term: U64, candidate: U64, lastIndex: nat, lastTerm: nat)
  datatype VoteResponse = VoteResponse(term: U64, granted: bool)
  datatype AppendEntries = AppendEntries(
    term: U64, leader: U64, prevIndex: nat, prevTerm: nat, entries: seq<Entry>, leaderCommit: nat)
  datatype AppendResponse = AppendResponse(term: U64, success: bool, matchIndex: nat)

  datatype Node = Node(
    id: U64,
    term: U64,
    vote: Option<U64>,
    log: seq<Entry>,
    commit: nat,
    applied: nat,
    role: Role,
    leader: Option<U64>,
    wal: seq<seq<Byte>>,
    room: nat)
  {
    function Stored(): Persistent { Persistent(term, vote, log) }
    function LastTerm(): nat { if log == [] then 0 else log[|log| - 1].term }
  }

  // ----- The persistent record -----

  const STATE_TAG: Byte := 0x52
  const STATE_VERSION: Byte := 1

  predicate Encodable(log: seq<Entry>) {
    |log| < U32_LIMIT && forall i :: 0 <= i < |log| ==> |log[i].command| < U32_LIMIT
  }

  function EntryBytes(e: Entry): seq<Byte> {
    ToLe(e.term, 8) + ToLe(|e.command|, 4) + e.command
  }

  function LogBytes(log: seq<Entry>): seq<Byte> {
    if log == [] then [] else EntryBytes(log[0]) + LogBytes(log[1..])
  }

  function VoteBytes(vote: Option<U64>): (s: seq<Byte>)
    ensures |s| == 9
  {
    match vote
    case Some(v) => [1] + ToLe(v, 8)
    case None => [0] + ToLe(0, 8)
  }

  function HeadBytes(p: Persistent): (s: seq<Byte>)
    ensures |s| == 23
  {
    [STATE_TAG, STATE_VERSION] + ToLe(p.term, 8) + VoteBytes(p.vote) + ToLe(|p.log|, 4)
  }

  function Encoded(p: Persistent): Option<seq<Byte>> {
    if Encodable(p.log) then Some(HeadBytes(p) + LogBytes(p.log)) else None
  }

  /** `count` entries read from `offset`, and where the last one ends. */
  function EntriesAt(bytes: seq<Byte>, offset: nat, count: nat): Option<(seq<Entry>, nat)>
    decreases count
  {
    if count == 0 then Some(([], offset))
    else if offset + 12 > |bytes| then None
    else
      var len := FromLe(bytes[offset + 8..offset + 12]);
      if offset + 12 + len > |bytes| then None
      else
        FromLeBound(bytes[offset..offset + 8]); Widths();
        var e := Entry(FromLe(bytes[offset..offset + 8]), bytes[offset + 12..offset + 12 + len]);
        match EntriesAt(bytes, offset + 12 + len, count - 1)
        case None => None
        case Some((rest, end)) => Some(([e] + rest, end))
  }

  function Decoded(bytes: seq<Byte>): Option<Persistent> {
    if |bytes| < 23 || bytes[0] != STATE_TAG || bytes[1] != STATE_VERSION || bytes[10] > 1 then None
    else
      FromLeBound(bytes[2..10]); FromLeBound(bytes[11..19]); Widths();
      var vote := if bytes[10] == 1 then Some(FromLe(bytes[11..19]) as U64) else None;
      match EntriesAt(bytes, 23, FromLe(bytes[19..23]))
      case None => None
      case Some((log, end)) =>
        if end == |bytes| then Some(Persistent(FromLe(bytes[2..10]), vote, log)) else None
  }

  /** Where the fields of one encoded entry lie. */
  lemma EntryFields(pre: seq<Byte>, e: Entry, post: seq<Byte>, bytes: seq<Byte>)
    requires |e.command| < U32_LIMIT
    requires bytes == pre + EntryBytes(e) + post
    ensures var n := |pre|;
      && n + 12 + |e.command| <= |bytes|
      && FromLe(bytes[n..n + 8]) == e.term
      && FromLe(bytes[n + 8..n + 12]) == |e.command|
      && bytes[n + 12..n + 12 + |e.command|] == e.command
  {
    var n := |pre|;
    var t, l := ToLe(e.term, 8), ToLe(|e.command|, 4);
    Widths();
    LeRoundTrip(e.term, 8);
    LeRoundTrip(|e.command|, 4);
    assert bytes == pre + t + l + e.command + post;
    assert bytes[n..n + 8] == t;
    assert bytes[n + 8..n + 12] == l;
  }

  lemma EntryLength(e: Entry)
    ensures |EntryBytes(e)| == 12 + |e.command|
  {
  }

  lemma {:induction false} EntriesAtLogBytes(pre: seq<Byte>, log: seq<Entry>, bytes: seq<Byte>)
    requires forall i :: 0 <= i < |log| ==> |log[i].command| < U32_LIMIT
    requires bytes == pre + LogBytes(log)
    ensures EntriesAt(bytes, |pre|, |log|) == Some((log, |bytes|))
    decreases |log|
  {
    hide EntryBytes, FromLe;
    if log != [] {
      var e, rest := log[0], log[1..];
      var here := pre + EntryBytes(e);
      assert bytes == here + LogBytes(rest);
      EntryFields(pre, e, LogBytes(rest), bytes);
      EntryLength(e);
      EntriesAtLogBytes(here, rest, bytes);
      assert [e] + log[1..] == log;
    }
  }

  lemma VoteField(vote: Option<U64>, bytes: seq<Byte>)
    requires |bytes| == 9 && bytes == VoteBytes(vote)
    ensures bytes[0] == if vote.Some? then 1 else 0
    ensures vote.Some? ==> FromLe(bytes[1..]) == vote.value
  {
    if vote.Some? {
      Widths();
      LeRoundTrip(vote.value, 8);
      assert bytes[1..] == ToLe(vote.value, 8);
    }
  }

  /** Where the fields of the fixed part lie. */
  lemma HeadFields(p: Persistent, post: seq<Byte>, bytes: seq<Byte>)
    requires |p.log| < U32_LIMIT
    requires bytes == HeadBytes(p) + post
    ensures bytes[0] == STATE_TAG && bytes[1] == STATE_VERSION
    ensures FromLe(bytes[2..10]) == p.term
    ensures bytes[10..19] == VoteBytes(p.vote)
    ensures FromLe(bytes[19..23]) == |p.log|
  {
    Widths();
    LeRoundTrip(p.term, 8);
    LeRoundTrip(|p.log|, 4);
    assert bytes[2..10] == ToLe(p.term, 8);
    assert bytes[19..23] == ToLe(|p.log|, 4);
  }

  /** Whatever `persist` writes, `open` reads back unchanged. */
  lemma PersistentRoundTrip(p: Persistent)
    requires Encodable(p.log)
    ensures Encoded(p).Some? && Decoded(Encoded(p).value) == Some(p)
  {
    var bytes := Encoded(p).value;
    HeadFields(p, LogBytes(p.log), bytes);
    VoteField(p.vote, bytes[10..19]);
    assert bytes[10..19][1..] == bytes[11..19];
    EntriesAtLogBytes(HeadBytes(p), p.log, bytes);
  }

  lemma {:induction false} EntriesBack(bytes: seq<Byte>, offset: nat, count: nat)
    requires offset <= |bytes| && EntriesAt(bytes, offset, count).Some?
    ensures var (log, end) := EntriesAt(bytes, offset, count).value;
      && offset <= end <= |bytes| && |log| == count && bytes[offset..end] == LogBytes(log)
      && forall i :: 0 <= i < |log| ==> |log[i].command| < U32_LIMIT
    decreases count
  {
    hide FromLe, EntryBytes;
    if count > 0 {
      var len := FromLe(bytes[offset + 8..offset + 12]);
      var next := offset + 12 + len;
      EntriesBack(bytes, next, count - 1);
      var (log, end) := EntriesAt(bytes, offset, count).value;
      EntryBack(bytes, offset, log[0]);
      assert log[1..] == EntriesAt(bytes, next, count - 1).value.0;
      assert bytes[offset..end] == bytes[offset..next] + bytes[next..end];
    } else {
      assert bytes[offset..offset] == [];
    }
  }

  lemma EntryBack(bytes: seq<Byte>, offset: nat, e: Entry)
    requires offset + 12 + |e.command| <= |bytes| && e.term == FromLe(bytes[offset..offset + 8])
    requires |e.command| == FromLe(bytes[offset + 8..offset + 12])
    requires e.command == bytes[offset + 12..offset + 12 + |e.command|]
    ensures bytes[offset..offset + 12 + |e.command|] == EntryBytes(e) && |e.command| < U32_LIMIT
  {
    hide ToLe, FromLe;
    Widths();
    FromLeBound(bytes[offset + 8..offset + 12]);
    Fields.LeWhole(bytes[offset..offset + 8]);
    Fields.LeWhole(bytes[offset + 8..offset + 12]);
    var end := offset + 12 + |e.command|;
    assert bytes[offset..end] == bytes[offset..offset + 8] + bytes[offset + 8..offset + 12] + bytes[offset + 12..end];
  }

  /** Nothing else is accepted: whatever decodes is what it encodes to, but for the unused bytes of an absent vote. */
  lemma DecodedIsEncoded(bytes: seq<Byte>)
    requires Decoded(bytes).Some?
    ensures var p := Decoded(bytes).value;
      && Encodable(p.log) && bytes[..11] == Encoded(p).value[..11] && bytes[19..] == Encoded(p).value[19..]
      && (p.vote.Some? ==> bytes == Encoded(p).value)
  {
    hide ToLe, FromLe, EntriesAt, LogBytes;
    var p := Decoded(bytes).value;
    Widths();
    FromLeBound(bytes[19..23]);
    EntriesBack(bytes, 23, FromLe(bytes[19..23]));
    Fields.LeWhole(bytes[2..10]);
    Fields.LeWhole(bytes[11..19]);
    Fields.LeWhole(bytes[19..23]);
    var out := Encoded(p).value;
    assert bytes[23..|bytes|] == bytes[23..] == LogBytes(p.log);
    assert out[23..] == LogBytes(p.log) && out[19..23] == ToLe(|p.log|, 4) && out[2..10] == ToLe(p.term, 8);
    assert bytes[10] == 0 || bytes[10] == 1;
    assert bytes[..11] == [bytes[0], bytes[1]] + bytes[2..10] + [bytes[10]];
    assert out[..11] == [STATE_TAG, STATE_VERSION] + ToLe(p.term, 8) + [if p.vote.Some? then 1 else 0];
    assert bytes[19..] == bytes[19..23] + bytes[23..] && out[19..] == out[19..23] + out[23..];
    if p.vote.Some? {
      assert out[11..19] == ToLe(p.vote.value, 8);
      assert bytes == bytes[..11] + bytes[11..19] + bytes[19..];
      assert out == out[..11] + out[11..19] + out[19..];
    }
  }

  /** The state a log file replays to: its last record, if every record decodes. */
  function Replayed(wal: seq<seq<Byte>>): Option<Persistent> {
    if wal == [] then Some(Persistent(0, None, []))
    else if Replayed(wal[..|wal| - 1]).None? then None
    else Decoded(wal[|wal| - 1])
  }

  // ----- The rules, on values -----

  function Opened(id: U64, wal: seq<seq<Byte>>, room: nat): Option<Node> {
    match Replayed(wal)
    case None => None
    case Some(p) => Some(Node(id, p.term, p.vote, p.log, 0, 0, Follower, None, wal, room))
  }

  /** The node after `persist`, and whether the file took the record. */
  function Persisted(n: Node): (Node, bool) {
    match Encoded(n.Stored())
    case None => (n, false)
    case Some(bytes) =>
      if n.room == 0 then (n, false) else (n.(wal := n.wal + [bytes], room := n.room - 1), true)
  }

  function SaveThen<T>(n: Node, value: T): (Node, Outcome<T>) {
    var (saved, ok) := Persisted(n);
    (saved, if ok then Ok(value) else Err(Io))
  }

  function ElectionStarted(n: Node): (Node, Outcome<RequestVote>) {
    if n.term + 1 >= U64_LIMIT then (n, Err(TermExhausted))
    else
      var m := n.(term := n.term + 1, role := Candidate, leader := None, vote := Some(n.id));
      SaveThen(m, RequestVote(m.term, m.id, |m.log|, m.LastTerm()))
  }

  function Crowned(n: Node): Node {
    n.(role := Leader, leader := Some(n.id))
  }

  function InTerm(n: Node, term: U64): Node {
    n.(term := term, vote := None, role := Follower, leader := None)
  }

  function TermObserved(n: Node, term: U64): (Node, Outcome<()>) {
    if term > n.term then SaveThen(InTerm(n, term), ()) else (n, Ok(()))
  }

  predicate UpToDate(r: RequestVote, n: Node) {
    r.lastTerm > n.LastTerm() || (r.lastTerm == n.LastTerm() && r.lastIndex >= |n.log|)
  }

  function VoteAsked(n: Node, r: RequestVote): (Node, Outcome<VoteResponse>) {
    if r.term < n.term then (n, Ok(VoteResponse(n.term, false)))
    else
      var m := if r.term > n.term then InTerm(n, r.term) else n;
      var granted := (m.vote.None? || m.vote == Some(r.candidate)) && UpToDate(r, m);
      var v := if granted then m.(vote := Some(r.candidate)) else m;
      if v.term != n.term || v.vote != n.vote then SaveThen(v, VoteResponse(v.term, granted))
      else (v, Ok(VoteResponse(v.term, granted)))
  }

  predicate PreviousMatches(log: seq<Entry>, r: AppendEntries) {
    r.prevIndex <= |log| && (r.prevIndex > 0 ==> log[r.prevIndex - 1].term == r.prevTerm)
  }

  function Appended(n: Node, r: AppendEntries): (Node, Outcome<AppendResponse>) {
    if r.term < n.term then (n, Ok(AppendResponse(n.term, false, |n.log|)))
    else
      var m := (if r.term > n.term then n.(term := r.term, vote := None) else n)
               .(role := Follower, leader := Some(r.leader));
      if !PreviousMatches(m.log, r) then
        var reply := AppendResponse(m.term, false, |m.log|);
        if m.term != n.term then SaveThen(m, reply) else (m, Ok(reply))
      else Accepted(m, r, m.term != n.term)
  }

  /** The part of `append_entries` after the previous entry matched. */
  function Accepted(m: Node, r: AppendEntries, changed: bool): (Node, Outcome<AppendResponse>)
    requires r.prevIndex <= |m.log|
  {
    var w := m.(log := m.log[..r.prevIndex] + r.entries);
    var reply := AppendResponse(w.term, true, r.prevIndex + |r.entries|);
    var (s, done) := if changed || w.log != m.log then SaveThen(w, reply) else (w, Ok(reply));
    (if done.Ok? then CommitRaised(s, r.leaderCommit) else s, done)
  }

  function Min(a: nat, b: nat): nat { if a <= b then a else b }

  function CommitRaised(n: Node, leaderCommit: nat): Node {
    if leaderCommit > n.commit then n.(commit := Min(leaderCommit, |n.log|)) else n
  }

  function LeaderAppended(n: Node, command: Command): (Node, Outcome<nat>) {
    if n.role != Leader then (n, Err(NotLeader))
    else SaveThen(n.(log := n.log + [Entry(n.term, command)]), |n.log| + 1)
  }

  /** How many of `matched` are at least `index`. */
  function Copies(matched: seq<nat>, index: nat): nat {
    if matched == [] then 0
    else Copies(matched[..|matched| - 1], index) + (if matched[|matched| - 1] >= index then 1 else 0)
  }

  predicate CommitReady(n: Node, matched: seq<nat>, index: nat)
    requires 0 < index <= |n.log|
  {
    (1 + Copies(matched, index)) * 2 > |matched| + 1 && n.log[index - 1].term == n.term
  }

  /** The largest index in `(n.commit, index]` that may be committed, or `n.commit`. */
  function BestCommit(n: Node, matched: seq<nat>, index: nat): nat
    requires index <= |n.log|
    decreases index
  {
    if index <= n.commit then n.commit
    else if CommitReady(n, matched, index) then index
    else BestCommit(n, matched, index - 1)
  }

  function CommitAdvanced(n: Node, matched: seq<nat>): Node {
    if n.role != Leader then n else n.(commit := BestCommit(n, matched, |n.log|))
  }

  /** The node after applying, and the entries newly applied; out of bounds if it would panic. */
  function AppliedTaken(n: Node): (Node, Outcome<seq<Entry>>) {
    if n.commit <= n.applied then (n, Ok([]))
    else if n.commit <= |n.log| then (n.(applied := n.commit), Ok(n.log[n.applied..n.commit]))
    else (n, Err(OutOfBounds))
  }

  // ----- The rules, as the program runs them -----

  lemma {:induction false} LogBytesSnoc(log: seq<Entry>, e: Entry)
    ensures LogBytes(log + [e]) == LogBytes(log) + EntryBytes(e)
  {
    if log == [] {
      assert [e][1..] == [];
    } else {
      assert (log + [e])[1..] == log[1..] + [e];
      LogBytesSnoc(log[1..], e);
    }
  }

  method Encode(p: Persistent) returns (r: Option<seq<Byte>>)
    ensures r == Encoded(p)
  {
    if |p.log| >= U32_LIMIT {
      return None;
    }
    var entries: seq<Byte> := [];
    for i := 0 to |p.log|
      invariant entries == LogBytes(p.log[..i])
      invariant forall j :: 0 <= j < i ==> |p.log[j].command| < U32_LIMIT
    {
      if |p.log[i].command| >= U32_LIMIT {
        return None;
      }
      assert p.log[..i + 1] == p.log[..i] + [p.log[i]];
      LogBytesSnoc(p.log[..i], p.log[i]);
      entries := entries + EntryBytes(p.log[i]);
    }
    assert p.log[..|p.log|] == p.log;
    return Some(HeadBytes(p) + entries);
  }

  method Decode(bytes: seq<Byte>) returns (r: Option<Persistent>)
    ensures r == Decoded(bytes)
  {
    if |bytes| < 23 || bytes[0] != STATE_TAG || bytes[1] != STATE_VERSION || bytes[10] > 1 {
      return None;
    }
    FromLeBound(bytes[2..10]); FromLeBound(bytes[11..19]); Widths();
    var vote := if bytes[10] == 1 then Some(FromLe(bytes[11..19]) as U64) else None;
    var count := FromLe(bytes[19..23]);
    var log: seq<Entry>, offset: nat := [], 23;
    assert forall rest: seq<Entry> :: log + rest == rest;
    for i := 0 to count
      invariant offset <= |bytes|
      invariant EntriesAt(bytes, 23, count)
             == match EntriesAt(bytes, offset, count - i)
                case None => None
                case Some((rest, end)) => Some((log + rest, end))
    {
      if offset + 12 > |bytes| {
        return None;
      }
      var len := FromLe(bytes[offset + 8..offset + 12]);
      if offset + 12 + len > |bytes| {
        return None;
      }
      FromLeBound(bytes[offset..offset + 8]);
      ghost var before := log;
      var e := Entry(FromLe(bytes[offset..offset + 8]), bytes[offset + 12..offset + 12 + len]);
      log, offset := log + [e], offset + 12 + len;
      assert forall rest: seq<Entry> :: before + ([e] + rest) == log + rest;
    }
    assert log + [] == log;
    if offset != |bytes| {
      return None;
    }
    return Some(Persistent(FromLe(bytes[2..10]), vote, log));
  }

  class RaftNode {
    const id: U64
    var wal: seq<seq<Byte>>
    var room: nat
    var currentTerm: U64
    var votedFor: Option<U64>
    var log: seq<Entry>
    var commitIndex: nat
    var lastApplied: nat
    var role: Role
    var leaderId: Option<U64>

    function View(): Node
      reads this
    {
      Node(id, currentTerm, votedFor, log, commitIndex, lastApplied, role, leaderId, wal, room)
    }

    /** `p` must be what the file replays to; `OpenNode` computes it. */
    constructor (id: U64, wal: seq<seq<Byte>>, room: nat, p: Persistent)
      ensures View() == Node(id, p.term, p.vote, p.log, 0, 0, Follower, None, wal, room)
    {
      this.id, this.wal, this.room := id, wal, room;
      currentTerm, votedFor, log := p.term, p.vote, p.log;
      commitIndex, lastApplied, role, leaderId := 0, 0, Follower, None;
    }

    method Persist() returns (ok: bool)
      modifies this
      ensures (View(), ok) == Persisted(old(View()))
    {
      var bytes := Encode(Persistent(currentTerm, votedFor, log));
      if bytes.None? || room == 0 {
        return false;
      }
      wal, room := wal + [bytes.value], room - 1;
      return true;
    }

    method StartElection() returns (r: Outcome<RequestVote>)
      modifies this
      ensures (View(), r) == ElectionStarted(old(View()))
    {
      hide Encoded;
      if currentTerm + 1 >= U64_LIMIT {
        return Err(TermExhausted);
      }
      currentTerm := currentTerm + 1;
      role, leaderId, votedFor := Candidate, None, Some(id);
      var ok := Persist();
      if !ok {
        return Err(Io);
      }
      return Ok(RequestVote(currentTerm, id, |log|, LastLogTerm()));
    }

    function LastLogTerm(): (t: nat)
      reads this
      ensures t == View().LastTerm()
    {
      if log == [] then 0 else log[|log| - 1].term
    }

    method BecomeLeader()
      modifies this
      ensures View() == Crowned(old(View()))
    {
      role, leaderId := Leader, Some(id);
    }

    method ObserveTerm(term: U64) returns (r: Outcome<()>)
      modifies this
      ensures (View(), r) == TermObserved(old(View()), term)
    {
      if term > currentTerm {
        currentTerm, votedFor, role, leaderId := term, None, Follower, None;
        var ok := Persist();
        if !ok {
          return Err(Io);
        }
      }
      return Ok(());
    }

    method HandleRequestVote(request: RequestVote) returns (r: Outcome<VoteResponse>)
      modifies this
      ensures (View(), r) == VoteAsked(old(View()), request)
    {
      if request.term < currentTerm {
        return Ok(VoteResponse(currentTerm, false));
      }
      var changed := false;
      if request.term > currentTerm {
        currentTerm, votedFor, role, leaderId := request.term, None, Follower, None;
        changed := true;
      }
      var upToDate := request.lastTerm > LastLogTerm()
        || (request.lastTerm == LastLogTerm() && request.lastIndex >= |log|);
      var canVote := votedFor.None? || votedFor == Some(request.candidate);
      var granted := canVote && upToDate;
      if granted && votedFor != Some(request.candidate) {
        votedFor := Some(request.candidate);
        changed := true;
      }
      if changed {
        var ok := Persist();
        if !ok {
          return Err(Io);
        }
      }
      return Ok(VoteResponse(currentTerm, granted));
    }

    /** The entry-by-entry merge of `append_entries`: a conflict cuts the log, and so does any tail. */
    method MergeEntries(prev: nat, entries: seq<Entry>) returns (changed: bool)
      requires prev <= |log|
      modifies this`log
      ensures log == old(log)[..prev] + entries
      ensures changed <==> log != old(log)
    {
      changed := false;
      var index := prev;
      ghost var before := log;
      for i := 0 to |entries|
        invariant index == prev + i
        invariant index <= |log|
        invariant log[..index] == before[..prev] + entries[..i]
        invariant !changed ==> log == before
        invariant changed ==> |log| == index
        invariant changed ==> !(log[..index] <= before)
      {
        var incoming := entries[i];
        ghost var prefix := log[..index];
        if index < |log| {
          if log[index] != incoming {
            log := log[..index];
            log := log + [incoming];
            changed := true;
          }
        } else {
          log := log + [incoming];
          changed := true;
        }
        assert log[..index + 1] == prefix + [incoming];
        assert entries[..i + 1] == entries[..i] + [incoming];
        index := index + 1;
      }
      assert entries[..|entries|] == entries;
      if |log| > index {
        log := log[..index];
        changed := true;
      }
      assert log == log[..index];
    }

    method HandleAppendEntries(request: AppendEntries) returns (r: Outcome<AppendResponse>)
      modifies this
      ensures (View(), r) == Appended(old(View()), request)
    {
      if request.term < currentTerm {
        return Ok(AppendResponse(currentTerm, false, |log|));
      }
      var changed := false;
      if request.term > currentTerm {
        currentTerm, votedFor := request.term, None;
        changed := true;
      }
      role, leaderId := Follower, Some(request.leader);
      if request.prevIndex > |log|
         || (request.prevIndex > 0 && log[request.prevIndex - 1].term != request.prevTerm)
      {
        if changed {
          var saved := Persist();
          if !saved {
            return Err(Io);
          }
        }
        return Ok(AppendResponse(currentTerm, false, |log|));
      }
      r := AcceptEntries(request, changed);
    }

    method AcceptEntries(request: AppendEntries, changed: bool) returns (r: Outcome<AppendResponse>)
      requires request.prevIndex <= |log|
      modifies this
      ensures (View(), r) == Accepted(old(View()), request, changed)
    {
      var merged := MergeEntries(request.prevIndex, request.entries);
      if changed || merged {
        var ok := Persist();
        if !ok {
          return Err(Io);
        }
      }
      if request.leaderCommit > commitIndex {
        commitIndex := Min(request.leaderCommit, |log|);
      }
      return Ok(AppendResponse(currentTerm, true, request.prevIndex + |request.entries|));
    }

    method AppendAsLeader(command: Command) returns (r: Outcome<nat>)
      modifies this
      ensures (View(), r) == LeaderAppended(old(View()), command)
    {
      if role != Leader {
        return Err(NotLeader);
      }
      log := log + [Entry(currentTerm, command)];
      var ok := Persist();
      if !ok {
        return Err(Io);
      }
      return Ok(|log|);
    }

    method AdvanceCommit(replicated: seq<nat>) returns (commit: nat)
      modifies this
      ensures View() == CommitAdvanced(old(View()), replicated)
      ensures commit == commitIndex
    {
      if role != Leader {
        return commitIndex;
      }
      var candidate: nat := |log|;
      while candidate > commitIndex
        invariant candidate <= |log|
        invariant View() == old(View())
        invariant BestCommit(View(), replicated, |log|) == BestCommit(View(), replicated, candidate)
      {
        var copies := 1;
        for i := 0 to |replicated|
          invariant copies == 1 + Copies(replicated[..i], candidate)
        {
          assert replicated[..i + 1][..i] == replicated[..i];
          if replicated[i] >= candidate {
            copies := copies + 1;
          }
        }
        assert replicated[..|replicated|] == replicated;
        if copies * 2 > |replicated| + 1 && log[candidate - 1].term == currentTerm {
          commitIndex := candidate;
          return commitIndex;
        }
        candidate := candidate - 1;
      }
      return commitIndex;
    }

    method TakeApplied() returns (r: Outcome<seq<Entry>>)
      modifies this
      ensures (View(), r) == AppliedTaken(old(View()))
    {
      if commitIndex > lastApplied && commitIndex > |log| {
        return Err(OutOfBounds);
      }
      var applied := [];
      ghost var first := lastApplied;
      while lastApplied < commitIndex
        invariant first <= lastApplied
        invariant View().(applied := first) == old(View())
        invariant commitIndex > first ==> lastApplied <= commitIndex <= |log| && applied == log[first..lastApplied]
        invariant commitIndex <= first ==> lastApplied == first && applied == []
      {
        assert log[first..lastApplied + 1] == log[first..lastApplied] + [log[lastApplied]];
        applied := applied + [log[lastApplied]];
        lastApplied := lastApplied + 1;
      }
      return Ok(applied);
    }
  }

  /** Replays a node's file and repairs nothing else: volatile indices restart at zero. */
  method OpenNode(id: U64, wal: seq<seq<Byte>>, room: nat) returns (node: RaftNode?)
    ensures node == null <==> Opened(id, wal, room).None?
    ensures node != null ==> fresh(node) && node.View() == Opened(id, wal, room).value
  {
    var state := Persistent(0, None, []);
    for i := 0 to |wal|
      invariant Replayed(wal[..i]) == Some(state)
    {
      assert wal[..i + 1][..i] == wal[..i];
      var decoded := Decode(wal[i]);
      if decoded.None? {
        FailedReplay(wal, i + 1);
        return null;
      }
      state := decoded.value;
    }
    assert wal[..|wal|] == wal;
    node := new RaftNode(id, wal, room, state);
  }

  lemma {:induction false} FailedReplay(wal: seq<seq<Byte>>, i: nat)
    requires i <= |wal| && Replayed(wal[..i]).None?
    ensures Replayed(wal).None?
    decreases |wal| - i
  {
    if i == |wal| {
      assert wal[..i] == wal;
    } else {
      assert wal[..i + 1][..i] == wal[..i];
      FailedReplay(wal, i + 1);
    }
  }
}
