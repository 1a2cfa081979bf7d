/** What a transaction sees of the store, and what its writes make of it. */
module SqlView {
  import opened Bytes
  import opened Keys
  import opened MvccLog
  import opened MvccRules
  import opened SqlTable
  import opened SqlChanges

  /** Everything a transaction sees. */
  ghost function ViewOf(s: Store, t: Txn): Data {
    map k | k in s.versions.Keys + t.writes.Keys && Seen(s, t, k).Some? :: Seen(s, t, k).value
  }

  lemma ViewSees(s: Store, t: Txn, k: Key)
    ensures Seen(s, t, k) == if k in ViewOf(s, t) then Some(ViewOf(s, t)[k]) else None
  {
  }

  lemma SeenPut(s: Store, t: Txn, r: Record, k: Key, value: Option<Key>, j: Key)
    ensures Seen(Logged(s, r), t.(writes := t.writes[k := value]), j) == if j == k then value else Seen(s, t, j)
  {
    hide MvccVersions.Visible;
  }

  /** A store and a transaction after one write, logged and remembered. */
  ghost function Took(s: Store, t: Txn, p: Put): (Store, Txn) {
    (Logged(s, WriteRecord(t.id, p.key, p.value)), t.(writes := t.writes[p.key := p.value]))
  }

  lemma TookView(s: Store, t: Txn, p: Put)
    ensures ViewOf(Took(s, t, p).0, Took(s, t, p).1) == PutOne(ViewOf(s, t), p)
  {
    hide Seen;
    var (s1, t1) := Took(s, t, p);
    forall j: Key
      ensures Seen(s1, t1, j) == if j == p.key then p.value else Seen(s, t, j)
    {
      SeenPut(s, t, WriteRecord(t.id, p.key, p.value), p.key, p.value, j);
    }
  }

  ghost function Performed(now: (Store, Txn), puts: seq<Put>): (Store, Txn) {
    if puts == [] then now
    else
      var before := Performed(now, puts[..|puts| - 1]);
      Took(before.0, before.1, puts[|puts| - 1])
  }

  lemma {:induction false} PerformedParts(now: (Store, Txn), ps: seq<Put>, qs: seq<Put>)
    ensures Performed(now, ps + qs) == Performed(Performed(now, ps), qs)
  {
    hide Took;
    if qs == [] {
      assert ps + qs == ps;
    } else {
      PerformedParts(now, ps, qs[..|qs| - 1]);
      assert (ps + qs)[..|ps + qs| - 1] == ps + qs[..|qs| - 1];
    }
  }

  lemma PerformedOne(now: (Store, Txn), p: Put)
    ensures Performed(now, []) == now && Performed(now, [p]) == Took(now.0, now.1, p)
  {
    hide Took;
    assert [p][..0] == [];
  }

  lemma {:induction false} PerformedView(now: (Store, Txn), puts: seq<Put>)
    ensures var after := Performed(now, puts); ViewOf(after.0, after.1) == PutAll(ViewOf(now.0, now.1), puts)
  {
    hide Took, ViewOf, PutOne;
    if puts != [] {
      PerformedView(now, puts[..|puts| - 1]);
      var before := Performed(now, puts[..|puts| - 1]);
      TookView(before.0, before.1, puts[|puts| - 1]);
    }
  }
}
