/** Strings as byte sequences, in the lexicographic order every layer sorts by. */
module Keys {
  import opened Bytes

  type Key = seq<Byte>

  predicate Less(a: Key, b: Key) {
    b != [] && (a == [] || a[0] < b[0] || (a[0] == b[0] && Less(a[1..], b[1..])))
  }

  lemma {:induction false} LessTrans(a: Key, b: Key, c: Key)
    requires Less(a, b) && Less(b, c)
    ensures Less(a, c)
  {
    if a != [] && a[0] == b[0] && b[0] == c[0] {
      LessTrans(a[1..], b[1..], c[1..]);
    }
  }

  lemma {:induction false} LessIrreflexive(a: Key)
    ensures !Less(a, a)
  {
    if a != [] {
      LessIrreflexive(a[1..]);
    }
  }

  lemma {:induction false} LessTotal(a: Key, b: Key)
    ensures Less(a, b) || a == b || Less(b, a)
  {
    if a != [] && b != [] && a[0] == b[0] {
      LessTotal(a[1..], b[1..]);
      assert a == [a[0]] + a[1..] && b == [b[0]] + b[1..];
    }
  }

  /** A sorted list of pairs has its keys strictly increasing. */
  ghost predicate Sorted<V>(s: seq<(Key, V)>) {
    forall i, j :: 0 <= i < j < |s| ==> Less(s[i].0, s[j].0)
  }

  ghost predicate SortedKeys(s: seq<Key>) {
    forall i, j :: 0 <= i < j < |s| ==> Less(s[i], s[j])
  }

  /** The map a list of pairs spells out, later pairs first. */
  function ToMap<V>(s: seq<(Key, V)>): map<Key, V> {
    if s == [] then map[] else ToMap(s[..|s| - 1])[s[|s| - 1].0 := s[|s| - 1].1]
  }

  ghost predicate HasKey<V>(s: seq<(Key, V)>, k: Key) {
    exists i :: 0 <= i < |s| && s[i].0 == k
  }

  lemma {:induction false} ToMapKeys<V>(s: seq<(Key, V)>, k: Key)
    ensures k in ToMap(s) <==> HasKey(s, k)
  {
    if s != [] {
      var t := s[..|s| - 1];
      ToMapKeys(t, k);
      if HasKey(t, k) {
        var i :| 0 <= i < |t| && t[i].0 == k;
        assert s[i].0 == k;
      }
      if HasKey(s, k) && s[|s| - 1].0 != k {
        var i :| 0 <= i < |s| && s[i].0 == k;
        assert t[i].0 == k;
      }
    }
  }

  lemma {:induction false} ToMapAt<V>(s: seq<(Key, V)>, i: nat)
    requires Sorted(s) && i < |s|
    ensures s[i].0 in ToMap(s) && ToMap(s)[s[i].0] == s[i].1
  {
    var t := s[..|s| - 1];
    if i < |t| {
      ToMapAt(t, i);
      assert t[i] == s[i];
      LessIrreflexive(s[i].0);
    }
  }

  lemma {:induction false} ToMapSize<V>(s: seq<(Key, V)>)
    requires Sorted(s)
    ensures |ToMap(s)| == |s|
  {
    if s != [] {
      var t, k := s[..|s| - 1], s[|s| - 1].0;
      ToMapSize(t);
      ToMapKeys(t, k);
      LessIrreflexive(k);
      assert ToMap(s).Keys == ToMap(t).Keys + {k};
      assert |ToMap(s)| == |ToMap(s).Keys| && |ToMap(t)| == |ToMap(t).Keys|;
    }
  }

  /** A sorted list is determined by its map. */
  lemma SortedUnique<V>(s: seq<(Key, V)>, t: seq<(Key, V)>)
    requires Sorted(s) && Sorted(t) && ToMap(s) == ToMap(t)
    ensures s == t
  {
    ToMapSize(s);
    ToMapSize(t);
    forall i | 0 <= i < |s|
      ensures s[i] == t[i]
    {
      SortedSame(s, t, i);
    }
  }

  lemma {:induction false} SortedSame<V>(s: seq<(Key, V)>, t: seq<(Key, V)>, i: nat)
    requires Sorted(s) && Sorted(t) && ToMap(s) == ToMap(t) && |s| == |t| && i < |s|
    ensures s[i] == t[i]
  {
    hide ToMap, Less;
    forall j | 0 <= j < i
      ensures s[j] == t[j]
    {
      SortedSame(s, t, j);
    }
    ToMapAt(s, i);
    ToMapAt(t, i);
    ToMapKeys(t, s[i].0);
    ToMapKeys(s, t[i].0);
    var p :| 0 <= p < |t| && t[p].0 == s[i].0;
    var q :| 0 <= q < |s| && s[q].0 == t[i].0;
    ToMapAt(t, p);
    LessIrreflexive(s[i].0);
    LessIrreflexive(t[i].0);
    if p != i {
      LessTrans(s[i].0, s[q].0, s[i].0);
    }
  }
}
