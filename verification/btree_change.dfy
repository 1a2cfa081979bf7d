/**
 * Changing one subtree or one pair changes exactly the matching part of the entries.
 *
 * The lemmas named `Grafted...` compare two arenas that differ only below one
 * child of a node. From them follow the steps of insertion and replacement on
 * the way back up: what happened to the child's entries happened to the
 * parent's, at a position shifted by what stands before the child.
 *
 * The last lemmas turn a change of the sorted list of entries into a change of
 * the map it spells.
 */
module BTreeChange {
  import opened Keys
  import opened BTreeShape
  import opened BTreeInsert

  /** The entries after the `i`-th child. */
  ghost function Tail(a: seq<Node>, n: Node, h: nat, i: nat): seq<Pair>
    requires Tree(a, n, h) && i <= |n.keys|
  {
    EntriesPrefix(a, n, h, i);
    Entries(a, n, h)[|Walk(a, n, h, i)| + |Under(a, n, h, i)|..]
  }

  lemma Parts(a: seq<Node>, n: Node, h: nat, i: nat)
    requires Tree(a, n, h) && i <= |n.keys|
    ensures Entries(a, n, h) == Walk(a, n, h, i) + Under(a, n, h, i) + Tail(a, n, h, i)
    ensures i < |n.keys| ==> Tail(a, n, h, i) != [] && Tail(a, n, h, i)[0] == (n.keys[i], n.values[i])
    ensures i == |n.keys| ==> Tail(a, n, h, i) == []
    ensures i > 0 ==>
      && Walk(a, n, h, i) != []
      && Walk(a, n, h, i)[|Walk(a, n, h, i)| - 1] == (n.keys[i - 1], n.values[i - 1])
    ensures i == 0 ==> Walk(a, n, h, i) == []
  {
    EntriesPrefix(a, n, h, i);
    EntriesEnd(a, n, h);
  }

  /** Only the `i`-th child's subtree differs between arenas `a` and `b`. */
  ghost predicate Grafted(a: seq<Node>, b: seq<Node>, n: Node, h: nat, i: nat) {
    && Tree(a, n, h) && h > 0 && i < |n.children| && |a| <= |b|
    && (forall j :: 0 <= j < |n.children| && j != i ==> FrameKid(a, b, n, h, j))
    && n.children[i] < |b| && Tree(b, b[n.children[i]], h - 1)
  }

  lemma GraftedTree(a: seq<Node>, b: seq<Node>, n: Node, h: nat, i: nat)
    requires Grafted(a, b, n, h, i)
    ensures Tree(b, n, h)
  {
    hide FrameKid;
    forall j | 0 <= j < |n.children|
      ensures n.children[j] < |b| && Tree(b, b[n.children[j]], h - 1)
    {
      if j != i {
        FrameTree(a, b, n, h, j);
      }
    }
  }

  lemma GraftedKid(a: seq<Node>, b: seq<Node>, n: Node, h: nat, i: nat, j: nat)
    requires Grafted(a, b, n, h, i) && Tree(b, n, h) && j < |n.children| && j != i
    ensures Kid(b, n, h, j) == Kid(a, n, h, j)
    ensures Under(b, n, h, j) == Under(a, n, h, j) && Span(b, n, h, j) == Span(a, n, h, j)
    ensures Below(b, Kid(b, n, h, j), h - 1) == Below(a, Kid(a, n, h, j), h - 1)
    ensures Apart(a, Kid(a, n, h, j), h - 1) ==> Apart(b, Kid(b, n, h, j), h - 1)
    ensures Sized(a, Kid(a, n, h, j), h - 1) ==> Sized(b, Kid(b, n, h, j), h - 1)
  {
    assert FrameKid(a, b, n, h, j);
  }

  lemma GraftedShape(a: seq<Node>, b: seq<Node>, n: Node, h: nat, i: nat)
    requires Grafted(a, b, n, h, i)
    ensures Tree(a, n, h) && h > 0 && i < |n.children| && |n.children| == |n.keys| + 1 && |a| <= |b|
  {
  }

  lemma {:induction false} GraftedWalk(a: seq<Node>, b: seq<Node>, n: Node, h: nat, i: nat, j: nat)
    requires Grafted(a, b, n, h, i) && Tree(b, n, h) && j <= |n.keys|
    ensures j <= i ==> Walk(b, n, h, j) == Walk(a, n, h, j)
    ensures j > i ==>
      var w, u := Walk(a, n, h, i), Under(a, n, h, i);
      && |w| + |u| <= |Walk(a, n, h, j)|
      && Walk(b, n, h, j) == w + Under(b, n, h, i) + Walk(a, n, h, j)[|w| + |u|..]
    decreases j
  {
    hide Grafted, FrameKid, Walk, Under;
    GraftedShape(a, b, n, h, i);
    if j == 0 {
      WalkNone(a, b, n, h);
    } else {
      GraftedWalk(a, b, n, h, i, j - 1);
      WalkNext(a, n, h, j);
      WalkNext(b, n, h, j);
      var w, u, v := Walk(a, n, h, i), Under(a, n, h, i), Under(b, n, h, i);
      if j - 1 != i {
        GraftedKid(a, b, n, h, i, j - 1);
        if j - 1 > i {
          Spliced(w, u, v, Walk(a, n, h, j - 1), Under(a, n, h, j - 1), [(n.keys[j - 1], n.values[j - 1])]);
        }
      } else {
        assert (w + u + [(n.keys[i], n.values[i])])[|w| + |u|..] == [(n.keys[i], n.values[i])];
      }
    }
  }

  lemma WalkNone(a: seq<Node>, b: seq<Node>, n: Node, h: nat)
    requires Tree(a, n, h) && Tree(b, n, h)
    ensures Walk(a, n, h, 0) == Walk(b, n, h, 0)
  {
  }

  lemma WalkNext(a: seq<Node>, n: Node, h: nat, j: nat)
    requires Tree(a, n, h) && 0 < j <= |n.keys|
    ensures Walk(a, n, h, j) == Walk(a, n, h, j - 1) + Under(a, n, h, j - 1) + [(n.keys[j - 1], n.values[j - 1])]
  {
  }

  /** Replacing `u` after `w` by `v` commutes with appending. */
  lemma Spliced(w: seq<Pair>, u: seq<Pair>, v: seq<Pair>, x: seq<Pair>, y: seq<Pair>, z: seq<Pair>)
    requires |w| + |u| <= |x|
    ensures (w + v + x[|w| + |u|..]) + y + z == w + v + (x + y + z)[|w| + |u|..]
    ensures |w| + |u| <= |x + y + z|
  {
    assert (x + y + z)[|w| + |u|..] == x[|w| + |u|..] + y + z;
  }

  lemma GraftedEntries(a: seq<Node>, b: seq<Node>, n: Node, h: nat, i: nat)
    requires Grafted(a, b, n, h, i) && Tree(b, n, h)
    ensures Entries(b, n, h) == Walk(a, n, h, i) + Under(b, n, h, i) + Tail(a, n, h, i)
  {
    hide Grafted, FrameKid, Walk, Under, Entries, Tail;
    GraftedShape(a, b, n, h, i);
    GraftedWalk(a, b, n, h, i, |n.keys|);
    EntriesEnds(a, n, h);
    EntriesEnds(b, n, h);
    TailIs(a, n, h, i);
    var w, u, v := Walk(a, n, h, i), Under(a, n, h, i), Under(b, n, h, i);
    if i < |n.keys| {
      GraftedKid(a, b, n, h, i, |n.keys|);
      Spliced(w, u, v, Walk(a, n, h, |n.keys|), Under(a, n, h, |n.keys|), []);
      assert forall e: seq<Pair> :: e + [] == e;
    } else {
      assert (w + u)[|w| + |u|..] == [];
    }
  }

  lemma EntriesEnds(a: seq<Node>, n: Node, h: nat)
    requires Tree(a, n, h)
    ensures Entries(a, n, h) == Walk(a, n, h, |n.keys|) + Under(a, n, h, |n.keys|)
  {
  }

  lemma TailIs(a: seq<Node>, n: Node, h: nat, i: nat)
    requires Tree(a, n, h) && i <= |n.keys|
    ensures |Walk(a, n, h, i)| + |Under(a, n, h, i)| <= |Entries(a, n, h)|
    ensures Tail(a, n, h, i) == Entries(a, n, h)[|Walk(a, n, h, i)| + |Under(a, n, h, i)|..]
  {
    hide Walk, Under, Entries;
    EntriesPrefix(a, n, h, i);
  }

  /** The slots an arena gained. */
  ghost function New(a: seq<Node>, b: seq<Node>): set<nat> {
    set x: nat | x < |b| && IsNew(a, x)
  }

  ghost predicate IsNew(a: seq<Node>, x: nat) {
    |a| <= x
  }

  ghost predicate KidGrew(a: seq<Node>, b: seq<Node>, n: Node, h: nat, i: nat)
    requires Tree(a, n, h) && Tree(b, n, h) && h > 0 && i < |n.children|
  {
    && Below(b, Kid(b, n, h, i), h - 1) == Below(a, Kid(a, n, h, i), h - 1) + New(a, b)
    && n.children[i] !in Below(b, Kid(b, n, h, i), h - 1)
    && Apart(b, Kid(b, n, h, i), h - 1) && Sized(b, Kid(b, n, h, i), h - 1)
    && MIN_DEGREE - 1 <= |Kid(b, n, h, i).keys| <= MAX_KEYS
  }

  lemma GraftedBelow(a: seq<Node>, b: seq<Node>, n: Node, h: nat, i: nat)
    requires Grafted(a, b, n, h, i) && Tree(b, n, h) && KidGrew(a, b, n, h, i)
    ensures Below(b, n, h) == Below(a, n, h) + New(a, b)
  {
    hide FrameKid, Grafted, Apart, Sized;
    GraftedShape(a, b, n, h, i);
    assert Span(b, n, h, i) == Span(a, n, h, i) + New(a, b);
    forall x | x in Below(b, n, h)
      ensures x in Below(a, n, h) + New(a, b)
    {
      var j := SpanOf(b, n, h, |n.children|, x);
      if j != i {
        GraftedKid(a, b, n, h, i, j);
      }
      SpanBelow(a, n, h, j);
    }
    SpanBelow(b, n, h, i);
    forall x | x in Below(a, n, h)
      ensures x in Below(b, n, h)
    {
      var j := SpanOf(a, n, h, |n.children|, x);
      if j != i {
        GraftedKid(a, b, n, h, i, j);
      }
      SpanBelow(b, n, h, j);
    }
  }

  lemma GraftedDisjoint(a: seq<Node>, b: seq<Node>, n: Node, h: nat, i: nat, p: nat, q: nat)
    requires Grafted(a, b, n, h, i) && Tree(b, n, h) && KidGrew(a, b, n, h, i)
    requires p < q < |n.children| && Span(a, n, h, p) !! Span(a, n, h, q)
    ensures Span(b, n, h, p) !! Span(b, n, h, q)
  {
    hide FrameKid, Grafted, Apart, Sized;
    GraftedShape(a, b, n, h, i);
    assert Span(b, n, h, i) == Span(a, n, h, i) + New(a, b);
    BelowInRange(a, n, h);
    SpanBelow(a, n, h, p);
    SpanBelow(a, n, h, q);
    if p != i {
      GraftedKid(a, b, n, h, i, p);
    }
    if q != i {
      GraftedKid(a, b, n, h, i, q);
    }
  }

  lemma GraftedApart(a: seq<Node>, b: seq<Node>, n: Node, h: nat, i: nat)
    requires Grafted(a, b, n, h, i) && Tree(b, n, h) && KidGrew(a, b, n, h, i) && Apart(a, n, h) && Sized(a, n, h)
    ensures Apart(b, n, h) && Sized(b, n, h)
  {
    hide FrameKid, Grafted;
    GraftedShape(a, b, n, h, i);
    forall p, q | 0 <= p < q < |n.children|
      ensures Span(b, n, h, p) !! Span(b, n, h, q)
    {
      GraftedDisjoint(a, b, n, h, i, p, q);
    }
    forall j | 0 <= j < |n.children|
      ensures n.children[j] !in Below(b, Kid(b, n, h, j), h - 1) && Apart(b, Kid(b, n, h, j), h - 1)
      ensures MIN_DEGREE - 1 <= |Kid(b, n, h, j).keys| <= MAX_KEYS && Sized(b, Kid(b, n, h, j), h - 1)
    {
      if j != i {
        GraftedKid(a, b, n, h, i, j);
        assert Apart(a, Kid(a, n, h, j), h - 1) && Sized(a, Kid(a, n, h, j), h - 1);
      }
    }
  }

  // ----- Insertion -----

  /** Where `k` belongs in a sorted list that lacks it. */
  ghost predicate Fits(e: seq<Pair>, pos: nat, k: Key) {
    && pos <= |e|
    && (pos > 0 ==> Less(e[pos - 1].0, k))
    && (pos < |e| ==> Less(k, e[pos].0))
  }

  /** From arena `a` to `b`, the tree at `id` gained `kv` at position `pos` and the new slots, nothing else. */
  ghost predicate Inserted(a: seq<Node>, b: seq<Node>, id: nat, h: nat, pos: nat, kv: Pair) {
    && |a| <= |b| && Whole(a, id, h) && Whole(b, id, h)
    && Below(b, b[id], h) == Below(a, a[id], h) + New(a, b)
    && (forall x :: 0 <= x < |a| && x != id && x !in Below(a, a[id], h) ==> b[x] == a[x])
    && Fits(Entries(a, a[id], h), pos, kv.0)
    && Entries(b, b[id], h) == Ins(Entries(a, a[id], h), pos, kv)
    && |a[id].keys| <= |b[id].keys| <= |a[id].keys| + 1
  }

  lemma InsMiddle(w: seq<Pair>, u: seq<Pair>, t: seq<Pair>, pos: nat, kv: Pair)
    requires pos <= |u|
    ensures w + Ins(u, pos, kv) + t == Ins(w + u + t, |w| + pos, kv)
  {
    InsRight(w, u, pos, kv);
    InsLeft(w + u, t, |w| + pos, kv);
  }

  lemma FitsMiddle(w: seq<Pair>, u: seq<Pair>, t: seq<Pair>, pos: nat, k: Key)
    requires Fits(u, pos, k)
    requires w != [] ==> Less(w[|w| - 1].0, k)
    requires t != [] ==> Less(k, t[0].0)
    ensures Fits(w + u + t, |w| + pos, k)
  {
    hide Less;
  }

  lemma SortedIns(e: seq<Pair>, pos: nat, kv: Pair)
    requires Sorted(e) && Fits(e, pos, kv.0)
    ensures Sorted(Ins(e, pos, kv))
  {
    hide Less;
    var f := Ins(e, pos, kv);
    forall i, j | 0 <= i < j < |f|
      ensures Less(f[i].0, f[j].0)
    {
      if j == pos && i < pos - 1 {
        LessTrans(e[i].0, e[pos - 1].0, kv.0);
      } else if i == pos && j > pos + 1 {
        LessTrans(kv.0, e[pos].0, e[j - 1].0);
      }
    }
  }

  lemma ToMapIns(e: seq<Pair>, pos: nat, kv: Pair)
    requires Sorted(e) && Fits(e, pos, kv.0)
    ensures ToMap(Ins(e, pos, kv)) == ToMap(e)[kv.0 := kv.1]
    ensures kv.0 !in ToMap(e)
  {
    hide Less, ToMap, Sorted;
    var f := Ins(e, pos, kv);
    SortedIns(e, pos, kv);
    FitsAbsent(e, pos, kv.0);
    ToMapKeys(e, kv.0);
    ToMapAt(f, pos);
    forall k | k in ToMap(f) || k in ToMap(e)
      ensures k in ToMap(f) && (k == kv.0 || (k in ToMap(e) && ToMap(f)[k] == ToMap(e)[k]))
    {
      ToMapKeys(f, k);
      ToMapKeys(e, k);
      if k in ToMap(e) {
        var i :| 0 <= i < |e| && e[i].0 == k;
        var j := if i < pos then i else i + 1;
        assert f[j] == e[i];
        ToMapAt(f, j);
        ToMapAt(e, i);
      } else {
        var j :| 0 <= j < |f| && f[j].0 == k;
      }
    }
  }

  lemma FitsAbsent(e: seq<Pair>, pos: nat, k: Key)
    requires Sorted(e) && Fits(e, pos, k)
    ensures !HasKey(e, k)
  {
    hide Less;
    LessIrreflexive(k);
    if HasKey(e, k) {
      var p :| 0 <= p < |e| && e[p].0 == k;
      if p < pos {
        if p < pos - 1 {
          LessTrans(e[p].0, e[pos - 1].0, k);
        }
      } else if p > pos {
        LessTrans(k, e[pos].0, e[p].0);
      }
    }
  }

  /** An insertion into a child is an insertion into the parent. */
  lemma InsertedAbove(a: seq<Node>, b: seq<Node>, id: nat, h: nat, i: nat, pos: nat, kv: Pair)
    requires Whole(a, id, h) && h > 0 && i < |a[id].children| && |a[id].keys| <= MAX_KEYS
    requires |Kid(a, a[id], h, i).keys| < MAX_KEYS
    requires Inserted(a, b, a[id].children[i], h - 1, pos, kv)
    requires i > 0 ==> Less(a[id].keys[i - 1], kv.0)
    requires i < |a[id].keys| ==> Less(kv.0, a[id].keys[i])
    ensures Inserted(a, b, id, h, |Walk(a, a[id], h, i)| + pos, kv)
    ensures b[id] == a[id]
  {
    hide Less, Entries, Apart, Sized, FrameKid;
    var n, c := a[id], a[id].children[i];
    AboveGrafted(a, b, id, h, i, pos, kv);
    GraftedTree(a, b, n, h, i);
    GraftedEntries(a, b, n, h, i);
    Parts(a, n, h, i);
    var w, u, t := Walk(a, n, h, i), Under(a, n, h, i), Tail(a, n, h, i);
    UnderKid(a, n, h, i);
    UnderKid(b, n, h, i);
    InsMiddle(w, u, t, pos, kv);
    FitsMiddle(w, u, t, pos, kv.0);
    AboveSized(a, id, h, i);
    WholeParts(a, id, h);
    WholeParts(b, c, h - 1);
    GraftedBelow(a, b, n, h, i);
    GraftedApart(a, b, n, h, i);
    SpanBelow(a, n, h, i);
  }

  lemma UnderKid(a: seq<Node>, n: Node, h: nat, i: nat)
    requires Tree(a, n, h) && h > 0 && i < |n.children|
    ensures Under(a, n, h, i) == Entries(a, a[n.children[i]], h - 1)
  {
  }

  lemma AboveSized(a: seq<Node>, id: nat, h: nat, i: nat)
    requires Whole(a, id, h) && h > 0 && i < |a[id].children|
    ensures MIN_DEGREE - 1 <= |Kid(a, a[id], h, i).keys| <= MAX_KEYS
  {
  }

  lemma AboveGrafted(a: seq<Node>, b: seq<Node>, id: nat, h: nat, i: nat, pos: nat, kv: Pair)
    requires Whole(a, id, h) && h > 0 && i < |a[id].children|
    requires Inserted(a, b, a[id].children[i], h - 1, pos, kv)
    ensures Grafted(a, b, a[id], h, i) && b[id] == a[id]
  {
    hide Less, Entries, Fits, Ins;
    var n := a[id];
    OwnSlot(a, id, h, i);
    forall j | 0 <= j < |n.children| && j != i
      ensures FrameKid(a, b, n, h, j)
    {
      KidSlots(a, id, h, i, j);
      KidSlots(a, id, h, j, i);
      BelowInRange(a, Kid(a, n, h, j), h - 1);
      Frame(a, b, Kid(a, n, h, j), h - 1);
    }
  }

  /** A pair inserted into a leaf. */
  lemma InsertedLeaf(a: seq<Node>, b: seq<Node>, id: nat, i: nat, kv: Pair)
    requires Whole(a, id, 0) && i <= |a[id].keys|
    requires forall j :: 0 <= j < i ==> Less(a[id].keys[j], kv.0)
    requires forall j :: i <= j < |a[id].keys| ==> Less(kv.0, a[id].keys[j])
    requires b == a[id := Node(Ins(a[id].keys, i, kv.0), Ins(a[id].values, i, kv.1), [])]
    ensures Inserted(a, b, id, 0, i, kv)
  {
    hide Less;
    LeafEntries(a, a[id], |a[id].keys|);
    LeafEntries(b, b[id], |b[id].keys|);
    assert Entries(b, b[id], 0) == Ins(Entries(a, a[id], 0), i, kv);
    assert New(a, b) == {};
  }

  lemma {:induction false} LeafEntries(a: seq<Node>, n: Node, i: nat)
    requires Tree(a, n, 0) && i <= |n.keys|
    ensures |Walk(a, n, 0, i)| == i
    ensures forall j :: 0 <= j < i ==> Walk(a, n, 0, i)[j] == (n.keys[j], n.values[j])
    ensures Entries(a, n, 0) == Walk(a, n, 0, |n.keys|)
  {
    if i > 0 {
      LeafEntries(a, n, i - 1);
    }
  }

  /** A split followed by an insertion is an insertion. */
  lemma InsertedAfterSplit(a: seq<Node>, b: seq<Node>, c: seq<Node>, id: nat, h: nat, i: nat, pos: nat, kv: Pair)
    requires CanSplit(a, id, h, i) && b == Split(a, id, i) && Inserted(b, c, id, h, pos, kv) && c[id] == b[id]
    ensures Inserted(a, c, id, h, pos, kv)
  {
    hide Less, Entries, Apart, Sized, Ins, LeftHalf, RightHalf, Fits;
    SplitOk(a, id, h, i, b);
    BelowInRange(a, a[id], h);
    assert New(a, c) == New(b, c) + {|a|};
    SplitKeys(a, id, i);
  }

  lemma SplitKeys(a: seq<Node>, id: nat, i: nat)
    requires Splittable(a, id, i)
    ensures var b := Split(a, id, i); |b[id].keys| == |a[id].keys| + 1
  {
  }

  // ----- Replacement -----

  /** From `a` to `b` only the value at position `pos` changed. */
  ghost predicate Replaced(a: seq<Node>, b: seq<Node>, id: nat, h: nat, pos: nat, kv: Pair) {
    && |a| == |b| && Whole(a, id, h) && Whole(b, id, h)
    && Below(b, b[id], h) == Below(a, a[id], h)
    && (forall x :: 0 <= x < |a| && x != id && x !in Below(a, a[id], h) ==> b[x] == a[x])
    && pos < |Entries(a, a[id], h)| && Entries(a, a[id], h)[pos].0 == kv.0
    && Entries(b, b[id], h) == Entries(a, a[id], h)[pos := kv]
    && b[id].keys == a[id].keys
  }

  lemma {:induction false} ValueWalk(a: seq<Node>, n: Node, m: Node, h: nat, i: nat, v: Value, j: nat)
    requires Tree(a, n, h) && Tree(a, m, h) && i < |n.keys| && m == n.(values := n.values[i := v]) && j <= |n.keys|
    ensures j <= i ==> Walk(a, m, h, j) == Walk(a, n, h, j)
    ensures j > i ==>
      && KeyAt(a, n, h, i) < |Walk(a, n, h, j)|
      && Walk(a, m, h, j) == Walk(a, n, h, j)[KeyAt(a, n, h, i) := (n.keys[i], v)]
    decreases j
  {
    if j > 0 {
      ValueWalk(a, n, m, h, i, v, j - 1);
      assert Under(a, m, h, j - 1) == Under(a, n, h, j - 1);
    }
  }

  lemma ReplacedHere(a: seq<Node>, b: seq<Node>, id: nat, h: nat, i: nat, v: Value)
    requires Whole(a, id, h) && i < |a[id].keys|
    requires b == a[id := a[id].(values := a[id].values[i := v])]
    ensures Replaced(a, b, id, h, KeyAt(a, a[id], h, i), (a[id].keys[i], v))
  {
    var n, m := a[id], b[id];
    SameChildren(a, n, m, h);
    KeyPlaced(a, n, h, i);
    ValueWalk(a, n, m, h, i, v, |n.keys|);
    KeyWalked(a, n, h, i);
    assert Under(a, m, h, |n.keys|) == Under(a, n, h, |n.keys|);
    BelowInRange(a, m, h);
    Frame(a, b, m, h);
  }

  lemma KeyWalked(a: seq<Node>, n: Node, h: nat, i: nat)
    requires Tree(a, n, h) && i < |n.keys|
    ensures KeyAt(a, n, h, i) < |Walk(a, n, h, |n.keys|)|
  {
    WalkPrefix(a, n, h, i, |n.keys|);
  }

  lemma SameChildren(a: seq<Node>, n: Node, m: Node, h: nat)
    requires Tree(a, n, h) && m.children == n.children && m.keys == n.keys && |m.values| == |n.values|
    ensures Tree(a, m, h) && Below(a, m, h) == Below(a, n, h)
    ensures Apart(a, n, h) ==> Apart(a, m, h)
    ensures Sized(a, n, h) ==> Sized(a, m, h)
  {
    if h > 0 {
      assert forall j :: 0 <= j < |n.children| ==> Kid(a, m, h, j) == Kid(a, n, h, j);
      assert forall j :: 0 <= j < |n.children| ==> Span(a, m, h, j) == Span(a, n, h, j);
      SpansSame(a, n, a, m, h, |n.children|);
    }
  }

  lemma ReplacedAbove(a: seq<Node>, b: seq<Node>, id: nat, h: nat, i: nat, pos: nat, kv: Pair)
    requires Whole(a, id, h) && h > 0 && i < |a[id].children|
    requires Replaced(a, b, a[id].children[i], h - 1, pos, kv)
    ensures Replaced(a, b, id, h, |Walk(a, a[id], h, i)| + pos, kv)
  {
    hide Less, Entries, Apart, Sized, FrameKid;
    var n, c := a[id], a[id].children[i];
    ReplacedGrafted(a, b, id, h, i, pos, kv);
    GraftedTree(a, b, n, h, i);
    GraftedEntries(a, b, n, h, i);
    Parts(a, n, h, i);
    UnderKid(a, n, h, i);
    UnderKid(b, n, h, i);
    AboveSized(a, id, h, i);
    WholeParts(a, id, h);
    WholeParts(b, c, h - 1);
    assert New(a, b) == {};
    GraftedBelow(a, b, n, h, i);
    GraftedApart(a, b, n, h, i);
    SpanBelow(a, n, h, i);
  }

  lemma ReplacedGrafted(a: seq<Node>, b: seq<Node>, id: nat, h: nat, i: nat, pos: nat, kv: Pair)
    requires Whole(a, id, h) && h > 0 && i < |a[id].children|
    requires Replaced(a, b, a[id].children[i], h - 1, pos, kv)
    ensures Grafted(a, b, a[id], h, i) && b[id] == a[id]
  {
    hide Less, Entries;
    var n := a[id];
    OwnSlot(a, id, h, i);
    forall j | 0 <= j < |n.children| && j != i
      ensures FrameKid(a, b, n, h, j)
    {
      KidSlots(a, id, h, i, j);
      KidSlots(a, id, h, j, i);
      BelowInRange(a, Kid(a, n, h, j), h - 1);
      Frame(a, b, Kid(a, n, h, j), h - 1);
    }
  }

  lemma ToMapReplace(e: seq<Pair>, pos: nat, kv: Pair)
    requires Sorted(e) && pos < |e| && e[pos].0 == kv.0
    ensures Sorted(e[pos := kv]) && ToMap(e[pos := kv]) == ToMap(e)[kv.0 := kv.1]
    ensures kv.0 in ToMap(e)
  {
    hide Less, ToMap;
    var f := e[pos := kv];
    assert Sorted(f);
    ToMapAt(e, pos);
    ToMapAt(f, pos);
    forall k | k in ToMap(f) || k in ToMap(e)
      ensures k in ToMap(f) && k in ToMap(e) && (k == kv.0 || ToMap(f)[k] == ToMap(e)[k])
    {
      ToMapKeys(f, k);
      ToMapKeys(e, k);
      assert forall i :: 0 <= i < |e| ==> f[i].0 == e[i].0;
      var i :| 0 <= i < |e| && e[i].0 == k;
      ToMapAt(e, i);
      ToMapAt(f, i);
    }
  }
}
