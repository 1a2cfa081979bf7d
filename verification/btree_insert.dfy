/**
 * Splitting a full child keeps the shape of the tree and its entries.
 *
 * The child is halved around its median; the right half takes a new slot, the
 * parent gains one key and one child. The lemmas named `Parted...` describe a
 * node one of whose children has become two, whatever the arenas it is read in;
 * `SplitOk` puts them together.
 *
 * Nothing here looks at the order of keys: entries move as a whole.
 */
module BTreeInsert {
  import opened BTreeShape

  function Ins<T>(s: seq<T>, i: nat, x: T): (r: seq<T>)
    requires i <= |s|
    ensures |r| == |s| + 1
  {
    s[..i] + [x] + s[i..]
  }

  lemma InsLeft<T>(s: seq<T>, t: seq<T>, i: nat, x: T)
    requires i <= |s|
    ensures Ins(s + t, i, x) == Ins(s, i, x) + t
  {
    assert (s + t)[..i] == s[..i] && (s + t)[i..] == s[i..] + t;
  }

  lemma InsRight<T>(s: seq<T>, t: seq<T>, i: nat, x: T)
    requires i <= |t|
    ensures Ins(s + t, |s| + i, x) == s + Ins(t, i, x)
  {
    assert (s + t)[..|s| + i] == s + t[..i] && (s + t)[|s| + i..] == t[i..];
  }

  // ----- Splitting a child -----

  predicate Splittable(a: seq<Node>, id: nat, i: nat) {
    && id < |a| && i < |a[id].children| && a[id].children[i] < |a| && i <= |a[id].keys| && i <= |a[id].values|
    && var c := a[a[id].children[i]];
    |c.keys| == MAX_KEYS && |c.values| == MAX_KEYS && (c.children == [] || |c.children| == MAX_KEYS + 1)
  }

  /** `split_child`: the left half stays in the child's slot, the right half takes a new one. */
  function Split(a: seq<Node>, id: nat, i: nat): seq<Node>
    requires Splittable(a, id, i)
  {
    var n := a[id];
    var c := a[n.children[i]];
    (a[n.children[i] := LeftHalf(c)] + [RightHalf(c)])[id := SplitParent(n, i, Median(c), |a|)]
  }

  function SplitParent(n: Node, i: nat, median: Pair, right: nat): Node
    requires i <= |n.keys| && i <= |n.values| && i < |n.children|
  {
    Node(Ins(n.keys, i, median.0), Ins(n.values, i, median.1), Ins(n.children, i + 1, right))
  }

  ghost predicate CanSplit(a: seq<Node>, id: nat, h: nat, i: nat) {
    Whole(a, id, h) && h > 0 && Splittable(a, id, i)
  }

  /** Slots of different children differ, and none is the parent's. */
  lemma KidSlots(a: seq<Node>, id: nat, h: nat, i: nat, j: nat)
    requires Whole(a, id, h) && h > 0 && i < |a[id].children| && j < |a[id].children| && i != j
    ensures var n := a[id];
      && n.children[i] != id && id !in Below(a, Kid(a, n, h, i), h - 1)
      && n.children[i] !in Below(a, Kid(a, n, h, i), h - 1)
      && n.children[i] != n.children[j] && n.children[i] !in Below(a, Kid(a, n, h, j), h - 1)
      && Span(a, n, h, i) !! Span(a, n, h, j)
  {
    SpanBelow(a, a[id], h, i);
    SpanBelow(a, a[id], h, j);
    if i < j {
      assert Span(a, a[id], h, i) !! Span(a, a[id], h, j);
    } else {
      assert Span(a, a[id], h, j) !! Span(a, a[id], h, i);
    }
  }

  lemma OwnSlot(a: seq<Node>, id: nat, h: nat, i: nat)
    requires Whole(a, id, h) && h > 0 && i < |a[id].children|
    ensures var n := a[id];
      && n.children[i] != id && id !in Below(a, Kid(a, n, h, i), h - 1)
      && n.children[i] !in Below(a, Kid(a, n, h, i), h - 1)
      && Whole(a, n.children[i], h - 1)
  {
    SpanBelow(a, a[id], h, i);
  }

  /** The other children are untouched by the split. */
  lemma SplitOther(a: seq<Node>, id: nat, h: nat, i: nat, j: nat)
    requires CanSplit(a, id, h, i) && j < |a[id].children| && j != i
    ensures FrameKid(a, Split(a, id, i), a[id], h, j)
  {
    KidSlots(a, id, h, i, j);
    KidSlots(a, id, h, j, i);
    BelowInRange(a, Kid(a, a[id], h, j), h - 1);
    Frame(a, Split(a, id, i), Kid(a, a[id], h, j), h - 1);
  }

  /** A subtree split off into two, in arena `b`, with nothing lost. */
  ghost predicate Halved(a: seq<Node>, c: Node, b: seq<Node>, l: Node, r: Node, median: Pair, h: nat)
    requires Tree(a, c, h)
  {
    && Tree(b, l, h) && Tree(b, r, h)
    && Apart(b, l, h) && Apart(b, r, h) && Sized(b, l, h) && Sized(b, r, h)
    && Below(b, l, h) !! Below(b, r, h)
    && Below(b, l, h) + Below(b, r, h) == Below(a, c, h)
    && Entries(a, c, h) == Entries(b, l, h) + [median] + Entries(b, r, h)
  }

  lemma SplitHalves(a: seq<Node>, id: nat, h: nat, i: nat, c: Node, b: seq<Node>)
    requires CanSplit(a, id, h, i) && b == Split(a, id, i) && c == a[a[id].children[i]]
    requires Tree(a, c, h - 1)
    ensures Halved(a, c, b, LeftHalf(c), RightHalf(c), Median(c), h - 1)
  {
    hide Entries, Apart, Sized, LeftHalf, RightHalf;
    OwnSlot(a, id, h, i);
    WholeParts(a, a[id].children[i], h - 1);
    HalvesShape(a, c, h - 1);
    HalvesEntries(a, c, h - 1);
    BelowInRange(a, c, h - 1);
    Frame(a, b, LeftHalf(c), h - 1);
    Frame(a, b, RightHalf(c), h - 1);
  }

  lemma WholeParts(a: seq<Node>, id: nat, h: nat)
    requires Whole(a, id, h)
    ensures id < |a| && Tree(a, a[id], h) && Apart(a, a[id], h) && Sized(a, a[id], h) && id !in Below(a, a[id], h)
  {
  }

  /** A node with one child replaced by two around a new key, over arenas `a` and `b`. */
  ghost predicate Parted(a: seq<Node>, n: Node, b: seq<Node>, m: Node, h: nat, i: nat, median: Pair) {
    && Tree(a, n, h) && h > 0 && i < |n.children| && |a| < |b| && n.children[i] < |b|
    && m == SplitParent(n, i, median, |a|)
    && (forall j :: 0 <= j < |n.children| && j != i ==> FrameKid(a, b, n, h, j))
    && Halved(a, Kid(a, n, h, i), b, b[n.children[i]], b[|a|], median, h - 1)
  }

  lemma PartedTree(a: seq<Node>, n: Node, b: seq<Node>, m: Node, h: nat, i: nat, median: Pair)
    requires Parted(a, n, b, m, h, i, median)
    ensures Tree(b, m, h)
    ensures forall j :: 0 <= j < i ==> Kid(b, m, h, j) == Kid(a, n, h, j)
    ensures Kid(b, m, h, i) == b[n.children[i]] && Kid(b, m, h, i + 1) == b[|a|]
    ensures forall j :: i + 1 < j < |m.children| ==> Kid(b, m, h, j) == Kid(a, n, h, j - 1)
  {
    hide Halved, FrameKid;
    HalvedTree(a, Kid(a, n, h, i), b, b[n.children[i]], b[|a|], median, h - 1);
    forall j | 0 <= j < |m.children|
      ensures m.children[j] < |b| && Tree(b, b[m.children[j]], h - 1)
    {
      if j < i {
        FrameTree(a, b, n, h, j);
      } else if j > i + 1 {
        FrameTree(a, b, n, h, j - 1);
      }
    }
    forall j | 0 <= j < |m.children|
      ensures j < i ==> Kid(b, m, h, j) == Kid(a, n, h, j)
      ensures j > i + 1 ==> Kid(b, m, h, j) == Kid(a, n, h, j - 1)
    {
      if j < i {
        FrameTree(a, b, n, h, j);
      } else if j > i + 1 {
        FrameTree(a, b, n, h, j - 1);
      }
    }
  }

  lemma HalvedTree(a: seq<Node>, c: Node, b: seq<Node>, l: Node, r: Node, median: Pair, h: nat)
    requires Tree(a, c, h) && Halved(a, c, b, l, r, median, h)
    ensures Tree(b, l, h) && Tree(b, r, h)
  {
  }

  lemma FrameTree(a: seq<Node>, b: seq<Node>, n: Node, h: nat, j: nat)
    requires Tree(a, n, h) && h > 0 && j < |n.children| && FrameKid(a, b, n, h, j)
    ensures n.children[j] < |b| && Kid(a, n, h, j) == b[n.children[j]] && Tree(b, b[n.children[j]], h - 1)
  {
  }

  /** How the children of the two nodes correspond. */
  lemma PartedKids(a: seq<Node>, n: Node, b: seq<Node>, m: Node, h: nat, i: nat, median: Pair, j: nat)
    requires Parted(a, n, b, m, h, i, median) && Tree(b, m, h) && j < |m.children|
    requires j < i || j > i + 1
    ensures var k := if j < i then j else j - 1;
      && m.children[j] == n.children[k] && Kid(b, m, h, j) == Kid(a, n, h, k)
      && Under(b, m, h, j) == Under(a, n, h, k) && Span(b, m, h, j) == Span(a, n, h, k)
      && (Apart(a, Kid(a, n, h, k), h - 1) ==> Apart(b, Kid(b, m, h, j), h - 1))
      && (Sized(a, Kid(a, n, h, k), h - 1) ==> Sized(b, Kid(b, m, h, j), h - 1))
      && Below(b, Kid(b, m, h, j), h - 1) == Below(a, Kid(a, n, h, k), h - 1)
  {
    hide Halved;
    var k := if j < i then j else j - 1;
    assert FrameKid(a, b, n, h, k);
  }

  lemma {:induction false} PartedWalkLow(
    a: seq<Node>, n: Node, b: seq<Node>, m: Node, h: nat, i: nat, median: Pair, j: nat)
    requires Parted(a, n, b, m, h, i, median) && Tree(b, m, h) && j <= i
    ensures Walk(b, m, h, j) == Walk(a, n, h, j)
    decreases j
  {
    hide Halved, FrameKid, Parted;
    PartedShape(a, n, b, m, h, i, median);
    if j > 0 {
      PartedWalkLow(a, n, b, m, h, i, median, j - 1);
      PartedKids(a, n, b, m, h, i, median, j - 1);
    }
  }

  lemma PartedShape(a: seq<Node>, n: Node, b: seq<Node>, m: Node, h: nat, i: nat, median: Pair)
    requires Parted(a, n, b, m, h, i, median)
    ensures Tree(a, n, h) && h > 0 && i < |n.children| && |a| < |b| && n.children[i] < |b|
    ensures m == SplitParent(n, i, median, |a|)
  {
  }

  lemma PartedMiddle(a: seq<Node>, n: Node, b: seq<Node>, m: Node, h: nat, i: nat, median: Pair)
    requires Parted(a, n, b, m, h, i, median) && Tree(b, m, h)
    ensures Walk(b, m, h, i + 1) + Under(b, m, h, i + 1) == Walk(a, n, h, i) + Under(a, n, h, i)
  {
    hide FrameKid;
    PartedWalkLow(a, n, b, m, h, i, median, i);
    PartedTree(a, n, b, m, h, i, median);
    assert m.keys[i] == median.0 && m.values[i] == median.1;
  }

  lemma {:induction false} PartedWalkHigh(
    a: seq<Node>, n: Node, b: seq<Node>, m: Node, h: nat, i: nat, median: Pair, j: nat)
    requires Parted(a, n, b, m, h, i, median) && Tree(b, m, h) && i < j <= |n.keys|
    ensures Walk(b, m, h, j + 1) == Walk(a, n, h, j)
    decreases j
  {
    hide Halved, FrameKid, Parted;
    PartedShape(a, n, b, m, h, i, median);
    assert m.keys[j] == n.keys[j - 1] && m.values[j] == n.values[j - 1];
    if j == i + 1 {
      PartedMiddle(a, n, b, m, h, i, median);
    } else {
      PartedWalkHigh(a, n, b, m, h, i, median, j - 1);
      PartedKids(a, n, b, m, h, i, median, j);
    }
  }

  lemma PartedEntries(a: seq<Node>, n: Node, b: seq<Node>, m: Node, h: nat, i: nat, median: Pair)
    requires Parted(a, n, b, m, h, i, median) && Tree(b, m, h)
    ensures Entries(b, m, h) == Entries(a, n, h)
  {
    hide Halved, FrameKid, Parted;
    PartedShape(a, n, b, m, h, i, median);
    if i == |n.keys| {
      PartedMiddle(a, n, b, m, h, i, median);
    } else {
      PartedWalkHigh(a, n, b, m, h, i, median, |n.keys|);
      PartedKids(a, n, b, m, h, i, median, |n.keys| + 1);
    }
  }

  /** The two halves share the slots of the split child, plus the new one. */
  lemma PartedPair(a: seq<Node>, n: Node, b: seq<Node>, m: Node, h: nat, i: nat, median: Pair)
    requires Parted(a, n, b, m, h, i, median) && Tree(b, m, h) && Apart(a, n, h)
    ensures Span(b, m, h, i) !! Span(b, m, h, i + 1)
    ensures Span(b, m, h, i) + Span(b, m, h, i + 1) == Span(a, n, h, i) + {|a|}
    ensures m.children[i] !in Below(b, Kid(b, m, h, i), h - 1)
    ensures m.children[i + 1] !in Below(b, Kid(b, m, h, i + 1), h - 1)
    ensures Apart(b, Kid(b, m, h, i), h - 1) && Apart(b, Kid(b, m, h, i + 1), h - 1)
    ensures Sized(b, Kid(b, m, h, i), h - 1) && Sized(b, Kid(b, m, h, i + 1), h - 1)
  {
    hide FrameKid;
    PartedTree(a, n, b, m, h, i, median);
    BelowInRange(a, Kid(a, n, h, i), h - 1);
  }

  ghost function OldIndex(i: nat, j: nat): nat {
    if j <= i then j else j - 1
  }

  lemma PartedWithin(a: seq<Node>, n: Node, b: seq<Node>, m: Node, h: nat, i: nat, median: Pair, j: nat)
    requires Parted(a, n, b, m, h, i, median) && Tree(b, m, h) && Apart(a, n, h) && j < |m.children|
    ensures OldIndex(i, j) < |n.children| && Span(b, m, h, j) <= Span(a, n, h, OldIndex(i, j)) + {|a|}
    ensures |a| in Span(b, m, h, j) ==> j == i || j == i + 1
  {
    hide FrameKid, Halved, Apart, Parted;
    PartedShape(a, n, b, m, h, i, median);
    if j == i || j == i + 1 {
      PartedPair(a, n, b, m, h, i, median);
    } else {
      PartedKids(a, n, b, m, h, i, median, j);
      SpanBelow(a, n, h, OldIndex(i, j));
      BelowInRange(a, n, h);
    }
  }

  lemma PartedDisjoint(a: seq<Node>, n: Node, b: seq<Node>, m: Node, h: nat, i: nat, median: Pair, p: nat, q: nat)
    requires Parted(a, n, b, m, h, i, median) && Tree(b, m, h) && Apart(a, n, h) && p < q < |m.children|
    ensures Span(b, m, h, p) !! Span(b, m, h, q)
  {
    hide FrameKid, Halved, Parted;
    PartedShape(a, n, b, m, h, i, median);
    PartedPair(a, n, b, m, h, i, median);
    if p != i || q != i + 1 {
      PartedWithin(a, n, b, m, h, i, median, p);
      PartedWithin(a, n, b, m, h, i, median, q);
      var x, y := OldIndex(i, p), OldIndex(i, q);
      assert Span(a, n, h, x) !! Span(a, n, h, y);
    }
  }

  lemma PartedApart(a: seq<Node>, n: Node, b: seq<Node>, m: Node, h: nat, i: nat, median: Pair)
    requires Parted(a, n, b, m, h, i, median) && Tree(b, m, h) && Apart(a, n, h)
    ensures Apart(b, m, h)
  {
    hide FrameKid, Halved, Parted;
    PartedShape(a, n, b, m, h, i, median);
    PartedPair(a, n, b, m, h, i, median);
    forall p, q | 0 <= p < q < |m.children|
      ensures Span(b, m, h, p) !! Span(b, m, h, q)
    {
      PartedDisjoint(a, n, b, m, h, i, median, p, q);
    }
    forall j | 0 <= j < |m.children|
      ensures m.children[j] !in Below(b, Kid(b, m, h, j), h - 1) && Apart(b, Kid(b, m, h, j), h - 1)
    {
      if j != i && j != i + 1 {
        PartedKids(a, n, b, m, h, i, median, j);
        assert Apart(a, Kid(a, n, h, OldIndex(i, j)), h - 1);
      }
    }
  }

  lemma PartedSized(a: seq<Node>, n: Node, b: seq<Node>, m: Node, h: nat, i: nat, median: Pair)
    requires Parted(a, n, b, m, h, i, median) && Tree(b, m, h) && Apart(a, n, h) && Sized(a, n, h)
    requires MIN_DEGREE - 1 <= |b[n.children[i]].keys| <= MAX_KEYS && MIN_DEGREE - 1 <= |b[|a|].keys| <= MAX_KEYS
    ensures Sized(b, m, h)
  {
    hide FrameKid, Halved, Parted, Apart;
    PartedShape(a, n, b, m, h, i, median);
    PartedPair(a, n, b, m, h, i, median);
    forall j | 0 <= j < |m.children|
      ensures MIN_DEGREE - 1 <= |Kid(b, m, h, j).keys| <= MAX_KEYS && Sized(b, Kid(b, m, h, j), h - 1)
    {
      if j != i && j != i + 1 {
        PartedKids(a, n, b, m, h, i, median, j);
        assert Sized(a, Kid(a, n, h, OldIndex(i, j)), h - 1);
      }
    }
  }

  lemma PartedBelow(a: seq<Node>, n: Node, b: seq<Node>, m: Node, h: nat, i: nat, median: Pair)
    requires Parted(a, n, b, m, h, i, median) && Tree(b, m, h) && Apart(a, n, h)
    ensures Below(b, m, h) == Below(a, n, h) + {|a|}
  {
    hide FrameKid, Halved, Parted, Apart, Span;
    PartedShape(a, n, b, m, h, i, median);
    PartedPair(a, n, b, m, h, i, median);
    forall x | x in Below(b, m, h)
      ensures x in Below(a, n, h) + {|a|}
    {
      var j := SpanOf(b, m, h, |m.children|, x);
      PartedWithin(a, n, b, m, h, i, median, j);
      SpanBelow(a, n, h, OldIndex(i, j));
    }
    SpanBelow(b, m, h, i);
    SpanBelow(b, m, h, i + 1);
    forall x | x in Below(a, n, h)
      ensures x in Below(b, m, h)
    {
      var k := SpanOf(a, n, h, |n.children|, x);
      if k != i {
        var j := if k < i then k else k + 1;
        PartedKids(a, n, b, m, h, i, median, j);
        SpanBelow(b, m, h, j);
      }
    }
  }

  /** `split_child` on a well-formed tree: same entries, one more slot, everything else untouched. */
  lemma SplitOk(a: seq<Node>, id: nat, h: nat, i: nat, b: seq<Node>)
    requires CanSplit(a, id, h, i) && b == Split(a, id, i)
    ensures |b| == |a| + 1 && Whole(b, id, h)
    ensures Entries(b, b[id], h) == Entries(a, a[id], h)
    ensures Below(b, b[id], h) == Below(a, a[id], h) + {|a|}
    ensures forall x :: 0 <= x < |a| && x != id && x !in Below(a, a[id], h) ==> b[x] == a[x]
  {
    hide FrameKid, Halved, Apart, Sized, Entries, LeftHalf, RightHalf;
    var n, c := a[id], a[a[id].children[i]];
    WholeParts(a, id, h);
    SplitParted(a, id, h, i, b);
    PartedTree(a, n, b, b[id], h, i, Median(c));
    PartedEntries(a, n, b, b[id], h, i, Median(c));
    PartedApart(a, n, b, b[id], h, i, Median(c));
    SplitSizes(a, id, h, i, b);
    PartedSized(a, n, b, b[id], h, i, Median(c));
    PartedBelow(a, n, b, b[id], h, i, Median(c));
    SpanBelow(a, n, h, i);
  }

  lemma SplitSizes(a: seq<Node>, id: nat, h: nat, i: nat, b: seq<Node>)
    requires CanSplit(a, id, h, i) && b == Split(a, id, i)
    ensures b[a[id].children[i]] == LeftHalf(a[a[id].children[i]]) && b[|a|] == RightHalf(a[a[id].children[i]])
    ensures |b[a[id].children[i]].keys| == MIN_DEGREE - 1 && |b[|a|].keys| == MIN_DEGREE - 1
  {
    OwnSlot(a, id, h, i);
  }

  lemma SplitParted(a: seq<Node>, id: nat, h: nat, i: nat, b: seq<Node>)
    requires CanSplit(a, id, h, i) && b == Split(a, id, i)
    ensures Parted(a, a[id], b, b[id], h, i, Median(a[a[id].children[i]]))
  {
    hide FrameKid, Halved, Apart, Sized, LeftHalf, RightHalf;
    var n, c := a[id], a[a[id].children[i]];
    SplitSizes(a, id, h, i, b);
    SplitHalves(a, id, h, i, c, b);
    forall j | 0 <= j < |n.children| && j != i
      ensures FrameKid(a, b, n, h, j)
    {
      SplitOther(a, id, h, i, j);
    }
  }
}
