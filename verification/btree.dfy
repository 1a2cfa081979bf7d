module BTreeShape {
  // The shape of a B-tree in an arena, relative to arena `a`, node `n` and height `h` (0 for a leaf).

  import opened Keys

  const MIN_DEGREE := 8
  const MAX_KEYS := 15

  type Value = Key
  type Pair = (Key, Value)

  datatype Node = Node(keys: seq<Key>, values: seq<Value>, children: seq<nat>)

  /** Children in range, as many as keys plus one, and all leaves at the same depth. */
  ghost predicate Tree(a: seq<Node>, n: Node, h: nat)
    decreases h
  {
    && |n.values| == |n.keys|
    && (if h == 0 then n.children == []
        else
          && |n.children| == |n.keys| + 1
          && (forall i :: 0 <= i < |n.children| ==> n.children[i] < |a| && Tree(a, a[n.children[i]], h - 1)))
  }

  ghost function Kid(a: seq<Node>, n: Node, h: nat, i: nat): Node
    requires Tree(a, n, h) && h > 0 && i < |n.children|
  {
    a[n.children[i]]
  }

  /** The pairs before the `i`-th key, with that key's left subtrees, in traversal order. */
  ghost function Walk(a: seq<Node>, n: Node, h: nat, i: nat): seq<Pair>
    requires Tree(a, n, h) && i <= |n.keys|
    decreases h, i
  {
    if i == 0 then []
    else Walk(a, n, h, i - 1) + Under(a, n, h, i - 1) + [(n.keys[i - 1], n.values[i - 1])]
  }

  /** The pairs of the `i`-th child; none below a leaf. */
  ghost function Under(a: seq<Node>, n: Node, h: nat, i: nat): seq<Pair>
    requires Tree(a, n, h) && i <= |n.keys|
    decreases h, 0
  {
    if h == 0 then [] else Entries(a, Kid(a, n, h, i), h - 1)
  }

  ghost function Entries(a: seq<Node>, n: Node, h: nat): seq<Pair>
    requires Tree(a, n, h)
    decreases h, |n.keys| + 1
  {
    Walk(a, n, h, |n.keys|) + Under(a, n, h, |n.keys|)
  }

  /** The arena slots strictly below a node. */
  ghost function Below(a: seq<Node>, n: Node, h: nat): set<nat>
    requires Tree(a, n, h)
    decreases h, 2, 0
  {
    if h == 0 then {} else Spans(a, n, h, |n.children|)
  }

  /** The slots of the first `i` children and everything below them. */
  ghost function Spans(a: seq<Node>, n: Node, h: nat, i: nat): set<nat>
    requires Tree(a, n, h) && h > 0 && i <= |n.children|
    decreases h, 1, i
  {
    if i == 0 then {} else Spans(a, n, h, i - 1) + Span(a, n, h, i - 1)
  }

  /** The slots of the `i`-th child and everything below it. */
  ghost function Span(a: seq<Node>, n: Node, h: nat, i: nat): set<nat>
    requires Tree(a, n, h) && h > 0 && i < |n.children|
    decreases h, 0, 0
  {
    {n.children[i]} + Below(a, Kid(a, n, h, i), h - 1)
  }

  /** No slot is used twice. */
  ghost predicate Apart(a: seq<Node>, n: Node, h: nat)
    requires Tree(a, n, h)
    decreases h
  {
    h > 0 ==>
      && (forall i, j :: 0 <= i < j < |n.children| ==> Span(a, n, h, i) !! Span(a, n, h, j))
      && (forall i :: 0 <= i < |n.children| ==>
            n.children[i] !in Below(a, Kid(a, n, h, i), h - 1) && Apart(a, Kid(a, n, h, i), h - 1))
  }

  /** Every node below has between `MIN_DEGREE - 1` and `MAX_KEYS` keys. */
  ghost predicate Sized(a: seq<Node>, n: Node, h: nat)
    requires Tree(a, n, h)
    decreases h
  {
    h > 0 ==> forall i :: 0 <= i < |n.children| ==>
      && MIN_DEGREE - 1 <= |Kid(a, n, h, i).keys| <= MAX_KEYS
      && Sized(a, Kid(a, n, h, i), h - 1)
  }

  ghost predicate Whole(a: seq<Node>, id: nat, h: nat) {
    && id < |a| && Tree(a, a[id], h) && Apart(a, a[id], h) && Sized(a, a[id], h)
    && id !in Below(a, a[id], h)
  }

  // ----- Frames -----

  ghost predicate Same(a: seq<Node>, b: seq<Node>, slots: set<nat>) {
    forall x :: x in slots ==> x < |a| && x < |b| && a[x] == b[x]
  }

  lemma {:induction false} BelowInRange(a: seq<Node>, n: Node, h: nat)
    requires Tree(a, n, h)
    ensures forall x :: x in Below(a, n, h) ==> x < |a|
    decreases h
  {
    forall x | x in Below(a, n, h)
      ensures x < |a|
    {
      var i := SpanOf(a, n, h, |n.children|, x);
      BelowInRange(a, Kid(a, n, h, i), h - 1);
    }
  }

  lemma SpanBelow(a: seq<Node>, n: Node, h: nat, i: nat)
    requires Tree(a, n, h) && h > 0 && i < |n.children|
    ensures Span(a, n, h, i) <= Below(a, n, h)
  {
    SpansGrow(a, n, h, i + 1, |n.children|);
  }

  lemma {:induction false} SpansGrow(a: seq<Node>, n: Node, h: nat, i: nat, j: nat)
    requires Tree(a, n, h) && h > 0 && i <= j <= |n.children|
    ensures Spans(a, n, h, i) <= Spans(a, n, h, j)
    decreases j
  {
    if i < j {
      SpansGrow(a, n, h, i, j - 1);
    }
  }

  /** The child under which a slot lies. */
  lemma {:induction false} SpanOf(a: seq<Node>, n: Node, h: nat, j: nat, x: nat) returns (i: nat)
    requires Tree(a, n, h) && h > 0 && j <= |n.children| && x in Spans(a, n, h, j)
    ensures i < j && x in Span(a, n, h, i)
    decreases j
  {
    if x in Span(a, n, h, j - 1) {
      i := j - 1;
    } else {
      i := SpanOf(a, n, h, j - 1, x);
    }
  }

  lemma {:induction false} SpansSame(a: seq<Node>, n: Node, b: seq<Node>, m: Node, h: nat, i: nat)
    requires Tree(a, n, h) && Tree(b, m, h) && h > 0 && i <= |n.children| && i <= |m.children|
    requires forall j :: 0 <= j < i ==> Span(a, n, h, j) == Span(b, m, h, j)
    ensures Spans(a, n, h, i) == Spans(b, m, h, i)
  {
    if i > 0 {
      SpansSame(a, n, b, m, h, i - 1);
    }
  }

  /** Changing slots outside a subtree leaves the subtree alone. */
  lemma {:induction false} Frame(a: seq<Node>, b: seq<Node>, n: Node, h: nat)
    requires Tree(a, n, h) && Same(a, b, Below(a, n, h))
    ensures Tree(b, n, h) && Below(b, n, h) == Below(a, n, h)
    ensures Entries(b, n, h) == Entries(a, n, h)
    ensures Apart(a, n, h) ==> Apart(b, n, h)
    ensures Sized(a, n, h) ==> Sized(b, n, h)
    decreases h
  {
    if h > 0 {
      forall i | 0 <= i < |n.children|
        ensures FrameKid(a, b, n, h, i)
      {
        SpanBelow(a, n, h, i);
        assert Same(a, b, Span(a, n, h, i));
        Frame(a, b, Kid(a, n, h, i), h - 1);
      }
      FrameJoin(a, b, n, h);
    }
    WalkFrame(a, b, n, h, |n.keys|);
  }

  lemma FrameJoin(a: seq<Node>, b: seq<Node>, n: Node, h: nat)
    requires Tree(a, n, h) && h > 0
    requires forall i :: 0 <= i < |n.children| ==> FrameKid(a, b, n, h, i)
    ensures Tree(b, n, h) && Below(b, n, h) == Below(a, n, h)
    ensures forall i :: 0 <= i <= |n.keys| ==> Under(b, n, h, i) == Under(a, n, h, i)
    ensures Apart(a, n, h) ==> Apart(b, n, h)
    ensures Sized(a, n, h) ==> Sized(b, n, h)
  {
    forall i | 0 <= i < |n.children|
      ensures n.children[i] < |b| && Tree(b, b[n.children[i]], h - 1)
    {
      assert FrameKid(a, b, n, h, i);
    }
    forall i | 0 <= i < |n.children|
      ensures Span(b, n, h, i) == Span(a, n, h, i) && Kid(b, n, h, i) == Kid(a, n, h, i)
      ensures Below(b, Kid(b, n, h, i), h - 1) == Below(a, Kid(a, n, h, i), h - 1)
      ensures Under(b, n, h, i) == Under(a, n, h, i)
      ensures Apart(a, Kid(a, n, h, i), h - 1) ==> Apart(b, Kid(b, n, h, i), h - 1)
      ensures Sized(a, Kid(a, n, h, i), h - 1) ==> Sized(b, Kid(b, n, h, i), h - 1)
    {
      assert FrameKid(a, b, n, h, i);
    }
    SpansSame(a, n, b, n, h, |n.children|);
  }

  /** What `Frame` says of the `i`-th child. */
  ghost predicate FrameKid(a: seq<Node>, b: seq<Node>, n: Node, h: nat, i: nat)
    requires Tree(a, n, h) && h > 0 && i < |n.children|
  {
    && n.children[i] < |b| && Kid(a, n, h, i) == b[n.children[i]]
    && Tree(b, b[n.children[i]], h - 1)
    && Below(b, b[n.children[i]], h - 1) == Below(a, Kid(a, n, h, i), h - 1)
    && Entries(b, b[n.children[i]], h - 1) == Entries(a, Kid(a, n, h, i), h - 1)
    && (Apart(a, Kid(a, n, h, i), h - 1) ==> Apart(b, b[n.children[i]], h - 1))
    && (Sized(a, Kid(a, n, h, i), h - 1) ==> Sized(b, b[n.children[i]], h - 1))
  }

  lemma {:induction false} WalkFrame(a: seq<Node>, b: seq<Node>, n: Node, h: nat, i: nat)
    requires Tree(a, n, h) && Tree(b, n, h) && i <= |n.keys|
    requires forall j :: 0 <= j < i ==> Under(a, n, h, j) == Under(b, n, h, j)
    ensures Walk(a, n, h, i) == Walk(b, n, h, i)
  {
    if i > 0 {
      WalkFrame(a, b, n, h, i - 1);
    }
  }

  // ----- Where keys and children lie -----

  lemma {:induction false} WalkPrefix(a: seq<Node>, n: Node, h: nat, i: nat, j: nat)
    requires Tree(a, n, h) && i < j <= |n.keys|
    ensures Walk(a, n, h, i) + Under(a, n, h, i) + [(n.keys[i], n.values[i])] <= Walk(a, n, h, j)
    decreases j
  {
    if i + 1 < j {
      WalkPrefix(a, n, h, i, j - 1);
    }
  }

  lemma EntriesPrefix(a: seq<Node>, n: Node, h: nat, i: nat)
    requires Tree(a, n, h) && i <= |n.keys|
    ensures Walk(a, n, h, i) + Under(a, n, h, i) <= Entries(a, n, h)
    ensures i < |n.keys| ==>
      Walk(a, n, h, i) + Under(a, n, h, i) + [(n.keys[i], n.values[i])] <= Entries(a, n, h)
  {
    if i < |n.keys| {
      WalkPrefix(a, n, h, i, |n.keys|);
    }
  }

  ghost function KeyAt(a: seq<Node>, n: Node, h: nat, i: nat): nat
    requires Tree(a, n, h) && i < |n.keys|
  {
    |Walk(a, n, h, i)| + |Under(a, n, h, i)|
  }

  lemma KeyPlaced(a: seq<Node>, n: Node, h: nat, i: nat)
    requires Tree(a, n, h) && i < |n.keys|
    ensures KeyAt(a, n, h, i) < |Entries(a, n, h)|
    ensures Entries(a, n, h)[KeyAt(a, n, h, i)] == (n.keys[i], n.values[i])
    ensures |Walk(a, n, h, i + 1)| == KeyAt(a, n, h, i) + 1
  {
    EntriesPrefix(a, n, h, i);
  }

  lemma KeysSorted(a: seq<Node>, n: Node, h: nat)
    requires Tree(a, n, h) && Sorted(Entries(a, n, h))
    ensures SortedKeys(n.keys)
  {
    forall i, j | 0 <= i < j < |n.keys|
      ensures Less(n.keys[i], n.keys[j])
    {
      KeyPlaced(a, n, h, i);
      KeyPlaced(a, n, h, j);
      WalkPrefix(a, n, h, i, j);
    }
  }

  lemma KidSorted(a: seq<Node>, n: Node, h: nat, i: nat)
    requires Tree(a, n, h) && h > 0 && i <= |n.keys| && Sorted(Entries(a, n, h))
    ensures Sorted(Under(a, n, h, i))
  {
    EntriesPrefix(a, n, h, i);
    var w, u, e := Walk(a, n, h, i), Under(a, n, h, i), Entries(a, n, h);
    forall p, q | 0 <= p < q < |u|
      ensures Less(u[p].0, u[q].0)
    {
      assert u[p] == (w + u)[|w| + p] == e[|w| + p];
      assert u[q] == (w + u)[|w| + q] == e[|w| + q];
    }
  }

  /** In a sorted list, positions follow keys. */
  lemma Before(e: seq<Pair>, p: nat, q: nat)
    requires Sorted(e) && p < |e| && q < |e| && Less(e[p].0, e[q].0)
    ensures p < q
  {
    if q < p {
      LessTrans(e[p].0, e[q].0, e[p].0);
    }
    LessIrreflexive(e[p].0);
  }

  /** A key that fits between two keys of the node can only be in the child between them. */
  lemma Descend(a: seq<Node>, n: Node, h: nat, i: nat, k: Key)
    requires Tree(a, n, h) && Sorted(Entries(a, n, h)) && i <= |n.keys|
    requires i > 0 ==> Less(n.keys[i - 1], k)
    requires i < |n.keys| ==> Less(k, n.keys[i])
    ensures HasKey(Entries(a, n, h), k) <==> HasKey(Under(a, n, h, i), k)
    ensures forall v :: (k, v) in Under(a, n, h, i) ==> (k, v) in Entries(a, n, h)
  {
    hide Less, Sorted, Walk, Under, Entries;
    var w, u, e := Walk(a, n, h, i), Under(a, n, h, i), Entries(a, n, h);
    EntriesPrefix(a, n, h, i);
    forall q | 0 <= q < |u|
      ensures u[q] == e[|w| + q]
    {
      assert u[q] == (w + u)[|w| + q];
    }
    if HasKey(e, k) {
      var p :| 0 <= p < |e| && e[p].0 == k;
      if i > 0 {
        KeyPlaced(a, n, h, i - 1);
        Before(e, |w| - 1, p);
      } else {
        EntriesEnd(a, n, h);
      }
      if i < |n.keys| {
        KeyPlaced(a, n, h, i);
        Before(e, p, |w| + |u|);
      } else {
        EntriesEnd(a, n, h);
      }
      assert u[p - |w|].0 == k;
    }
    if HasKey(u, k) {
      var q :| 0 <= q < |u| && u[q].0 == k;
      assert e[|w| + q].0 == k;
    }
  }

  lemma EntriesEnd(a: seq<Node>, n: Node, h: nat)
    requires Tree(a, n, h)
    ensures |Entries(a, n, h)| == |Walk(a, n, h, |n.keys|)| + |Under(a, n, h, |n.keys|)|
    ensures Walk(a, n, h, 0) == []
  {
  }

  // ----- Splitting a full node -----

  function LeftHalf(n: Node): Node
    requires |n.keys| == MAX_KEYS && |n.values| == MAX_KEYS && (n.children == [] || |n.children| == MAX_KEYS + 1)
  {
    Node(n.keys[..MIN_DEGREE - 1], n.values[..MIN_DEGREE - 1],
         if n.children == [] then [] else n.children[..MIN_DEGREE])
  }

  function RightHalf(n: Node): Node
    requires |n.keys| == MAX_KEYS && |n.values| == MAX_KEYS && (n.children == [] || |n.children| == MAX_KEYS + 1)
  {
    Node(n.keys[MIN_DEGREE..], n.values[MIN_DEGREE..],
         if n.children == [] then [] else n.children[MIN_DEGREE..])
  }

  function Median(n: Node): Pair
    requires |n.keys| == MAX_KEYS && |n.values| == MAX_KEYS
  {
    (n.keys[MIN_DEGREE - 1], n.values[MIN_DEGREE - 1])
  }

  ghost predicate Full(a: seq<Node>, n: Node, h: nat) {
    Tree(a, n, h) && |n.keys| == MAX_KEYS
  }

  lemma HalvesTree(a: seq<Node>, n: Node, h: nat)
    requires Full(a, n, h)
    ensures Tree(a, LeftHalf(n), h) && Tree(a, RightHalf(n), h)
    ensures h > 0 ==> forall i :: 0 <= i < MIN_DEGREE ==> Kid(a, LeftHalf(n), h, i) == Kid(a, n, h, i)
    ensures h > 0 ==> forall i :: 0 <= i < MIN_DEGREE ==> Kid(a, RightHalf(n), h, i) == Kid(a, n, h, MIN_DEGREE + i)
  {
  }

  lemma {:induction false} LeftWalk(a: seq<Node>, n: Node, h: nat, i: nat)
    requires Full(a, n, h) && i <= MIN_DEGREE - 1
    requires Tree(a, LeftHalf(n), h)
    ensures Walk(a, LeftHalf(n), h, i) == Walk(a, n, h, i)
  {
    HalvesTree(a, n, h);
    if i > 0 {
      LeftWalk(a, n, h, i - 1);
    }
  }

  lemma WalkMore(a: seq<Node>, n: Node, h: nat, i: nat)
    requires Tree(a, n, h) && 0 < i <= |n.keys| == |n.values|
    ensures Walk(a, n, h, i) == Walk(a, n, h, i - 1) + Under(a, n, h, i - 1) + [(n.keys[i - 1], n.values[i - 1])]
  {
    hide Tree, Under;
  }

  /** The right half has the children and pairs after the median. */
  lemma RightParts(a: seq<Node>, n: Node, h: nat, i: nat)
    requires Full(a, n, h) && i <= MIN_DEGREE - 1 && Tree(a, RightHalf(n), h)
    ensures |n.values| == MAX_KEYS && (n.children == [] || |n.children| == MAX_KEYS + 1)
    ensures |RightHalf(n).keys| == |RightHalf(n).values| == MIN_DEGREE - 1
    ensures Under(a, RightHalf(n), h, i) == Under(a, n, h, MIN_DEGREE + i)
    ensures i < MIN_DEGREE - 1 ==>
      RightHalf(n).keys[i] == n.keys[MIN_DEGREE + i] && RightHalf(n).values[i] == n.values[MIN_DEGREE + i]
  {
    hide Entries;
    HalvesTree(a, n, h);
  }

  lemma {:induction false} RightWalk(a: seq<Node>, n: Node, h: nat, i: nat)
    requires Full(a, n, h) && i <= MIN_DEGREE - 1
    requires Tree(a, RightHalf(n), h)
    ensures Walk(a, n, h, MIN_DEGREE + i) == Walk(a, n, h, MIN_DEGREE) + Walk(a, RightHalf(n), h, i)
  {
    hide Tree, Under, RightHalf;
    RightParts(a, n, h, i);
    var left, r := Walk(a, n, h, MIN_DEGREE), RightHalf(n);
    if i > 0 {
      RightWalk(a, n, h, i - 1);
      RightParts(a, n, h, i - 1);
      WalkMore(a, n, h, MIN_DEGREE + i);
      WalkMore(a, r, h, i);
      var front, under, pair := Walk(a, r, h, i - 1), Under(a, r, h, i - 1), [(r.keys[i - 1], r.values[i - 1])];
      assert left + front + under + pair == left + (front + under + pair);
    } else {
      assert left + [] == left;
    }
  }

  /** Nothing is lost or reordered by a split. */
  lemma HalvesEntries(a: seq<Node>, n: Node, h: nat)
    requires Full(a, n, h)
    ensures Tree(a, LeftHalf(n), h) && Tree(a, RightHalf(n), h)
    ensures Entries(a, n, h) == Entries(a, LeftHalf(n), h) + [Median(n)] + Entries(a, RightHalf(n), h)
  {
    hide Tree, Walk, Entries, LeftHalf, RightHalf;
    HalvesTree(a, n, h);
    LeftEntries(a, n, h);
    RightEntries(a, n, h);
  }

  lemma LeftEntries(a: seq<Node>, n: Node, h: nat)
    requires Full(a, n, h) && Tree(a, LeftHalf(n), h)
    ensures Walk(a, n, h, MIN_DEGREE) == Entries(a, LeftHalf(n), h) + [Median(n)]
  {
    HalvesTree(a, n, h);
    LeftWalk(a, n, h, MIN_DEGREE - 1);
  }

  lemma RightEntries(a: seq<Node>, n: Node, h: nat)
    requires Full(a, n, h) && Tree(a, RightHalf(n), h)
    ensures Entries(a, n, h) == Walk(a, n, h, MIN_DEGREE) + Entries(a, RightHalf(n), h)
  {
    hide Tree, Under, Walk, RightHalf;
    RightWalk(a, n, h, MIN_DEGREE - 1);
    RightParts(a, n, h, MIN_DEGREE - 1);
    var left, right := Walk(a, n, h, MIN_DEGREE), Walk(a, RightHalf(n), h, MIN_DEGREE - 1);
    var last := Under(a, n, h, MAX_KEYS);
    assert left + right + last == left + (right + last);
  }

  lemma HalvesShape(a: seq<Node>, n: Node, h: nat)
    requires Full(a, n, h) && Apart(a, n, h) && Sized(a, n, h)
    ensures var l, r := LeftHalf(n), RightHalf(n);
      && Tree(a, l, h) && Tree(a, r, h)
      && Apart(a, l, h) && Apart(a, r, h) && Sized(a, l, h) && Sized(a, r, h)
      && Below(a, l, h) !! Below(a, r, h)
      && Below(a, l, h) + Below(a, r, h) == Below(a, n, h)
  {
    HalvesTree(a, n, h);
    var l, r := LeftHalf(n), RightHalf(n);
    if h > 0 {
      assert forall i :: 0 <= i < MIN_DEGREE ==> Span(a, l, h, i) == Span(a, n, h, i);
      assert forall i :: 0 <= i < MIN_DEGREE ==> Span(a, r, h, i) == Span(a, n, h, MIN_DEGREE + i);
      SpansSame(a, l, a, n, h, MIN_DEGREE);
      RightSpans(a, n, h, MIN_DEGREE);
      forall x | x in Below(a, l, h)
        ensures x !in Below(a, r, h)
      {
        var i := SpanOf(a, l, h, MIN_DEGREE, x);
        if x in Below(a, r, h) {
          var j := SpanOf(a, r, h, MIN_DEGREE, x);
        }
      }
    }
  }

  lemma {:induction false} RightSpans(a: seq<Node>, n: Node, h: nat, i: nat)
    requires Full(a, n, h) && h > 0 && i <= MIN_DEGREE && Tree(a, RightHalf(n), h)
    ensures Spans(a, n, h, MIN_DEGREE + i) == Spans(a, n, h, MIN_DEGREE) + Spans(a, RightHalf(n), h, i)
  {
    if i > 0 {
      RightSpans(a, n, h, i - 1);
    }
  }
}
