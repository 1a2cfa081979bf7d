module TreeLoad {
  // Loading a saved tree: the arena is read, and accepted if a traversal finds as many entries as were counted.

  import opened Bytes
  import opened Keys
  import opened BTreeShape
  import opened BTreeProgram
  import opened TreePages

  // ----- Traversing an arena that need not be a tree -----

  ghost predicate Linked(nodes: seq<Node>) {
    forall i :: 0 <= i < |nodes| ==> NodeShape(nodes[i], |nodes|)
  }

  /** The entries below a slot in traversal order, unless some chain of children is `depth` long. */
  function Gathered(nodes: seq<Node>, id: nat, depth: nat): Option<seq<Pair>>
    requires Linked(nodes) && id < |nodes|
    decreases depth, 2, 0
  {
    if depth == 0 then None
    else
      assert NodeShape(nodes[id], |nodes|);
      match (GatheredTo(nodes, id, depth, |nodes[id].keys|), GatheredUnder(nodes, id, depth, |nodes[id].keys|))
      case (Some(front), Some(last)) => Some(front + last)
      case _ => None
  }

  /** The entries up to the `i`-th key. */
  function GatheredTo(nodes: seq<Node>, id: nat, depth: nat, i: nat): Option<seq<Pair>>
    requires Linked(nodes) && id < |nodes| && depth > 0 && i <= |nodes[id].keys|
    decreases depth, 1, i
  {
    assert NodeShape(nodes[id], |nodes|);
    if i == 0 then Some([])
    else
      match (GatheredTo(nodes, id, depth, i - 1), GatheredUnder(nodes, id, depth, i - 1))
      case (Some(front), Some(under)) => Some(front + under + [(nodes[id].keys[i - 1], nodes[id].values[i - 1])])
      case _ => None
  }

  /** The entries of the `i`-th child; none below a leaf. */
  function GatheredUnder(nodes: seq<Node>, id: nat, depth: nat, i: nat): Option<seq<Pair>>
    requires Linked(nodes) && id < |nodes| && depth > 0 && i <= |nodes[id].keys|
    decreases depth, 0, 0
  {
    assert NodeShape(nodes[id], |nodes|);
    if nodes[id].children == [] then Some([]) else Gathered(nodes, nodes[id].children[i], depth - 1)
  }

  /** On a tree the traversal gives its entries. */
  lemma {:induction false} GatheredTree(nodes: seq<Node>, id: nat, h: nat, depth: nat)
    requires Linked(nodes) && id < |nodes| && Tree(nodes, nodes[id], h) && h < depth
    ensures Gathered(nodes, id, depth) == Some(Entries(nodes, nodes[id], h))
    decreases h, |nodes[id].keys| + 2
  {
    GatheredWalk(nodes, id, h, depth, |nodes[id].keys|);
    GatheredKid(nodes, id, h, depth, |nodes[id].keys|);
  }

  lemma {:induction false} GatheredWalk(nodes: seq<Node>, id: nat, h: nat, depth: nat, i: nat)
    requires Linked(nodes) && id < |nodes| && Tree(nodes, nodes[id], h) && h < depth && i <= |nodes[id].keys|
    ensures GatheredTo(nodes, id, depth, i) == Some(Walk(nodes, nodes[id], h, i))
    decreases h, i + 1
  {
    if i > 0 {
      GatheredWalk(nodes, id, h, depth, i - 1);
      GatheredKid(nodes, id, h, depth, i - 1);
    }
  }

  lemma {:induction false} GatheredKid(nodes: seq<Node>, id: nat, h: nat, depth: nat, i: nat)
    requires Linked(nodes) && id < |nodes| && Tree(nodes, nodes[id], h) && h < depth && i <= |nodes[id].keys|
    ensures GatheredUnder(nodes, id, depth, i) == Some(Under(nodes, nodes[id], h, i))
    decreases h, 0
  {
    if h > 0 {
      GatheredTree(nodes, nodes[id].children[i], h - 1, depth - 1);
    }
  }

  // ----- A tree is lower than its arena is long -----

  lemma {:induction false} BelowLarge(a: seq<Node>, n: Node, h: nat)
    requires Tree(a, n, h) && Apart(a, n, h)
    ensures |Below(a, n, h)| >= h
    decreases h
  {
    if h > 0 {
      var kid := Kid(a, n, h, 0);
      BelowLarge(a, kid, h - 1);
      SpanBelow(a, n, h, 0);
      assert |Span(a, n, h, 0)| == |Below(a, kid, h - 1)| + 1;
      Smaller(Span(a, n, h, 0), Below(a, n, h));
    }
  }

  lemma Smaller(a: set<nat>, b: set<nat>)
    requires a <= b
    ensures |a| <= |b|
  {
    assert b == a + (b - a);
  }

  lemma {:induction false} Slots(n: nat) returns (s: set<nat>)
    ensures |s| == n && forall x: nat :: x in s <==> x < n
  {
    if n == 0 {
      s := {};
    } else {
      s := Slots(n - 1);
      s := s + {n - 1};
    }
  }

  lemma LowerThanArena(a: seq<Node>, id: nat, h: nat)
    requires Whole(a, id, h)
    ensures h < |a|
  {
    hide Tree, Apart, Sized, Below;
    BelowLarge(a, a[id], h);
    BelowInRange(a, a[id], h);
    var all := Slots(|a|);
    Smaller({id} + Below(a, a[id], h), all);
  }

  // ----- A depth of the whole arena is enough -----

  /** Each slot is a child of the one before it. */
  ghost predicate Chain(nodes: seq<Node>, p: seq<nat>) {
    && (forall i :: 0 <= i < |p| ==> p[i] < |nodes|)
    && (forall i :: 0 <= i < |p| - 1 ==> p[i + 1] in nodes[p[i]].children)
  }

  lemma {:induction false} DeepHasChain(nodes: seq<Node>, id: nat, depth: nat) returns (p: seq<nat>)
    requires Linked(nodes) && id < |nodes| && Gathered(nodes, id, depth).None?
    ensures |p| == depth + 1 && p[0] == id && Chain(nodes, p)
    decreases depth
  {
    if depth == 0 {
      p := [id];
    } else {
      var i := MissingChild(nodes, id, depth, |nodes[id].keys|);
      var c := nodes[id].children[i];
      assert NodeShape(nodes[id], |nodes|);
      var q := DeepHasChain(nodes, c, depth - 1);
      p := [id] + q;
    }
  }

  /** A traversal that does not come back gets lost below some child. */
  lemma {:induction false} MissingChild(nodes: seq<Node>, id: nat, depth: nat, i: nat) returns (k: nat)
    requires Linked(nodes) && id < |nodes| && depth > 0 && i <= |nodes[id].keys|
    requires GatheredTo(nodes, id, depth, i).None? || GatheredUnder(nodes, id, depth, i).None?
    ensures k < |nodes[id].children| && nodes[id].children[k] < |nodes|
    ensures Gathered(nodes, nodes[id].children[k], depth - 1).None?
    decreases i
  {
    assert NodeShape(nodes[id], |nodes|);
    if GatheredUnder(nodes, id, depth, i).None? {
      k := i;
    } else {
      k := MissingChild(nodes, id, depth, i - 1);
    }
  }

  lemma {:induction false} ChainIsDeep(nodes: seq<Node>, p: seq<nat>)
    requires Linked(nodes) && p != [] && Chain(nodes, p)
    ensures Gathered(nodes, p[0], |p| - 1).None?
    decreases |p|
  {
    if |p| > 1 {
      var id, rest := p[0], p[1..];
      assert NodeShape(nodes[id], |nodes|);
      assert Chain(nodes, rest);
      ChainIsDeep(nodes, rest);
      assert p[0 + 1] in nodes[id].children;
      var k :| 0 <= k < |nodes[id].children| && nodes[id].children[k] == rest[0];
      LostBelow(nodes, id, |p| - 1, k, |nodes[id].keys|);
    }
  }

  lemma {:induction false} LostBelow(nodes: seq<Node>, id: nat, depth: nat, k: nat, i: nat)
    requires Linked(nodes) && id < |nodes| && depth > 0 && k <= i <= |nodes[id].keys|
    requires GatheredUnder(nodes, id, depth, k).None?
    ensures k < i ==> GatheredTo(nodes, id, depth, i).None?
    decreases i
  {
    if k < i - 1 {
      LostBelow(nodes, id, depth, k, i - 1);
    }
  }

  /** More slots than the arena has: one comes twice. */
  lemma {:induction false} Repeats(p: seq<nat>, n: nat) returns (i: nat, j: nat)
    requires |p| > n && forall k :: 0 <= k < |p| ==> p[k] < n
    ensures i < j < |p| && p[i] == p[j]
    decreases n
  {
    var last := |p| - 1;
    if x :| 0 <= x < last && p[x] == p[last] {
      i, j := x, last;
    } else {
      var front := p[..last];
      var top := n - 1;
      var q := seq(last, k requires 0 <= k < last => if front[k] == top then p[last] else front[k]);
      i, j := Repeats(q, top);
      assert p[i] == p[j];
    }
  }

  lemma ChainPart(nodes: seq<Node>, p: seq<nat>, i: nat, j: nat)
    requires Chain(nodes, p) && i <= j <= |p|
    ensures Chain(nodes, p[i..j])
  {
    var q := p[i..j];
    forall k | 0 <= k < |q| - 1
      ensures q[k + 1] in nodes[q[k]].children
    {
      assert p[i + k + 1] in nodes[p[i + k]].children;
    }
  }

  lemma ChainJoin(nodes: seq<Node>, p: seq<nat>, q: seq<nat>)
    requires Chain(nodes, p) && Chain(nodes, q) && q != [] && (p != [] ==> q[0] in nodes[p[|p| - 1]].children)
    ensures Chain(nodes, p + q)
  {
    var r := p + q;
    forall k | 0 <= k < |r| - 1
      ensures r[k + 1] in nodes[r[k]].children
    {
      if k + 1 < |p| {
        assert p[k + 1] in nodes[p[k]].children;
      } else if k >= |p| {
        assert q[k - |p| + 1] in nodes[q[k - |p|]].children;
      }
    }
  }

  /** A chain that comes back to its start can be followed for any length. */
  lemma {:induction false} Around(nodes: seq<Node>, c: seq<nat>, length: nat) returns (q: seq<nat>)
    requires |c| > 1 && Chain(nodes, c) && c[0] == c[|c| - 1] && length > 0
    ensures |q| == length && q[0] == c[0] && Chain(nodes, q)
    decreases length
  {
    hide Chain;
    var turn := c[0..|c| - 1];
    ChainPart(nodes, c, 0, |c| - 1);
    if length <= |turn| {
      ChainPart(nodes, turn, 0, length);
      q := turn[0..length];
    } else {
      var more := Around(nodes, c, length - |turn|);
      ChainStep(nodes, c, |c| - 2);
      ChainJoin(nodes, turn, more);
      q := turn + more;
    }
  }

  lemma ChainStep(nodes: seq<Node>, p: seq<nat>, i: nat)
    requires Chain(nodes, p) && i + 1 < |p|
    ensures p[i] < |nodes| && p[i + 1] in nodes[p[i]].children
  {
  }

  lemma ChainSlots(nodes: seq<Node>, p: seq<nat>)
    requires Chain(nodes, p)
    ensures forall k :: 0 <= k < |p| ==> p[k] < |nodes|
  {
  }

  /** Some chain of children from the root comes back to a slot it has passed. */
  ghost predicate Cyclic(a: Arena) {
    exists p :: Returns(a, p)
  }

  ghost predicate Returns(a: Arena, p: seq<nat>) {
    Chain(a.nodes, p) && p != [] && p[0] == a.root && exists i, j :: 0 <= i < j < |p| && p[i] == p[j]
  }

  /** A chain that passes a slot twice can be followed to any depth. */
  lemma ReturnsForever(a: Arena, p: seq<nat>, depth: nat)
    requires Linked(a.nodes) && Returns(a, p)
    ensures a.root < |a.nodes| && Gathered(a.nodes, a.root, depth).None?
  {
    hide Chain, Gathered, Linked;
    var nodes := a.nodes;
    ChainSlots(nodes, p);
    var i, j :| 0 <= i < j < |p| && p[i] == p[j];
    ChainPart(nodes, p, i, j + 1);
    var around := Around(nodes, p[i..j + 1], depth + 1);
    var q := p[0..i] + around;
    ChainPart(nodes, p, 0, i);
    if i > 0 {
      ChainStep(nodes, p, i - 1);
    }
    ChainJoin(nodes, p[0..i], around);
    ChainPart(nodes, q, 0, depth + 1);
    ChainIsDeep(nodes, q[0..depth + 1]);
  }

  /** A traversal not done after as many levels as there are slots has met a cycle, and is never done. */
  lemma LostIffCyclic(a: Arena)
    requires Linked(a.nodes) && a.root < |a.nodes|
    ensures Gathered(a.nodes, a.root, |a.nodes|).None? <==> Cyclic(a)
    ensures Cyclic(a) ==> forall depth :: Gathered(a.nodes, a.root, depth).None?
  {
    hide Chain, Gathered, Linked;
    if Gathered(a.nodes, a.root, |a.nodes|).None? {
      var p := DeepHasChain(a.nodes, a.root, |a.nodes|);
      ChainSlots(a.nodes, p);
      var i, j := Repeats(p, |a.nodes|);
      assert Returns(a, p);
    }
    if Cyclic(a) {
      var p :| Returns(a, p);
      forall depth: nat
        ensures Gathered(a.nodes, a.root, depth).None?
      {
        ReturnsForever(a, p, depth);
      }
    }
  }

  // ----- What load_exact does -----

  lemma {:induction false} NodesLinked(pages: seq<Pagers.Page>, n: nat, count: nat)
    requires n + 1 <= |pages| && NodesTo(pages, n, count).Some?
    ensures var nodes := NodesTo(pages, n, count).value;
      |nodes| == n && forall i :: 0 <= i < n ==> NodeShape(nodes[i], count)
  {
    hide NodeFrom, NodeShape;
    if n > 0 {
      NodesLinked(pages, n - 1, count);
      ReadShape(pages[n], count);
    }
  }

  lemma ReadShape(b: Pagers.Page, count: nat)
    requires NodeFrom(b, count).Some?
    ensures NodeShape(NodeFrom(b, count).value, count)
  {
    hide PageRead, NodeTo, NodeShape;
    var (kind, cells) := PageRead(b).value;
    ReadTo(kind, cells, |cells|, count);
  }

  /** While a node is read it has one child more than keys, or none. */
  lemma {:induction false} ReadTo(kind: SlottedPages.PageKind, cells: seq<SlottedPages.Cell>, n: nat, count: nat)
    requires n <= |cells| && NodeTo(kind, cells, n, count).Some?
    ensures var node := NodeTo(kind, cells, n, count).value;
      NodeShape(node, count) && (node.children != [] <==> kind == SlottedPages.Internal)
  {
    hide PairFrom, IndexFrom;
    if n > FirstItem(kind) {
      ReadTo(kind, cells, n - 1, count);
    }
  }

  lemma ArenaLinked(pages: seq<Pagers.Page>)
    requires ArenaFrom(pages).Some?
    ensures var a := ArenaFrom(pages).value; Linked(a.nodes) && a.root < |a.nodes|
  {
    hide NodesTo, MetaFrom, NodeShape;
    if pages == [] {
      EmptyLinked();
    } else {
      var (c, count, len) := MetaFrom(pages).value;
      NodesLinked(pages, count, count);
    }
  }

  lemma EmptyLinked()
    ensures Linked(EMPTY.nodes)
  {
  }

  /** A file is loaded or refused; over an arena with a cycle the last check never comes back. */
  datatype LoadResult = Loaded(arena: Arena) | Refused | Endless

  function LoadedExactly(pages: seq<Pagers.Page>): LoadResult {
    match ArenaFrom(pages)
    case None => Refused
    case Some(a) =>
      ArenaLinked(pages);
      match Gathered(a.nodes, a.root, |a.nodes|)
      case None => Endless
      case Some(entries) => if |entries| == a.len then Loaded(a) else Refused
  }

  /** Loading never comes back exactly from a file whose pages are sound and whose nodes link in a cycle. */
  lemma EndlessIff(pages: seq<Pagers.Page>)
    ensures LoadedExactly(pages).Endless? <==> ArenaFrom(pages).Some? && Cyclic(ArenaFrom(pages).value)
  {
    hide ArenaFrom, Gathered, Cyclic;
    if ArenaFrom(pages).Some? {
      ArenaLinked(pages);
      LostIffCyclic(ArenaFrom(pages).value);
    }
  }

  /** A file with a page that is not sound is refused, whatever its other pages hold. */
  lemma DamagedIsRefused(pages: seq<Pagers.Page>, k: nat)
    requires k < |pages| && PageRead(pages[k]).None?
    ensures LoadedExactly(pages) == Refused
  {
    hide PageRead, Gathered, NodesTo;
    if k > 0 && MetaFrom(pages).Some? {
      var count := MetaFrom(pages).value.1;
      NodeMissing(pages, k, count);
      NodesStuck(pages, k, count, count);
    }
  }

  lemma NodeMissing(pages: seq<Pagers.Page>, k: nat, count: nat)
    requires 0 < k < |pages| && PageRead(pages[k]).None?
    ensures NodesTo(pages, k, count).None?
  {
    hide PageRead;
  }

  /** Cells that fit have a sealed page. */
  lemma {:induction false} PageExists(kind: SlottedPages.PageKind, cells: seq<SlottedPages.Cell>)
    returns (b: Pagers.Page)
    requires SlottedPages.Fits(cells)
    ensures SlottedPages.Holds(b, kind, cells)
    decreases |cells|
  {
    hide SlottedPages.Inserted, SlottedPages.CellAt, SlottedPages.U16, SlottedPages.Put;
    if cells == [] {
      var blank: Pagers.Page := SlottedPages.MAGIC + [SlottedPages.VERSION, SlottedPages.KindByte(kind)]
        + seq(Pagers.PAGE_SIZE - 6, _ => 0);
      assert blank[..4] == SlottedPages.MAGIC;
      SlottedPages.NewHolds(blank, kind);
      b := SlottedPages.Put(SlottedPages.Put(SlottedPages.Put(blank, 6, 0), 8, SlottedPages.HEADER_SIZE),
                            10, SlottedPages.PAGE_SIZE);
    } else {
      var front, cell := cells[..|cells| - 1], cells[|cells| - 1];
      FitsPrefix(cells, |cells| - 1);
      b := PageExists(kind, front);
      assert cells == front + [cell];
      SlottedPages.RoomExact(b, kind, front, cell);
      SlottedPages.InsertedHolds(b, kind, front, cell);
      b := SlottedPages.Inserted(b, cell);
    }
  }

  lemma SealedExists(kind: SlottedPages.PageKind, cells: seq<SlottedPages.Cell>) returns (b: Pagers.Page)
    requires SlottedPages.Fits(cells)
    ensures Sealed(b, kind, cells)
  {
    hide SlottedPages.Accepted, SlottedPages.Finished, SlottedPages.CellAt, SlottedPages.U16;
    b := PageExists(kind, cells);
    SlottedPages.FinishedAccepted(b, kind, cells);
    b := SlottedPages.Finished(b);
  }

  /** The smallest such file: one internal node that is its own child. */
  lemma CyclicFile() returns (pages: seq<Pagers.Page>)
    ensures |pages| == 2 && LoadedExactly(pages) == Endless
  {
    hide Sealed, LoadedExactly, ArenaFrom, SlottedPages.Fits;
    var n := Node([], [], [0]);
    var a := Arena([n], 0, 0);
    var cells := [PageNumber(0)];
    assert NodeCells(n) == cells;
    OneCellFits(MetaCell(a));
    NumberLength(0);
    OneCellFits(PageNumber(0));
    var meta := SealedExists(SlottedPages.Meta, [MetaCell(a)]);
    var page := SealedExists(SlottedPages.Internal, cells);
    pages := [meta, page];
    assert NodeStored(page, n);
    SaveLoadRoundTrip(pages, a);
    assert Returns(a, [0, 0]) by {
      assert [0, 0][0] == [0, 0][1];
    }
    EndlessIff(pages);
  }

  lemma OneCellFits(c: SlottedPages.Cell)
    requires |c| <= 24
    ensures SlottedPages.Fits([c])
  {
    SlottedPages.UsedMore([], c);
    assert [] + [c] == [c];
  }

  /** The pairs of a loaded arena. */
  function LoadedPairs(a: Arena): seq<Pair>
    requires Linked(a.nodes) && a.root < |a.nodes| && Gathered(a.nodes, a.root, |a.nodes|).Some?
  {
    Gathered(a.nodes, a.root, |a.nodes|).value
  }

  /** The traversal of an index gives its entries. */
  lemma IndexPairs(a: Arena, h: nat)
    requires IsIndex(a.nodes, a.root, a.len, h) && Linked(a.nodes)
    ensures a.root < |a.nodes| && Tree(a.nodes, a.nodes[a.root], h)
    ensures Gathered(a.nodes, a.root, |a.nodes|) == Some(Entries(a.nodes, a.nodes[a.root], h))
  {
    hide Whole, Sorted, Entries, Below, Tree, Gathered;
    LowerThanArena(a.nodes, a.root, h);
    BTreeInsert.WholeParts(a.nodes, a.root, h);
    GatheredTree(a.nodes, a.root, h, |a.nodes|);
  }

  lemma IndexGathers(a: Arena, h: nat)
    requires IsIndex(a.nodes, a.root, a.len, h) && |a.nodes| < U64_LIMIT && a.len < U64_LIMIT
    ensures ArenaOk(a) && Linked(a.nodes)
    ensures Gathered(a.nodes, a.root, |a.nodes|) == Some(Entries(a.nodes, a.nodes[a.root], h))
  {
    hide Whole, Sorted, Entries, Below, Tree, Gathered;
    TreeArenaOk(a.nodes, a.root, h, a.len);
    IndexPairs(a, h);
  }

  /** Every index that was saved is loaded: the same arena, root and length, and the last check passes. */
  lemma SavedIsLoaded(pages: seq<Pagers.Page>, a: Arena, h: nat)
    requires IsIndex(a.nodes, a.root, a.len, h) && |a.nodes| < U64_LIMIT && a.len < U64_LIMIT && Stores(pages, a)
    ensures LoadedExactly(pages) == Loaded(a) && Linked(a.nodes)
    ensures Gathered(a.nodes, a.root, |a.nodes|) == Some(Entries(a.nodes, a.nodes[a.root], h))
  {
    hide Whole, Sorted, Entries, Below, Gathered, ArenaFrom, Stores, ArenaOk;
    IndexGathers(a, h);
    SaveLoadRoundTrip(pages, a);
  }

  lemma {:induction false} HeightUnique(a: seq<Node>, n: Node, g: nat, h: nat)
    requires Tree(a, n, g) && Tree(a, n, h)
    ensures g == h
    decreases g
  {
    if g > 0 && h > 0 {
      HeightUnique(a, a[n.children[0]], g - 1, h - 1);
    }
  }

  // ----- Saving and loading an index -----

  ghost function ArenaOf(t: BTreeIndex): Arena
    reads t
  {
    Arena(t.nodes, t.root, t.len)
  }

  /** Counters are 64-bit. */
  ghost predicate Countable(t: BTreeIndex)
    reads t
  {
    |t.nodes| < U64_LIMIT && t.len < U64_LIMIT
  }

  /** Succeeds exactly if every node fits its page. */
  method SaveIndex(t: BTreeIndex) returns (r: Option<seq<Pagers.Page>>)
    requires t.Valid() && Countable(t)
    ensures ArenaOk(ArenaOf(t)) && (r.Some? <==> Savable(ArenaOf(t)))
    ensures r.Some? ==> Stores(r.value, ArenaOf(t)) && LoadedExactly(r.value) == Loaded(ArenaOf(t))
    ensures r.Some? ==> forall i :: 0 <= i < |r.value| ==> |r.value[i]| == Pagers.PAGE_SIZE
  {
    hide IsIndex, Stores, ArenaOk, Savable, LoadedExactly, Gathered;
    IndexGathers(Arena(t.nodes, t.root, t.len), t.height);
    r := Save(Arena(t.nodes, t.root, t.len));
    if r.Some? {
      SavedIsLoaded(r.value, Arena(t.nodes, t.root, t.len), t.height);
    }
  }

  lemma GatheredJoin(nodes: seq<Node>, id: nat, depth: nat)
    requires Linked(nodes) && id < |nodes| && depth > 0
    requires GatheredTo(nodes, id, depth, |nodes[id].keys|).Some?
    requires GatheredUnder(nodes, id, depth, |nodes[id].keys|).Some?
    ensures Gathered(nodes, id, depth) == Some(
      GatheredTo(nodes, id, depth, |nodes[id].keys|).value + GatheredUnder(nodes, id, depth, |nodes[id].keys|).value)
  {
  }

  /** The traversal of `entries`, given up at a depth no tree in this arena can have. */
  method GatherPairs(nodes: seq<Node>, id: nat, out: seq<Pair>, depth: nat) returns (r: Option<seq<Pair>>)
    requires Linked(nodes) && id < |nodes|
    ensures r == match Gathered(nodes, id, depth) case None => None case Some(e) => Some(out + e)
    decreases depth
  {
    if depth == 0 {
      return None;
    }
    var n := nodes[id];
    assert NodeShape(n, |nodes|);
    var all := out;
    for index := 0 to |n.keys|
      invariant GatheredTo(nodes, id, depth, index).Some? && all == out + GatheredTo(nodes, id, depth, index).value
    {
      if n.children != [] {
        var under := GatherPairs(nodes, n.children[index], all, depth - 1);
        if under.None? {
          LostBelow(nodes, id, depth, index, |n.keys|);
          return None;
        }
        all := under.value;
      }
      all := all + [(n.keys[index], n.values[index])];
    }
    if n.children != [] {
      var under := GatherPairs(nodes, n.children[|n.keys|], all, depth - 1);
      if under.None? {
        return None;
      }
      all := under.value;
    }
    GatheredJoin(nodes, id, depth);
    ghost var front := GatheredTo(nodes, id, depth, |n.keys|).value;
    ghost var last := GatheredUnder(nodes, id, depth, |n.keys|).value;
    assert all == out + front + last == out + (front + last);
    return Some(all);
  }

  /** What a call of `load_exact` comes to; over a cycle it does not return. */
  datatype LoadOutcome = Opened(index: BTreeIndex) | Rejected | NoReturn

  /** Tells apart, for any file, the three things that can happen. */
  method LoadIndex(pages: seq<Pagers.Page>) returns (r: LoadOutcome)
    requires forall i :: 0 <= i < |pages| ==> |pages[i]| == Pagers.PAGE_SIZE
    ensures r.Opened? <==> LoadedExactly(pages).Loaded?
    ensures r.NoReturn? <==> LoadedExactly(pages).Endless?
    ensures r.Opened? ==> fresh(r.index) && ArenaOf(r.index) == LoadedExactly(pages).arena
    ensures r.Opened? ==> forall h :: IsIndex(r.index.nodes, r.index.root, r.index.len, h) ==>
      r.index.Valid() && r.index.height == h
  {
    hide ArenaFrom, Gathered, IsIndex;
    var arena := ReadArena(pages);
    if arena.None? {
      return Rejected;
    }
    var a := arena.value;
    ArenaLinked(pages);
    var entries := GatherPairs(a.nodes, a.root, [], |a.nodes|);
    if entries.None? {
      return NoReturn;
    }
    if |entries.value| != a.len {
      return Rejected;
    }
    ghost var height: nat := 0;
    if h: nat :| IsIndex(a.nodes, a.root, a.len, h) {
      height := h;
    }
    var t := new BTreeIndex.Restored(a.nodes, a.root, a.len, height);
    forall h | IsIndex(a.nodes, a.root, a.len, h)
      ensures IsIndex(a.nodes, a.root, a.len, height) && h == height
    {
      IndexHeight(a, h, height);
    }
    return Opened(t);
  }

  lemma IndexHeight(a: Arena, g: nat, h: nat)
    requires IsIndex(a.nodes, a.root, a.len, g) && IsIndex(a.nodes, a.root, a.len, h)
    ensures g == h
  {
    HeightUnique(a.nodes, a.nodes[a.root], g, h);
  }

  /** Saving an index and loading what was written gives an index with the same nodes, root, length and contents. */
  method SaveAndLoad(t: BTreeIndex) returns (r: Option<BTreeIndex>)
    requires t.Valid() && Countable(t)
    ensures ArenaOk(ArenaOf(t)) && (r.Some? <==> Savable(ArenaOf(t)))
    ensures r.Some? ==> fresh(r.value) && r.value.Valid() && ArenaOf(r.value) == ArenaOf(t)
    ensures r.Some? ==> r.value.Contents() == t.Contents()
  {
    hide IsIndex, Stores, ArenaOk, Savable, LoadedExactly;
    var pages := SaveIndex(t);
    if pages.None? {
      return None;
    }
    var loaded := LoadIndex(pages.value);
    return Some(loaded.index);
  }
}
