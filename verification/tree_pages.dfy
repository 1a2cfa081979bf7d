/** A B-tree arena as pages: one metadata page, then one page per node. */
module TreePages {
  import opened Bytes
  import opened Keys
  import opened Fields
  import opened BTreeShape
  import opened SlottedPages
  import Pagers

  // ----- Cells -----

  predicate PairFits(k: Key, v: Value) {
    |k| < U32_LIMIT && |v| < U32_LIMIT
  }

  function PairCell(k: Key, v: Value): (c: Cell)
    ensures |c| == 8 + |k| + |v|
  {
    ToLe(|k|, 4) + ToLe(|v|, 4) + k + v
  }

  /** The pair at the start of a cell and where it ends. */
  function PairFrom(cell: Cell): (r: Option<(Key, Value, nat)>)
    ensures r.Some? ==> r.value.2 <= |cell|
  {
    if |cell| < 8 then None
    else
      var keyEnd := 8 + FromLe(cell[0..4]);
      var valueEnd := keyEnd + FromLe(cell[4..8]);
      if valueEnd > |cell| then None else Some((cell[8..keyEnd], cell[keyEnd..valueEnd], valueEnd))
  }

  lemma PairRoundTrip(k: Key, v: Value, more: seq<Byte>)
    requires PairFits(k, v)
    ensures PairFrom(PairCell(k, v) + more) == Some((k, v, |PairCell(k, v)|))
  {
    hide ToLe, FromLe;
    var c := PairCell(k, v) + more;
    Widths();
    LeRoundTrip(|k|, 4);
    LeRoundTrip(|v|, 4);
    assert c[0..4] == ToLe(|k|, 4) && c[4..8] == ToLe(|v|, 4);
    assert c[8..8 + |k|] == k && c[8 + |k|..8 + |k| + |v|] == v;
  }

  /** A node's slot as a page number; page 0 holds the metadata. */
  function PageNumber(id: nat): seq<Byte> {
    ToLe(id + 1, 8)
  }

  function NumberFrom(cell: Cell, at: nat): Option<nat> {
    if at + 8 <= |cell| then Some(FromLe(cell[at..at + 8])) else None
  }

  /** `page_to_index` of the number at `at`. */
  function IndexFrom(cell: Cell, at: nat, count: nat): (r: Option<nat>)
    ensures r.Some? ==> r.value < count
  {
    match NumberFrom(cell, at)
    case None => None
    case Some(page) => if page == 0 || page - 1 >= count then None else Some(page - 1)
  }

  lemma IndexRoundTrip(front: seq<Byte>, id: nat, count: nat)
    requires id < count < U64_LIMIT
    ensures IndexFrom(front + PageNumber(id), |front|, count) == Some(id)
  {
    hide ToLe, FromLe;
    var c := front + PageNumber(id);
    Widths();
    LeRoundTrip(id + 1, 8);
    assert c[|front|..|front| + 8] == ToLe(id + 1, 8);
  }

  // ----- Nodes -----

  ghost predicate NodeOk(n: Node, count: nat) {
    && |n.values| == |n.keys| && (n.children != [] ==> |n.children| == |n.keys| + 1)
    && (forall i :: 0 <= i < |n.keys| ==> PairFits(n.keys[i], n.values[i]))
    && (forall i :: 0 <= i < |n.children| ==> n.children[i] < count)
  }

  function KindOfNode(n: Node): PageKind {
    if n.children == [] then Leaf else Internal
  }

  function ItemCell(n: Node, i: nat): Cell
    requires i < |n.keys| == |n.values| && (n.children != [] ==> |n.children| == |n.keys| + 1)
  {
    PairCell(n.keys[i], n.values[i]) + (if n.children == [] then [] else PageNumber(n.children[i + 1]))
  }

  function ItemCells(n: Node, k: nat): (r: seq<Cell>)
    requires k <= |n.keys| == |n.values| && (n.children != [] ==> |n.children| == |n.keys| + 1)
    ensures |r| == k
  {
    if k == 0 then [] else ItemCells(n, k - 1) + [ItemCell(n, k - 1)]
  }

  function FirstCells(n: Node): seq<Cell> {
    if n.children == [] then [] else [PageNumber(n.children[0])]
  }

  function NodeCells(n: Node): seq<Cell>
    requires |n.keys| == |n.values| && (n.children != [] ==> |n.children| == |n.keys| + 1)
  {
    FirstCells(n) + ItemCells(n, |n.keys|)
  }

  /** The first `k` items of a node, with the children around them. */
  function Front(n: Node, k: nat): Node
    requires k <= |n.keys| == |n.values| && (n.children != [] ==> |n.children| == |n.keys| + 1)
  {
    Node(n.keys[..k], n.values[..k], if n.children == [] then [] else n.children[..k + 1])
  }

  /** One cell read on top of the node so far. */
  function WithItem(n: Node, cell: Cell, kind: PageKind, count: nat): Option<Node> {
    match PairFrom(cell)
    case None => None
    case Some((k, v, used)) =>
      var m := n.(keys := n.keys + [k], values := n.values + [v]);
      if kind == Internal then
        match IndexFrom(cell, used, count)
        case None => None
        case Some(child) => if used + 8 == |cell| then Some(m.(children := n.children + [child])) else None
      else if used == |cell| then Some(m) else None
  }

  function StartNode(kind: PageKind, cells: seq<Cell>, count: nat): Option<Node> {
    if kind == Internal then
      if cells == [] || |cells[0]| != 8 then None
      else
        match IndexFrom(cells[0], 0, count)
        case None => None
        case Some(child) => Some(Node([], [], [child]))
    else if kind == Leaf then Some(Node([], [], []))
    else None
  }

  function FirstItem(kind: PageKind): nat {
    if kind == Internal then 1 else 0
  }

  /** The node read from the first `n` cells. */
  function NodeTo(kind: PageKind, cells: seq<Cell>, n: nat, count: nat): Option<Node>
    requires n <= |cells|
  {
    if n <= FirstItem(kind) then StartNode(kind, cells, count)
    else
      match NodeTo(kind, cells, n - 1, count)
      case None => None
      case Some(node) => WithItem(node, cells[n - 1], kind, count)
  }

  lemma ItemRead(n: Node, k: nat, count: nat)
    requires NodeOk(n, count) && k < |n.keys| && count < U64_LIMIT
    ensures WithItem(Front(n, k), ItemCell(n, k), KindOfNode(n), count) == Some(Front(n, k + 1))
  {
    hide PairCell, PairFrom, IndexFrom, PageNumber;
    var pair, cell := PairCell(n.keys[k], n.values[k]), ItemCell(n, k);
    assert n.keys[..k + 1] == n.keys[..k] + [n.keys[k]] && n.values[..k + 1] == n.values[..k] + [n.values[k]];
    if n.children == [] {
      PairRoundTrip(n.keys[k], n.values[k], []);
      assert pair + [] == pair;
    } else {
      PairRoundTrip(n.keys[k], n.values[k], PageNumber(n.children[k + 1]));
      IndexRoundTrip(pair, n.children[k + 1], count);
      NumberLength(n.children[k + 1]);
      assert n.children[..k + 2] == n.children[..k + 1] + [n.children[k + 1]];
    }
  }

  lemma NumberLength(id: nat)
    ensures |PageNumber(id)| == 8
  {
  }

  lemma {:induction false} NodeRead(n: Node, k: nat, count: nat)
    requires NodeOk(n, count) && k <= |n.keys| && count < U64_LIMIT
    ensures |NodeCells(n)| == FirstItem(KindOfNode(n)) + |n.keys|
    ensures NodeTo(KindOfNode(n), NodeCells(n), FirstItem(KindOfNode(n)) + k, count) == Some(Front(n, k))
  {
    hide ItemCell, WithItem, PageNumber, IndexFrom;
    var kind, cells := KindOfNode(n), NodeCells(n);
    if k == 0 {
      if n.children != [] {
        IndexRoundTrip([], n.children[0], count);
        NumberLength(n.children[0]);
        assert [] + PageNumber(n.children[0]) == PageNumber(n.children[0]);
        assert n.children[..1] == [n.children[0]];
      }
      assert n.keys[..0] == [] && n.values[..0] == [];
    } else {
      NodeRead(n, k - 1, count);
      ItemAt(n, |n.keys|, k - 1);
      assert cells[FirstItem(kind) + k - 1] == ItemCell(n, k - 1);
      ItemRead(n, k - 1, count);
    }
  }

  lemma {:induction false} ItemAt(n: Node, m: nat, i: nat)
    requires i < m <= |n.keys| == |n.values| && (n.children != [] ==> |n.children| == |n.keys| + 1)
    ensures ItemCells(n, m)[i] == ItemCell(n, i)
  {
    hide ItemCell;
    if i < m - 1 {
      ItemAt(n, m - 1, i);
    }
  }

  /** A node is read back from its own cells. */
  lemma NodeRoundTrip(n: Node, count: nat)
    requires NodeOk(n, count) && count < U64_LIMIT
    ensures NodeTo(KindOfNode(n), NodeCells(n), |NodeCells(n)|, count) == Some(n)
  {
    hide NodeCells;
    NodeRead(n, |n.keys|, count);
    assert n.keys[..|n.keys|] == n.keys && n.values[..|n.values|] == n.values;
    assert n.children != [] ==> n.children[..|n.children|] == n.children;
  }

  // ----- The whole arena -----

  datatype Arena = Arena(nodes: seq<Node>, root: nat, len: nat)

  const EMPTY := Arena([Node([], [], [])], 0, 0)

  ghost predicate NodeShape(n: Node, count: nat) {
    && |n.values| == |n.keys| && (n.children != [] ==> |n.children| == |n.keys| + 1)
    && (forall i :: 0 <= i < |n.children| ==> n.children[i] < count)
  }

  ghost predicate ArenaOk(a: Arena) {
    && a.root < |a.nodes| < U64_LIMIT && a.len < U64_LIMIT
    && (forall i :: 0 <= i < |a.nodes| ==> NodeShape(a.nodes[i], |a.nodes|))
  }

  function MetaCell(a: Arena): (c: Cell)
    ensures |c| == 24
  {
    ToLe(a.root + 1, 8) + ToLe(|a.nodes|, 8) + ToLe(a.len, 8)
  }

  lemma MetaRoundTrip(a: Arena)
    requires ArenaOk(a)
    ensures IndexFrom(MetaCell(a), 0, |a.nodes|) == Some(a.root)
    ensures NumberFrom(MetaCell(a), 0) == Some(a.root + 1) && NumberFrom(MetaCell(a), 8) == Some(|a.nodes|)
    ensures NumberFrom(MetaCell(a), 16) == Some(a.len)
  {
    hide ToLe, FromLe;
    var c := MetaCell(a);
    Widths();
    LeRoundTrip(a.root + 1, 8);
    LeRoundTrip(|a.nodes|, 8);
    LeRoundTrip(a.len, 8);
    assert c[0..8] == ToLe(a.root + 1, 8);
    assert c[8..16] == ToLe(|a.nodes|, 8);
    assert c[16..24] == ToLe(a.len, 8);
  }

  /** A finished page of this kind and cells. */
  ghost predicate Sealed(b: Pagers.Page, kind: PageKind, cells: seq<Cell>) {
    Holds(b, kind, cells) && Accepted(b)
  }

  ghost predicate NodeStored(b: Pagers.Page, n: Node) {
    && |n.values| == |n.keys| && (n.children != [] ==> |n.children| == |n.keys| + 1)
    && Sealed(b, KindOfNode(n), NodeCells(n))
  }

  ghost predicate Stores(pages: seq<Pagers.Page>, a: Arena) {
    && |pages| == |a.nodes| + 1 && Sealed(pages[0], Meta, [MetaCell(a)])
    && (forall i :: 0 <= i < |a.nodes| ==> NodeStored(pages[i + 1], a.nodes[i]))
  }

  /** What `from_bytes`, `kind` and `cells` tell of a page. */
  function PageRead(b: Pagers.Page): Option<(PageKind, seq<Cell>)> {
    if |b| == PAGE_SIZE && Accepted(b) then Some((KindOf(b[5]).value, CellsTo(b, U16(b, 6)).value)) else None
  }

  function NodeFrom(b: Pagers.Page, count: nat): Option<Node> {
    match PageRead(b)
    case None => None
    case Some((kind, cells)) => NodeTo(kind, cells, |cells|, count)
  }

  function NodesTo(pages: seq<Pagers.Page>, n: nat, count: nat): Option<seq<Node>>
    requires n + 1 <= |pages|
  {
    if n == 0 then Some([])
    else
      match NodesTo(pages, n - 1, count)
      case None => None
      case Some(nodes) =>
        match NodeFrom(pages[n], count)
        case None => None
        case Some(node) => Some(nodes + [node])
  }

  /** Page 0, if it is one 24-byte cell of numbers that fit the file: root page, node count, entry count. */
  function MetaFrom(pages: seq<Pagers.Page>): Option<(Cell, nat, nat)>
    requires pages != []
  {
    match PageRead(pages[0])
    case None => None
    case Some((kind, cells)) =>
      if kind != Meta || |cells| != 1 || |cells[0]| != 24 then None
      else
        var c := cells[0];
        var root, count := FromLe(c[0..8]), FromLe(c[8..16]);
        if root == 0 || count == 0 || |pages| != count + 1 then None else Some((c, count, FromLe(c[16..24])))
  }

  /** `load_exact` up to the arena it builds. */
  function ArenaFrom(pages: seq<Pagers.Page>): Option<Arena> {
    if pages == [] then Some(EMPTY)
    else
      match MetaFrom(pages)
      case None => None
      case Some((c, count, len)) =>
        if count + 1 != |pages| then None
        else
          match NodesTo(pages, count, count)
          case None => None
          case Some(nodes) =>
            match IndexFrom(c, 0, count)
            case None => None
            case Some(root) => Some(Arena(nodes, root, len))
  }

  lemma SealedRead(b: Pagers.Page, kind: PageKind, cells: seq<Cell>)
    requires Sealed(b, kind, cells)
    ensures PageRead(b) == Some((kind, cells))
  {
    hide Accepted, U16, CellsTo;
    HeldCells(b, kind, cells, |cells|);
    assert cells[..|cells|] == cells;
    AcceptedKind(b, kind);
  }

  lemma AcceptedKind(b: Pagers.Page, kind: PageKind)
    requires |b| == PAGE_SIZE && b[5] == KindByte(kind)
    ensures KindOf(b[5]) == Some(kind)
  {
  }

  lemma {:induction false} StoredNodes(pages: seq<Pagers.Page>, a: Arena, n: nat)
    requires ArenaOk(a) && Stores(pages, a) && n <= |a.nodes|
    ensures NodesTo(pages, n, |a.nodes|) == Some(a.nodes[..n])
  {
    hide Sealed, NodeTo, NodeCells, PageRead;
    if n > 0 {
      StoredNodes(pages, a, n - 1);
      var node := a.nodes[n - 1];
      assert NodeStored(pages[n - 1 + 1], node);
      SealedRead(pages[n], KindOfNode(node), NodeCells(node));
      SealedFits(pages[n], node);
      NodeRoundTrip(node, |a.nodes|);
      assert a.nodes[..n] == a.nodes[..n - 1] + [node];
    }
  }

  /** What fits a page has lengths that fit their fields. */
  lemma SealedFits(b: Pagers.Page, n: Node)
    requires NodeStored(b, n)
    ensures forall i :: 0 <= i < |n.keys| ==> PairFits(n.keys[i], n.values[i])
  {
    hide Accepted, CellAt, U16, ItemCell;
    forall i | 0 <= i < |n.keys|
      ensures PairFits(n.keys[i], n.values[i])
    {
      ItemAt(n, |n.keys|, i);
      var cells := NodeCells(n);
      var j := FirstItem(KindOfNode(n)) + i;
      assert cells[j] == ItemCell(n, i);
      UsedGrows(cells, j);
      ItemLength(n, i);
    }
  }

  lemma ItemLength(n: Node, i: nat)
    requires i < |n.keys| == |n.values| && (n.children != [] ==> |n.children| == |n.keys| + 1)
    ensures |ItemCell(n, i)| >= 8 + |n.keys[i]| + |n.values[i]|
  {
  }

  /** Loading what was saved gives the identical arena, root and length. */
  lemma SaveLoadRoundTrip(pages: seq<Pagers.Page>, a: Arena)
    requires ArenaOk(a) && Stores(pages, a)
    ensures ArenaFrom(pages) == Some(a)
  {
    hide Sealed, NodesTo, NodeStored, PageRead;
    SealedRead(pages[0], Meta, [MetaCell(a)]);
    MetaRoundTrip(a);
    StoredNodes(pages, a, |a.nodes|);
    assert a.nodes[..|a.nodes|] == a.nodes;
  }

  // ----- Nothing else is loaded -----

  lemma PairBack(cell: Cell)
    requires PairFrom(cell).Some?
    ensures var (k, v, used) := PairFrom(cell).value; cell[..used] == PairCell(k, v)
  {
    hide ToLe;
    var (k, v, used) := PairFrom(cell).value;
    LeWhole(cell[0..4]);
    LeWhole(cell[4..8]);
    assert cell[..used] == cell[0..4] + cell[4..8] + cell[8..8 + |k|] + cell[8 + |k|..used];
  }

  lemma IndexBack(cell: Cell, at: nat, count: nat)
    requires IndexFrom(cell, at, count).Some?
    ensures at + 8 <= |cell| && cell[at..at + 8] == PageNumber(IndexFrom(cell, at, count).value)
  {
    hide ToLe;
    LeWhole(cell[at..at + 8]);
  }

  /** The shape of a node as far as it is read. */
  ghost predicate Read(n: Node, kind: PageKind, items: nat) {
    && |n.keys| == |n.values| == items && (kind == Internal || kind == Leaf)
    && (if kind == Internal then |n.children| == items + 1 else n.children == [])
  }

  /** Items already read keep their cells when more follow. */
  lemma {:induction false} ItemsKept(n: Node, m: Node, kind: PageKind, items: nat, k: nat)
    requires Read(n, kind, items) && Read(m, kind, items + 1) && k <= items
    requires n.keys <= m.keys && n.values <= m.values && n.children <= m.children
    ensures ItemCells(m, k) == ItemCells(n, k)
  {
    hide PairCell, PageNumber;
    if k > 0 {
      ItemsKept(n, m, kind, items, k - 1);
    }
  }

  lemma ItemBack(n: Node, cell: Cell, kind: PageKind, items: nat, count: nat)
    requires Read(n, kind, items) && WithItem(n, cell, kind, count).Some?
    ensures var m := WithItem(n, cell, kind, count).value;
      Read(m, kind, items + 1) && KindOfNode(m) == kind && NodeCells(m) == NodeCells(n) + [cell]
  {
    hide PairCell, PairFrom, PageNumber, IndexFrom, ItemCells;
    var m := WithItem(n, cell, kind, count).value;
    var used := PairFrom(cell).value.2;
    PairBack(cell);
    ItemsKept(n, m, kind, items, items);
    if kind == Internal {
      IndexBack(cell, used, count);
      assert cell == cell[..used] + cell[used..used + 8];
    } else {
      assert cell == cell[..used] && cell[..used] + [] == cell[..used];
    }
    assert ItemCell(m, items) == cell;
    ItemsMore(m, items);
  }

  lemma ItemsMore(m: Node, items: nat)
    requires items < |m.keys| == |m.values| && (m.children != [] ==> |m.children| == |m.keys| + 1)
    ensures ItemCells(m, items + 1) == ItemCells(m, items) + [ItemCell(m, items)]
  {
    hide ItemCell;
  }

  lemma {:induction false} NodeBack(kind: PageKind, cells: seq<Cell>, n: nat, count: nat)
    requires FirstItem(kind) <= n <= |cells| && NodeTo(kind, cells, n, count).Some?
    ensures var m := NodeTo(kind, cells, n, count).value;
      Read(m, kind, n - FirstItem(kind)) && KindOfNode(m) == kind && NodeCells(m) == cells[..n]
  {
    hide PageNumber, WithItem, NodeCells, KindOfNode, IndexFrom;
    if n == FirstItem(kind) {
      StartBack(kind, cells, count);
    } else {
      NodeBack(kind, cells, n - 1, count);
      ItemBack(NodeTo(kind, cells, n - 1, count).value, cells[n - 1], kind, n - 1 - FirstItem(kind), count);
      assert cells[..n] == cells[..n - 1] + [cells[n - 1]];
    }
  }

  lemma StartBack(kind: PageKind, cells: seq<Cell>, count: nat)
    requires FirstItem(kind) <= |cells| && StartNode(kind, cells, count).Some?
    ensures var m := StartNode(kind, cells, count).value;
      Read(m, kind, 0) && KindOfNode(m) == kind && NodeCells(m) == cells[..FirstItem(kind)]
  {
    hide PageNumber, IndexFrom;
    if kind == Internal {
      IndexBack(cells[0], 0, count);
      assert cells[0][0..8] == cells[0];
    }
  }

  /** The page reads as exactly the cells of this node. */
  ghost predicate ReadsAs(b: Pagers.Page, n: Node) {
    && |n.values| == |n.keys| && (n.children != [] ==> |n.children| == |n.keys| + 1)
    && PageRead(b) == Some((KindOfNode(n), NodeCells(n)))
  }

  lemma PageBack(b: Pagers.Page, count: nat)
    requires NodeFrom(b, count).Some?
    ensures ReadsAs(b, NodeFrom(b, count).value)
  {
    hide PageRead, NodeCells, KindOfNode, WithItem;
    var (kind, cells) := PageRead(b).value;
    assert kind == Internal ==> cells != [];
    NodeBack(kind, cells, |cells|, count);
    assert cells[..|cells|] == cells;
  }

  lemma {:induction false} NodesBack(pages: seq<Pagers.Page>, n: nat, count: nat)
    requires n + 1 <= |pages| && NodesTo(pages, n, count).Some?
    ensures var nodes := NodesTo(pages, n, count).value;
      |nodes| == n && forall i :: 0 <= i < n ==> ReadsAs(pages[i + 1], nodes[i])
  {
    hide NodeFrom, ReadsAs;
    if n > 0 {
      NodesBack(pages, n - 1, count);
      PageBack(pages[n], count);
    }
  }

  /** Only stored arenas load: every page reads as the cells of its node, and page 0 as those of the arena. */
  lemma OnlyStored(pages: seq<Pagers.Page>)
    requires pages != [] && ArenaFrom(pages).Some?
    ensures var a := ArenaFrom(pages).value;
      && |pages| == |a.nodes| + 1 && PageRead(pages[0]) == Some((Meta, [MetaCell(a)]))
      && forall i :: 0 <= i < |a.nodes| ==> ReadsAs(pages[i + 1], a.nodes[i])
  {
    hide NodesTo, PageRead, ReadsAs, ToLe;
    var a, c := ArenaFrom(pages).value, MetaFrom(pages).value.0;
    NodesBack(pages, |pages| - 1, |pages| - 1);
    IndexBack(c, 0, |pages| - 1);
    LeWhole(c[8..16]);
    LeWhole(c[16..24]);
    assert c == c[0..8] + c[8..16] + c[16..24];
    var cells := PageRead(pages[0]).value.1;
    assert cells == [c];
  }

  lemma {:induction false} BelowIsTree(a: seq<Node>, n: Node, h: nat, x: nat) returns (g: nat)
    requires Tree(a, n, h) && x in Below(a, n, h)
    ensures x < |a| && Tree(a, a[x], g)
    decreases h
  {
    var i := SpanOf(a, n, h, |n.children|, x);
    if x == n.children[i] {
      g := h - 1;
    } else {
      g := BelowIsTree(a, Kid(a, n, h, i), h - 1, x);
    }
  }

  /** Every tree the index builds has an arena that can be saved and loaded. */
  lemma TreeArenaOk(nodes: seq<Node>, root: nat, h: nat, len: nat)
    requires Whole(nodes, root, h) && |nodes| < U64_LIMIT && len < U64_LIMIT
    requires forall x :: 0 <= x < |nodes| && x != root ==> x in Below(nodes, nodes[root], h)
    ensures ArenaOk(Arena(nodes, root, len))
  {
    hide Apart, Sized, Below;
    forall x | 0 <= x < |nodes|
      ensures NodeShape(nodes[x], |nodes|)
    {
      var g := h;
      if x != root {
        g := BelowIsTree(nodes, nodes[root], h, x);
      }
      assert Tree(nodes, nodes[x], g);
    }
  }

  // ----- Saving and loading as they run -----

  lemma FitsPrefix(cells: seq<Cell>, k: nat)
    requires k <= |cells| && Fits(cells)
    ensures Fits(cells[..k])
  {
    if k > 0 {
      UsedGrows(cells, k - 1);
    }
  }

  lemma {:induction false} ItemsPrefix(n: Node, m: nat, k: nat)
    requires k <= m <= |n.keys| == |n.values| && (n.children != [] ==> |n.children| == |n.keys| + 1)
    ensures ItemCells(n, m)[..k] == ItemCells(n, k)
  {
    hide ItemCell;
    if k < m {
      ItemsPrefix(n, m - 1, k);
    } else {
      assert ItemCells(n, m)[..m] == ItemCells(n, m);
    }
  }

  lemma CellsPrefix(n: Node, k: nat)
    requires k <= |n.keys| == |n.values| && (n.children != [] ==> |n.children| == |n.keys| + 1)
    ensures Fits(NodeCells(n)) ==> Fits(FirstCells(n) + ItemCells(n, k))
  {
    hide ItemCell;
    var cells, first := NodeCells(n), FirstCells(n);
    ItemsPrefix(n, |n.keys|, k);
    assert cells[..|first| + k] == first + ItemCells(n, k);
    if Fits(cells) {
      FitsPrefix(cells, |first| + k);
    }
  }

  /** The page of a node, if its cells fit. */
  method NodePage(n: Node) returns (r: Option<Pagers.Page>)
    requires |n.values| == |n.keys| && (n.children != [] ==> |n.children| == |n.keys| + 1)
    ensures r.Some? <==> Fits(NodeCells(n))
    ensures r.Some? ==> |r.value| == PAGE_SIZE && NodeStored(r.value, n)
  {
    hide Holds, Accepted, Fits, ItemCell, PageNumber, Finished;
    var page := new SlottedPage(KindOfNode(n));
    CellsPrefix(n, 0);
    if n.children != [] {
      var ok := page.Insert(PageNumber(n.children[0]));
      assert [] + [PageNumber(n.children[0])] == FirstCells(n) + ItemCells(n, 0);
      if !ok {
        return None;
      }
    }
    assert page.cells == FirstCells(n) + ItemCells(n, 0);
    for item := 0 to |n.keys|
      invariant fresh(page) && fresh(page.bytes) && page.Valid() && page.kind == KindOfNode(n)
      invariant page.cells == FirstCells(n) + ItemCells(n, item)
    {
      CellsPrefix(n, item + 1);
      assert FirstCells(n) + ItemCells(n, item) + [ItemCell(n, item)] == FirstCells(n) + ItemCells(n, item + 1);
      var ok := page.Insert(ItemCell(n, item));
      if !ok {
        return None;
      }
    }
    var bytes := page.Finish();
    PageHolds(bytes, KindOfNode(n), NodeCells(n));
    return Some(bytes);
  }

  lemma PageHolds(b: Pagers.Page, kind: PageKind, cells: seq<Cell>)
    requires |b| == PAGE_SIZE && Holds(b, kind, cells)
    ensures Fits(cells)
  {
  }

  method MetaPage(a: Arena) returns (r: Pagers.Page)
    ensures |r| == PAGE_SIZE && Sealed(r, Meta, [MetaCell(a)])
  {
    hide Holds, Accepted, Used, MetaCell, Finished;
    var page := new SlottedPage(Meta);
    MetaFits(MetaCell(a));
    assert [] + [MetaCell(a)] == [MetaCell(a)];
    var ok := page.Insert(MetaCell(a));
    r := page.Finish();
  }

  lemma MetaFits(c: Cell)
    requires |c| == 24
    ensures Fits([c])
  {
    UsedMore([], c);
    assert [] + [c] == [c];
  }

  ghost predicate Savable(a: Arena)
    requires ArenaOk(a)
  {
    forall i :: 0 <= i < |a.nodes| ==> NodeFits(a.nodes[i])
  }

  ghost predicate NodeFits(n: Node) {
    |n.values| == |n.keys| && (n.children != [] ==> |n.children| == |n.keys| + 1) && Fits(NodeCells(n))
  }

  /**
   * Writes every page through a pager; the file it leaves stores the arena. Fails only
   * over a node too large for a page.
   */
  method Save(a: Arena) returns (r: Option<seq<Pagers.Page>>)
    requires ArenaOk(a)
    ensures r.Some? <==> Savable(a)
    ensures r.Some? ==> Stores(r.value, a) && forall i :: 0 <= i < |r.value| ==> |r.value[i]| == PAGE_SIZE
  {
    hide Sealed, Pagers.Merged, Pagers.CacheOk, Pagers.FileOk, Pagers.KeysAfter, Fits, MetaCell, StoredTo;
    hide NodeStored, NodeFits;
    var found := Pagers.OpenPager([], 0, 64, true);
    var pager := found.value;
    var meta := pager.Allocate();
    for i := 0 to |a.nodes|
      invariant fresh(pager) && pager.Valid() && |pager.Contents()| == i + 1
    {
      var id := pager.Allocate();
    }
    var metaPage := MetaPage(a);
    var failure := pager.Write(0, metaPage);
    NoneStored(pager.Contents(), a);
    for i := 0 to |a.nodes|
      invariant fresh(pager) && pager.Valid() && |pager.Contents()| == |a.nodes| + 1
      invariant Sealed(pager.Contents()[0], Meta, [MetaCell(a)])
      invariant StoredTo(pager.Contents(), a, i)
    {
      assert NodeShape(a.nodes[i], |a.nodes|);
      var page := NodePage(a.nodes[i]);
      FitsExactly(a.nodes[i]);
      if page.None? {
        return None;
      }
      StoredMore(pager.Contents(), a, i, page.value);
      failure := pager.Write(i + 1, page.value);
    }
    pager.Flush();
    FileSizes(pager.file, pager.cache, pager.pages);
    StoredAll(pager.file, a);
    return Some(pager.file);
  }

  /** The first `n` nodes fit and are on their pages. */
  ghost predicate StoredTo(pages: seq<Pagers.Page>, a: Arena, n: nat) {
    && n <= |a.nodes| < |pages|
    && (forall j :: 0 <= j < n ==> NodeFits(a.nodes[j]) && NodeStored(pages[j + 1], a.nodes[j]))
  }

  lemma NoneStored(pages: seq<Pagers.Page>, a: Arena)
    requires |a.nodes| < |pages|
    ensures StoredTo(pages, a, 0)
  {
  }

  lemma StoredMore(pages: seq<Pagers.Page>, a: Arena, n: nat, page: Pagers.Page)
    requires n < |a.nodes| < |pages| && StoredTo(pages, a, n)
    requires NodeFits(a.nodes[n]) && NodeStored(page, a.nodes[n])
    ensures StoredTo(pages[n + 1 := page], a, n + 1)
  {
    hide NodeFits, NodeStored;
  }

  lemma StoredAll(pages: seq<Pagers.Page>, a: Arena)
    requires ArenaOk(a) && StoredTo(pages, a, |a.nodes|) && |pages| == |a.nodes| + 1
    requires Sealed(pages[0], Meta, [MetaCell(a)])
    ensures Stores(pages, a) && Savable(a)
  {
    hide NodeFits, NodeStored, Sealed, MetaCell;
  }

  lemma FitsExactly(n: Node)
    requires |n.values| == |n.keys| && (n.children != [] ==> |n.children| == |n.keys| + 1)
    ensures NodeFits(n) <==> Fits(NodeCells(n))
  {
  }

  lemma FileSizes(file: seq<Pagers.Page>, cache: Pagers.Cache, pages: nat)
    requires Pagers.FileOk(file, cache, pages, pages)
    ensures forall i :: 0 <= i < |file| ==> |file[i]| == PAGE_SIZE
  {
  }

  method ReadPage(b: Pagers.Page) returns (r: Option<(PageKind, seq<Cell>)>)
    requires |b| == PAGE_SIZE
    ensures r == PageRead(b)
  {
    hide Accepted, U16, CellsTo;
    r := FromBytes(b);
  }

  method LoadNode(b: Pagers.Page, count: nat) returns (r: Option<Node>)
    requires |b| == PAGE_SIZE
    ensures r == NodeFrom(b, count)
  {
    hide PageRead, WithItem;
    var page := ReadPage(b);
    if page.None? {
      return None;
    }
    var (kind, cells) := page.value;
    var start := StartNode(kind, cells, count);
    if start.None? {
      NodeStuck(kind, cells, 0, |cells|, count);
      return None;
    }
    var node := start.value;
    for i := FirstItem(kind) to |cells|
      invariant NodeTo(kind, cells, i, count) == Some(node)
    {
      var next := WithItem(node, cells[i], kind, count);
      if next.None? {
        NodeStuck(kind, cells, i + 1, |cells|, count);
        return None;
      }
      node := next.value;
    }
    return Some(node);
  }

  lemma {:induction false} NodeStuck(kind: PageKind, cells: seq<Cell>, n: nat, m: nat, count: nat)
    requires n <= m <= |cells| && NodeTo(kind, cells, n, count).None?
    ensures NodeTo(kind, cells, m, count).None?
    decreases m
  {
    hide WithItem, StartNode;
    if n < m {
      NodeStuck(kind, cells, n, m - 1, count);
    }
  }

  method ReadArena(file: seq<Pagers.Page>) returns (r: Option<Arena>)
    requires forall i :: 0 <= i < |file| ==> |file[i]| == PAGE_SIZE
    ensures r == ArenaFrom(file)
  {
    hide PageRead, NodeFrom, Pagers.Merged, Pagers.CacheOk, Pagers.FileOk, Pagers.KeysAfter;
    var found := Pagers.OpenPager(file, 0, 64, false);
    var pager := found.value;
    if |file| == 0 {
      return Some(EMPTY);
    }
    var b := pager.Read(0);
    var page := ReadPage(b.value);
    if page.None? {
      return None;
    }
    var (kind, cells) := page.value;
    if kind != Meta || |cells| != 1 || |cells[0]| != 24 {
      return None;
    }
    var c := cells[0];
    var rootPage, count, len := FromLe(c[0..8]), FromLe(c[8..16]), FromLe(c[16..24]);
    if rootPage == 0 || count == 0 || |file| != count + 1 {
      return None;
    }
    var nodes: seq<Node> := [];
    for id := 1 to count + 1
      invariant fresh(pager) && pager.Valid() && pager.Contents() == file
      invariant NodesTo(file, id - 1, count) == Some(nodes)
    {
      b := pager.Read(id);
      var node := LoadNode(b.value, count);
      if node.None? {
        NodesStuck(file, id, count, count);
        return None;
      }
      nodes := nodes + [node.value];
    }
    var root := IndexFrom(c, 0, count);
    if root.None? {
      return None;
    }
    return Some(Arena(nodes, root.value, len));
  }

  lemma {:induction false} NodesStuck(pages: seq<Pagers.Page>, n: nat, m: nat, count: nat)
    requires n <= m && m + 1 <= |pages| && NodesTo(pages, n, count).None?
    ensures NodesTo(pages, m, count).None?
    decreases m
  {
    hide NodeFrom;
    if n < m {
      NodesStuck(pages, n, m - 1, count);
    }
  }
}
