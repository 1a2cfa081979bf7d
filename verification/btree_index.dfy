/** The index itself: search, insertion with splits on the way down, deletion by rebuilding. */
module BTreeProgram {
  import opened Bytes
  import opened Keys
  import opened BTreeShape
  import opened BTreeInsert
  import opened BTreeChange

  /** `binary_search`: the place of `key` among sorted keys, or where it would go. */
  method BinarySearch(keys: seq<Key>, key: Key) returns (found: bool, index: nat)
    requires SortedKeys(keys)
    ensures found ==> index < |keys| && keys[index] == key
    ensures !found ==>
      && index <= |keys|
      && (forall j :: 0 <= j < index ==> Less(keys[j], key))
      && (forall j :: index <= j < |keys| ==> Less(key, keys[j]))
  {
    var low, high: nat := 0, |keys|;
    while low < high
      invariant low <= high <= |keys|
      invariant forall j :: 0 <= j < low ==> Less(keys[j], key)
      invariant forall j :: high <= j < |keys| ==> Less(key, keys[j])
    {
      var mid := (low + high) / 2;
      if keys[mid] == key {
        return true, mid;
      }
      LessTotal(keys[mid], key);
      if Less(keys[mid], key) {
        forall j | 0 <= j < mid
          ensures Less(keys[j], key)
        {
          LessTrans(keys[j], keys[mid], key);
        }
        low := mid + 1;
      } else {
        forall j | mid < j < |keys|
          ensures Less(key, keys[j])
        {
          LessTrans(key, keys[mid], keys[j]);
        }
        high := mid;
      }
    }
    return false, low;
  }

  /** Sorted, balanced, unshared, every slot in use, and counted. */
  ghost predicate IsIndex(nodes: seq<Node>, root: nat, len: nat, h: nat) {
    && Whole(nodes, root, h)
    && Sorted(Entries(nodes, nodes[root], h))
    && len == |Entries(nodes, nodes[root], h)|
    && |nodes[root].keys| <= MAX_KEYS && (h > 0 ==> |nodes[root].keys| > 0)
    && (forall x :: 0 <= x < |nodes| && x != root ==> x in Below(nodes, nodes[root], h))
  }

  class BTreeIndex {
    var nodes: seq<Node>
    var root: nat
    var len: nat
    ghost var height: nat

    ghost predicate Valid()
      reads this
    {
      IsIndex(nodes, root, len, height)
    }

    ghost function Pairs(): seq<Pair>
      requires Whole(nodes, root, height)
      reads this
    {
      Entries(nodes, nodes[root], height)
    }

    ghost function Contents(): map<Key, Value>
      requires Valid()
      reads this
    {
      ToMap(Pairs())
    }

    constructor ()
      ensures Valid() && Contents() == map[]
    {
      nodes, root, len, height := [Node([], [], [])], 0, 0, 0;
      new;
      LeafEntries(nodes, nodes[0], 0);
    }

    /** An index over an arena that was read from pages; of which height, if of any, is known to the proof only. */
    constructor Restored(nodes: seq<Node>, root: nat, len: nat, ghost height: nat)
      ensures this.nodes == nodes && this.root == root && this.len == len && this.height == height
    {
      this.nodes, this.root, this.len, this.height := nodes, root, len, height;
    }

    method Reset()
      modifies this
      ensures Valid() && Contents() == map[]
    {
      nodes, root, len, height := [Node([], [], [])], 0, 0, 0;
      LeafEntries(nodes, nodes[0], 0);
    }

    method GetFrom(id: nat, key: Key, ghost h: nat) returns (r: Option<Value>)
      requires Whole(nodes, id, h) && Sorted(Entries(nodes, nodes[id], h))
      ensures r.Some? ==> (key, r.value) in Entries(nodes, nodes[id], h)
      ensures r.None? ==> !HasKey(Entries(nodes, nodes[id], h), key)
      decreases h
    {
      hide Less, Sorted, Entries, Apart, Sized;
      var n := nodes[id];
      KeysSorted(nodes, n, h);
      var found, index := BinarySearch(n.keys, key);
      if found {
        KeyPlaced(nodes, n, h, index);
        return Some(n.values[index]);
      }
      Descend(nodes, n, h, index, key);
      if n.children == [] {
        LeafNothing(nodes, n, h, index);
        return None;
      }
      OwnSlot(nodes, id, h, index);
      KidSorted(nodes, n, h, index);
      UnderKid(nodes, n, h, index);
      r := GetFrom(n.children[index], key, h - 1);
    }

    method Get(key: Key) returns (r: Option<Value>)
      requires Valid()
      ensures r == if key in Contents() then Some(Contents()[key]) else None
    {
      r := GetFrom(root, key, height);
      Looked(Pairs(), key, r);
    }

    method Replace(id: nat, key: Key, value: Value, ghost h: nat) returns (done: bool, ghost pos: nat)
      requires Whole(nodes, id, h) && Sorted(Entries(nodes, nodes[id], h))
      modifies this`nodes
      ensures !done ==> nodes == old(nodes) && !HasKey(Entries(nodes, nodes[id], h), key)
      ensures done ==> Replaced(old(nodes), nodes, id, h, pos, (key, value))
      decreases h
    {
      hide Less, Sorted, Entries, Apart, Sized, Replaced;
      var n := nodes[id];
      KeysSorted(nodes, n, h);
      var found, index := BinarySearch(n.keys, key);
      if found {
        pos := KeyAt(nodes, n, h, index);
        nodes := nodes[id := n.(values := n.values[index := value])];
        ReplacedHere(old(nodes), nodes, id, h, index, value);
        return true, pos;
      }
      Descend(nodes, n, h, index, key);
      if n.children == [] {
        LeafNothing(nodes, n, h, index);
        return false, 0;
      }
      OwnSlot(nodes, id, h, index);
      KidSorted(nodes, n, h, index);
      UnderKid(nodes, n, h, index);
      done, pos := Replace(n.children[index], key, value, h - 1);
      if done {
        ReplacedAbove(old(nodes), nodes, id, h, index, pos, (key, value));
        pos := |Walk(old(nodes), n, h, index)| + pos;
      }
    }

    method SplitChild(parent: nat, index: nat, ghost h: nat)
      requires CanSplit(nodes, parent, h, index)
      modifies this`nodes
      ensures nodes == Split(old(nodes), parent, index)
    {
      hide Whole;
      OwnSlot(nodes, parent, h, index);
      var child := nodes[parent].children[index];
      var left := nodes[child];
      var rightKeys := left.keys[MIN_DEGREE..];
      var medianKey := left.keys[MIN_DEGREE - 1];
      var rightValues := left.values[MIN_DEGREE..];
      var medianValue := left.values[MIN_DEGREE - 1];
      var rightChildren := if left.children == [] then [] else left.children[MIN_DEGREE..];
      left := Node(left.keys[..MIN_DEGREE - 1], left.values[..MIN_DEGREE - 1],
                   if left.children == [] then [] else left.children[..MIN_DEGREE]);
      nodes := nodes[child := left];
      nodes := nodes + [Node(rightKeys, rightValues, rightChildren)];
      var right := |nodes| - 1;
      var p := nodes[parent];
      nodes := nodes[parent := Node(Ins(p.keys, index, medianKey), Ins(p.values, index, medianValue),
                                    Ins(p.children, index + 1, right))];
    }

    /** Descends to a leaf, splitting full children first; the key must be new. */
    method InsertNonFull(id: nat, key: Key, value: Value, ghost h: nat) returns (ghost pos: nat)
      requires Whole(nodes, id, h) && |nodes[id].keys| < MAX_KEYS
      requires Sorted(Entries(nodes, nodes[id], h)) && !HasKey(Entries(nodes, nodes[id], h), key)
      modifies this`nodes
      ensures Inserted(old(nodes), nodes, id, h, pos, (key, value))
      decreases h
    {
      hide Less, Sorted, Entries, Apart, Sized, Inserted, HasKey;
      var n := nodes[id];
      KeysSorted(nodes, n, h);
      KeysPresent(nodes, n, h, key);
      var found, index := BinarySearch(n.keys, key);
      assert !found;
      if n.children == [] {
        nodes := nodes[id := Node(Ins(n.keys, index, key), Ins(n.values, index, value), n.children)];
        InsertedLeaf(old(nodes), nodes, id, index, (key, value));
        return index;
      }
      OwnSlot(nodes, id, h, index);
      AboveSized(nodes, id, h, index);
      if |nodes[n.children[index]].keys| == MAX_KEYS {
        pos := InsertSplitting(id, key, value, index, h);
      } else {
        pos := InsertInto(id, key, value, index, h);
      }
    }

    method InsertInto(id: nat, key: Key, value: Value, index: nat, ghost h: nat) returns (ghost pos: nat)
      requires Whole(nodes, id, h) && |nodes[id].keys| <= MAX_KEYS && h > 0 && index < |nodes[id].children|
      requires |Kid(nodes, nodes[id], h, index).keys| < MAX_KEYS
      requires Sorted(Entries(nodes, nodes[id], h)) && !HasKey(Entries(nodes, nodes[id], h), key)
      requires index > 0 ==> Less(nodes[id].keys[index - 1], key)
      requires index < |nodes[id].keys| ==> Less(key, nodes[id].keys[index])
      modifies this`nodes
      ensures Inserted(old(nodes), nodes, id, h, pos, (key, value)) && nodes[id] == old(nodes)[id]
      decreases h, 0
    {
      hide Less, Sorted, Entries, Apart, Sized, Inserted, HasKey;
      var n := nodes[id];
      Descend(nodes, n, h, index, key);
      OwnSlot(nodes, id, h, index);
      KidSorted(nodes, n, h, index);
      UnderKid(nodes, n, h, index);
      pos := InsertNonFull(n.children[index], key, value, h - 1);
      InsertedAbove(old(nodes), nodes, id, h, index, pos, (key, value));
      pos := |Walk(old(nodes), n, h, index)| + pos;
    }

    method InsertSplitting(id: nat, key: Key, value: Value, at: nat, ghost h: nat) returns (ghost pos: nat)
      requires CanSplit(nodes, id, h, at) && |nodes[id].keys| < MAX_KEYS
      requires Sorted(Entries(nodes, nodes[id], h)) && !HasKey(Entries(nodes, nodes[id], h), key)
      requires forall j :: 0 <= j < at ==> Less(nodes[id].keys[j], key)
      requires forall j :: at <= j < |nodes[id].keys| ==> Less(key, nodes[id].keys[j])
      modifies this`nodes
      ensures Inserted(old(nodes), nodes, id, h, pos, (key, value))
      decreases h, 1
    {
      hide Less, Sorted, Entries, Apart, Sized, Inserted, HasKey, Whole;
      var index := at;
      SplitChild(id, at, h);
      SplitOk(old(nodes), id, h, at, nodes);
      SplitPlaced(old(nodes), id, h, at, nodes);
      ghost var mid := nodes;
      WholeParts(mid, id, h);
      KeysPresent(mid, mid[id], h, key);
      assert key != nodes[id].keys[at];
      LessTotal(key, nodes[id].keys[at]);
      if Less(nodes[id].keys[at], key) {
        index := index + 1;
      }
      pos := InsertInto(id, key, value, index, h);
      InsertedAfterSplit(old(nodes), mid, nodes, id, h, at, pos, (key, value));
    }

    method Insert(key: Key, value: Value)
      requires Valid()
      modifies this
      ensures Valid() && Contents() == old(Contents())[key := value]
    {
      hide Less, Sorted, Entries, Apart, Sized, Inserted, HasKey, ToMap, Whole, Replaced, New, Below;
      ghost var before := Pairs();
      var done, pos := Replace(root, key, value, height);
      if done {
        ReplacedTop(old(nodes), nodes, root, height, pos, (key, value));
        ToMapReplace(before, pos, (key, value));
        return;
      }
      WholeParts(nodes, root, height);
      if |nodes[root].keys| == MAX_KEYS {
        GrowRoot();
      }
      ghost var grown := nodes;
      pos := InsertNonFull(root, key, value, height);
      InsertedTop(grown, nodes, root, height, pos, (key, value));
      SortedIns(before, pos, (key, value));
      ToMapIns(before, pos, (key, value));
      len := len + 1;
    }

    /** A full root becomes the only child of a new root and is split. */
    method GrowRoot()
      requires Valid() && |nodes[root].keys| == MAX_KEYS
      modifies this`nodes, this`root, this`height
      ensures Valid() && Pairs() == old(Pairs()) && |nodes[root].keys| < MAX_KEYS
    {
      hide Less, Sorted, Entries, Apart, Sized, Whole, Below, Split;
      var oldRoot := root;
      nodes := nodes + [Node([], [], [oldRoot])];
      root, height := |nodes| - 1, height + 1;
      NewRoot(old(nodes), nodes, oldRoot, old(height), height);
      ghost var mid := nodes;
      SplitChild(root, 0, height);
      SplitOk(mid, root, height, 0, nodes);
      RootKeys(mid, root, nodes);
      WholeParts(mid, root, height);
      WholeParts(nodes, root, height);
      BelowNext(mid, nodes, root, height);
    }

    method Collect(id: nat, out: seq<Pair>, ghost h: nat) returns (r: seq<Pair>)
      requires Whole(nodes, id, h)
      ensures r == out + Entries(nodes, nodes[id], h)
      decreases h
    {
      hide Apart, Sized;
      var n := nodes[id];
      r := out;
      for index := 0 to |n.keys|
        invariant r == out + Walk(nodes, n, h, index)
      {
        if n.children != [] {
          OwnSlot(nodes, id, h, index);
          r := Collect(n.children[index], r, h - 1);
        }
        r := r + [(n.keys[index], n.values[index])];
      }
      if n.children != [] {
        OwnSlot(nodes, id, h, |n.keys|);
        r := Collect(n.children[|n.keys|], r, h - 1);
      }
    }

    /** All pairs in key order; the map they spell is the contents. */
    method AllEntries() returns (r: seq<Pair>)
      requires Valid()
      ensures Sorted(r) && ToMap(r) == Contents() && |r| == len == |Contents()| && r == Pairs()
    {
      hide Less, Whole, Entries, Sorted, Below, ToMap;
      r := Collect(root, [], height);
      assert r == Pairs();
      ToMapSize(r);
    }

    /** The pairs with `start <= key < end`, in key order. */
    method Range(start: Key, end: Key) returns (r: seq<Pair>)
      requires Valid()
      ensures Sorted(r)
      ensures ToMap(r) == map k | k in Contents() && !Less(k, start) && Less(k, end) :: Contents()[k]
    {
      hide Less, Whole, Entries, Sorted, Below, ToMap, Filtered;
      var all := AllEntries();
      r := Filtered(all, (k: Key) => !Less(k, start) && Less(k, end));
      FilteredSorted(all, (k: Key) => !Less(k, start) && Less(k, end));
      FilteredMap(all, (k: Key) => !Less(k, start) && Less(k, end));
    }

    /** Deletes by rebuilding from the remaining pairs. */
    method Delete(key: Key) returns (done: bool)
      requires Valid()
      modifies this
      ensures Valid() && Contents() == old(Contents()) - {key}
      ensures done == (key in old(Contents()))
      ensures !done ==> nodes == old(nodes) && root == old(root)
    {
      hide Less, Whole, Entries, Sorted, Below, ToMap, Filtered;
      var found := Get(key);
      if found.None? {
        return false;
      }
      var all := AllEntries();
      var retained := Filtered(all, (k: Key) => k != key);
      FilteredMap(all, (k: Key) => k != key);
      Rebuild(retained);
      return true;
    }

    method Rebuild(retained: seq<Pair>)
      modifies this
      ensures Valid() && Contents() == ToMap(retained)
    {
      hide Less, Whole, Entries, Sorted, Below;
      Reset();
      for i := 0 to |retained|
        invariant Valid() && Contents() == ToMap(retained[..i])
      {
        assert retained[..i + 1][..i] == retained[..i];
        Insert(retained[i].0, retained[i].1);
      }
      assert retained[..|retained|] == retained;
    }
  }

  // ----- Proof steps of the methods -----

  function Filtered(s: seq<Pair>, keep: Key -> bool): seq<Pair> {
    if s == [] then []
    else Filtered(s[..|s| - 1], keep) + (if keep(s[|s| - 1].0) then [s[|s| - 1]] else [])
  }

  lemma {:induction false} FilteredFrom(s: seq<Pair>, keep: Key -> bool, i: nat) returns (j: nat)
    requires i < |Filtered(s, keep)|
    ensures j < |s| && s[j] == Filtered(s, keep)[i]
  {
    var t := s[..|s| - 1];
    if i < |Filtered(t, keep)| {
      j := FilteredFrom(t, keep, i);
    } else {
      j := |s| - 1;
    }
  }

  lemma {:induction false} FilteredSorted(s: seq<Pair>, keep: Key -> bool)
    requires Sorted(s)
    ensures Sorted(Filtered(s, keep))
  {
    hide Less;
    if s != [] {
      var t := s[..|s| - 1];
      FilteredSorted(t, keep);
      var f := Filtered(t, keep);
      forall i | 0 <= i < |f|
        ensures Less(f[i].0, s[|s| - 1].0)
      {
        var j := FilteredFrom(t, keep, i);
      }
    }
  }

  ghost function Restrict(m: map<Key, Value>, keep: Key -> bool): map<Key, Value> {
    map k | k in m && keep(k) :: m[k]
  }

  lemma RestrictAdd(m: map<Key, Value>, keep: Key -> bool, k: Key, v: Value)
    requires k !in m
    ensures Restrict(m[k := v], keep) == if keep(k) then Restrict(m, keep)[k := v] else Restrict(m, keep)
  {
  }

  lemma {:induction false} FilteredMap(s: seq<Pair>, keep: Key -> bool)
    requires Sorted(s)
    ensures ToMap(Filtered(s, keep)) == Restrict(ToMap(s), keep)
  {
    hide Less;
    if s != [] {
      var t := s[..|s| - 1];
      FilteredMap(t, keep);
      LastFresh(s);
      RestrictAdd(ToMap(t), keep, s[|s| - 1].0, s[|s| - 1].1);
      if keep(s[|s| - 1].0) {
        assert Filtered(s, keep)[..|Filtered(s, keep)| - 1] == Filtered(t, keep);
      } else {
        assert Filtered(s, keep) == Filtered(t, keep);
      }
    }
  }

  lemma LastFresh(s: seq<Pair>)
    requires Sorted(s) && s != []
    ensures s[|s| - 1].0 !in ToMap(s[..|s| - 1])
  {
    hide Less, ToMap;
    var t, k := s[..|s| - 1], s[|s| - 1].0;
    ToMapKeys(t, k);
    LessIrreflexive(k);
  }

  lemma LeafNothing(a: seq<Node>, n: Node, h: nat, i: nat)
    requires Tree(a, n, h) && n.children == [] && i <= |n.keys|
    ensures h == 0 && Under(a, n, h, i) == []
  {
  }

  lemma Looked(e: seq<Pair>, key: Key, r: Option<Value>)
    requires Sorted(e)
    requires r.Some? ==> (key, r.value) in e
    requires r.None? ==> !HasKey(e, key)
    ensures r == if key in ToMap(e) then Some(ToMap(e)[key]) else None
  {
    ToMapKeys(e, key);
    if r.Some? {
      var i :| 0 <= i < |e| && e[i] == (key, r.value);
      ToMapAt(e, i);
    }
  }

  lemma KeysPresent(a: seq<Node>, n: Node, h: nat, key: Key)
    requires Tree(a, n, h) && !HasKey(Entries(a, n, h), key)
    ensures forall i :: 0 <= i < |n.keys| ==> n.keys[i] != key
  {
    forall i | 0 <= i < |n.keys|
      ensures n.keys[i] != key
    {
      KeyPlaced(a, n, h, i);
    }
  }

  /** After a split the median stands at `i`, and both children beside it have room. */
  lemma SplitPlaced(a: seq<Node>, id: nat, h: nat, i: nat, b: seq<Node>)
    requires CanSplit(a, id, h, i) && b == Split(a, id, i) && Whole(b, id, h)
    ensures var n, m := a[id], b[id];
      && |m.keys| == |n.keys| + 1 && |m.children| == |n.children| + 1
      && m.keys == Ins(n.keys, i, Median(a[n.children[i]]).0)
      && |Kid(b, m, h, i).keys| < MAX_KEYS && |Kid(b, m, h, i + 1).keys| < MAX_KEYS
  {
    OwnSlot(a, id, h, i);
  }

  lemma ReplacedTop(a: seq<Node>, b: seq<Node>, id: nat, h: nat, pos: nat, kv: Pair)
    requires Replaced(a, b, id, h, pos, kv)
    ensures |a| == |b| && Whole(a, id, h) && Whole(b, id, h) && Below(b, b[id], h) == Below(a, a[id], h)
    ensures pos < |Entries(a, a[id], h)| && Entries(a, a[id], h)[pos].0 == kv.0
    ensures Entries(b, b[id], h) == Entries(a, a[id], h)[pos := kv] && b[id].keys == a[id].keys
  {
  }

  lemma InsertedTop(a: seq<Node>, b: seq<Node>, id: nat, h: nat, pos: nat, kv: Pair)
    requires Inserted(a, b, id, h, pos, kv)
    requires forall x :: 0 <= x < |a| && x != id ==> x in Below(a, a[id], h)
    ensures |a| <= |b| && Whole(a, id, h) && Whole(b, id, h)
    ensures Fits(Entries(a, a[id], h), pos, kv.0)
    ensures Entries(b, b[id], h) == Ins(Entries(a, a[id], h), pos, kv)
    ensures |a[id].keys| <= |b[id].keys| <= |a[id].keys| + 1
    ensures forall x :: 0 <= x < |b| && x != id ==> x in Below(b, b[id], h)
  {
    forall x | 0 <= x < |b| && x != id
      ensures x in Below(b, b[id], h)
    {
      assert x in Below(a, a[id], h) + New(a, b);
    }
  }

  lemma NewRoot(a: seq<Node>, b: seq<Node>, id: nat, g: nat, h: nat)
    requires h == g + 1 && Whole(a, id, g) && |a[id].keys| == MAX_KEYS
    requires forall x :: 0 <= x < |a| && x != id ==> x in Below(a, a[id], g)
    requires b == a + [Node([], [], [id])]
    ensures CanSplit(b, |a|, h, 0)
    ensures Entries(b, b[|a|], h) == Entries(a, a[id], g)
    ensures forall x :: 0 <= x < |a| ==> x in Below(b, b[|a|], h)
  {
    BelowInRange(a, a[id], g);
    Frame(a, b, a[id], g);
    var n := b[|a|];
    assert Kid(b, n, h, 0) == a[id];
    assert Spans(b, n, h, 1) == Spans(b, n, h, 0) + Span(b, n, h, 0);
  }

  lemma RootKeys(a: seq<Node>, id: nat, b: seq<Node>)
    requires Splittable(a, id, 0) && b == Split(a, id, 0) && a[id].keys == []
    ensures |b[id].keys| == 1
  {
  }

  lemma BelowNext(a: seq<Node>, b: seq<Node>, id: nat, h: nat)
    requires |b| == |a| + 1 && id < |a| && Tree(a, a[id], h) && Tree(b, b[id], h)
    requires Below(b, b[id], h) == Below(a, a[id], h) + {|a|}
    requires forall x :: 0 <= x < |a| && x != id ==> x in Below(a, a[id], h)
    ensures forall x :: 0 <= x < |b| && x != id ==> x in Below(b, b[id], h)
  {
  }
}
