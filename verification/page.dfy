/** Slotted pages: slots grow forward, cells grow backward, a checksum covers the page. */
module SlottedPages {
  import opened Bytes
  import opened Crc

  const PAGE_SIZE := 4096
  const HEADER_SIZE := 16
  const MAGIC: seq<Byte> := [0x4E, 0x50, 0x47, 0x31]
  const VERSION: Byte := 1

  type Cell = seq<Byte>

  datatype PageKind = Meta | Internal | Leaf

  function KindByte(kind: PageKind): Byte {
    match kind case Meta => 1 case Internal => 2 case Leaf => 3
  }

  function KindOf(b: Byte): Option<PageKind> {
    if b == 1 then Some(Meta) else if b == 2 then Some(Internal) else if b == 3 then Some(Leaf) else None
  }

  // ----- 16-bit fields -----

  function U16(b: seq<Byte>, at: nat): (n: nat)
    requires at + 2 <= |b|
    ensures n < U16_LIMIT
  {
    Num(b[at]) + 256 * Num(b[at + 1])
  }

  function Put(b: seq<Byte>, at: nat, n: nat): (r: seq<Byte>)
    requires at + 2 <= |b| && n < U16_LIMIT
    ensures |r| == |b| && U16(r, at) == n
    ensures forall i :: 0 <= i < |b| && i != at && i != at + 1 ==> r[i] == b[i]
  {
    b[at := ByteOf(n % 256)][at + 1 := ByteOf(n / 256)]
  }

  /** `b` and `c` agree from `from` to `to`. */
  ghost predicate Agree(b: seq<Byte>, c: seq<Byte>, from: nat, to: nat) {
    |b| == |c| && to <= |b| && forall i :: from <= i < to ==> b[i] == c[i]
  }

  // ----- Where cells lie -----

  /** The bytes taken by cells, each with its length. */
  function Used(cells: seq<Cell>): nat {
    if cells == [] then 0 else Used(cells[..|cells| - 1]) + 2 + |cells[|cells| - 1]|
  }

  /** Where the last of `cells` starts: the lower end of the cell area. */
  function Low(cells: seq<Cell>): int {
    PAGE_SIZE - Used(cells)
  }

  ghost predicate Fits(cells: seq<Cell>) {
    HEADER_SIZE + 2 * |cells| + Used(cells) <= PAGE_SIZE
  }

  lemma {:induction false} UsedGrows(cells: seq<Cell>, i: nat)
    requires i < |cells|
    ensures Used(cells[..i]) + 2 + |cells[i]| == Used(cells[..i + 1]) <= Used(cells)
  {
    if i + 1 < |cells| {
      UsedGrows(cells[..|cells| - 1], i);
      assert cells[..|cells| - 1][..i] == cells[..i] && cells[..|cells| - 1][..i + 1] == cells[..i + 1];
    } else {
      assert cells[..i + 1] == cells;
    }
  }

  lemma UsedMore(cells: seq<Cell>, cell: Cell)
    ensures Used(cells + [cell]) == Used(cells) + 2 + |cell|
  {
    assert (cells + [cell])[..|cells|] == cells;
  }

  /** The `i`-th slot points to a length and the `i`-th cell. */
  ghost predicate CellAt(b: seq<Byte>, cells: seq<Cell>, i: nat)
    requires |b| == PAGE_SIZE && i < |cells| && Fits(cells)
  {
    UsedGrows(cells, i);
    var at := Low(cells[..i + 1]);
    && U16(b, HEADER_SIZE + 2 * i) == at
    && U16(b, at) == |cells[i]| && b[at + 2..at + 2 + |cells[i]|] == cells[i]
  }

  /** `b` is a page of this kind holding exactly these cells, slots below, cells above, never overlapping. */
  ghost predicate Holds(b: seq<Byte>, kind: PageKind, cells: seq<Cell>) {
    && |b| == PAGE_SIZE && Fits(cells)
    && b[..4] == MAGIC && b[4] == VERSION && b[5] == KindByte(kind)
    && U16(b, 6) == |cells| && U16(b, 8) == HEADER_SIZE + 2 * |cells| && U16(b, 10) == Low(cells)
    && (forall i :: 0 <= i < |cells| ==> CellAt(b, cells, i))
  }

  // ----- Insertion -----

  function Room(b: seq<Byte>): nat
    requires |b| == PAGE_SIZE
  {
    var front, back := U16(b, 8), U16(b, 10);
    if back < front then 0 else back - front
  }

  predicate CanInsert(b: seq<Byte>, cell: Cell)
    requires |b| == PAGE_SIZE
  {
    |cell| < U16_LIMIT && Room(b) >= 4 + |cell|
  }

  /** The page after an insertion, in the order the bytes are written. */
  function Inserted(b: seq<Byte>, cell: Cell): (r: seq<Byte>)
    requires |b| == PAGE_SIZE && CanInsert(b, cell) && HEADER_SIZE <= U16(b, 8) && U16(b, 10) <= PAGE_SIZE
    requires U16(b, 6) + 1 < U16_LIMIT
    ensures |r| == PAGE_SIZE
  {
    var count, front, back := U16(b, 6), U16(b, 8), U16(b, 10);
    var at := back - 2 - |cell|;
    var b1 := Put(b, at, |cell|);
    var b2 := b1[..at + 2] + cell + b1[back..];
    var b3 := Put(b2, front, at);
    Put(Put(Put(b3, 6, count + 1), 8, front + 2), 10, at)
  }

  /** What insertion changes and what it leaves. */
  lemma InsertedBytes(b: seq<Byte>, cell: Cell)
    requires |b| == PAGE_SIZE && CanInsert(b, cell) && HEADER_SIZE <= U16(b, 8) && U16(b, 10) <= PAGE_SIZE
    requires U16(b, 6) + 1 < U16_LIMIT
    ensures var r, front, back := Inserted(b, cell), U16(b, 8), U16(b, 10);
      var at := back - 2 - |cell|;
      && |r| == PAGE_SIZE
      && U16(r, 6) == U16(b, 6) + 1 && U16(r, 8) == front + 2 && U16(r, 10) == at
      && U16(r, front) == at && U16(r, at) == |cell| && r[at + 2..at + 2 + |cell|] == cell
      && Agree(r, b, 0, 6) && Agree(r, b, 12, front) && Agree(r, b, front + 2, at) && Agree(r, b, back, PAGE_SIZE)
  {
    hide U16, Put;
    var count, front, back := U16(b, 6), U16(b, 8), U16(b, 10);
    var at := back - 2 - |cell|;
    var b1 := Put(b, at, |cell|);
    var b2 := b1[..at + 2] + cell + b1[back..];
    var b3 := Put(b2, front, at);
    var b4 := Put(b3, 6, count + 1);
    var b5 := Put(b4, 8, front + 2);
    var b6 := Put(b5, 10, at);
    SameField(b2, b1, at);
    SameField(b3, b2, at);
    SameField(b4, b3, at);
    SameField(b5, b4, at);
    SameField(b6, b5, at);
    SameField(b4, b3, front);
    SameField(b5, b4, front);
    SameField(b6, b5, front);
    SameField(b5, b4, 6);
    SameField(b6, b5, 6);
    SameField(b6, b5, 8);
    assert b2[at + 2..at + 2 + |cell|] == cell;
    assert forall i :: at + 2 <= i < at + 2 + |cell| ==> b6[i] == b2[i];
  }

  lemma SameField(b: seq<Byte>, c: seq<Byte>, at: nat)
    requires at + 2 <= |b| && |b| == |c| && b[at] == c[at] && b[at + 1] == c[at + 1]
    ensures U16(b, at) == U16(c, at)
  {
  }

  lemma AgreeParts(b: seq<Byte>, c: seq<Byte>, from: nat, to: nat, i: nat, j: nat)
    requires Agree(b, c, from, to) && from <= i <= j <= to
    ensures b[i..j] == c[i..j]
  {
  }

  /** A cell outside what changed is still there. */
  lemma CellKept(b: seq<Byte>, c: seq<Byte>, cells: seq<Cell>, more: seq<Cell>, i: nat, back: nat)
    requires |b| == |c| == PAGE_SIZE && Fits(cells) && Fits(more) && cells <= more && i < |cells|
    requires CellAt(b, cells, i) && back <= Low(cells)
    requires Agree(b, c, HEADER_SIZE, HEADER_SIZE + 2 * |cells|) && Agree(b, c, back, PAGE_SIZE)
    ensures CellAt(c, more, i)
  {
    hide U16;
    UsedGrows(cells, i);
    UsedGrows(more, i);
    assert more[..i + 1] == cells[..i + 1];
    var at := Low(cells[..i + 1]);
    SameField(b, c, HEADER_SIZE + 2 * i);
    SameField(b, c, at);
    AgreeParts(b, c, back, PAGE_SIZE, at + 2, at + 2 + |cells[i]|);
  }

  /** Insertion adds the cell at the end and moves nothing. */
  lemma InsertedHolds(b: seq<Byte>, kind: PageKind, cells: seq<Cell>, cell: Cell)
    requires Holds(b, kind, cells) && CanInsert(b, cell)
    ensures Fits(cells + [cell]) && Holds(Inserted(b, cell), kind, cells + [cell])
  {
    hide U16, Put, Inserted, Used, CellAt;
    var r, more := Inserted(b, cell), cells + [cell];
    UsedMore(cells, cell);
    InsertedBytes(b, cell);
    assert r[..4] == b[..4];
    forall i | 0 <= i < |more|
      ensures CellAt(r, more, i)
    {
      if i < |cells| {
        assert CellAt(b, cells, i);
        CellKept(b, r, cells, more, i, Low(cells));
      } else {
        LastCell(r, cells, cell);
      }
    }
  }

  lemma LastCell(r: seq<Byte>, cells: seq<Cell>, cell: Cell)
    requires |r| == PAGE_SIZE && Fits(cells + [cell]) && Used(cells + [cell]) == Used(cells) + 2 + |cell|
    requires var at := Low(cells) - 2 - |cell|;
      U16(r, HEADER_SIZE + 2 * |cells|) == at && U16(r, at) == |cell| && r[at + 2..at + 2 + |cell|] == cell
    ensures CellAt(r, cells + [cell], |cells|)
  {
    hide U16, Used;
    assert (cells + [cell])[..|cells| + 1] == cells + [cell];
  }

  /** There is room exactly if the cells still fit with one more. */
  lemma RoomExact(b: seq<Byte>, kind: PageKind, cells: seq<Cell>, cell: Cell)
    requires Holds(b, kind, cells)
    ensures CanInsert(b, cell) <==> Fits(cells + [cell])
  {
    UsedMore(cells, cell);
  }

  // ----- Reading -----

  /** The cell a slot points to, if it lies within the page. */
  function CellFrom(b: seq<Byte>, slot: nat): Option<Cell>
    requires |b| == PAGE_SIZE && slot + 2 <= PAGE_SIZE
  {
    var offset := U16(b, slot);
    if offset < HEADER_SIZE || offset + 2 > PAGE_SIZE then None
    else
      var end := offset + 2 + U16(b, offset);
      if end <= PAGE_SIZE then Some(b[offset + 2..end]) else None
  }

  function CellsTo(b: seq<Byte>, n: nat): Option<seq<Cell>>
    requires |b| == PAGE_SIZE && HEADER_SIZE + 2 * n <= PAGE_SIZE
  {
    if n == 0 then Some([])
    else
      match CellsTo(b, n - 1)
      case None => None
      case Some(cells) =>
        match CellFrom(b, HEADER_SIZE + 2 * (n - 1))
        case None => None
        case Some(cell) => Some(cells + [cell])
  }

  lemma {:induction false} HeldCells(b: seq<Byte>, kind: PageKind, cells: seq<Cell>, n: nat)
    requires Holds(b, kind, cells) && n <= |cells|
    ensures CellsTo(b, n) == Some(cells[..n])
  {
    hide U16;
    if n > 0 {
      HeldCells(b, kind, cells, n - 1);
      assert CellAt(b, cells, n - 1);
      UsedGrows(cells, n - 1);
      assert cells[..n] == cells[..n - 1] + [cells[n - 1]];
    }
  }

  // ----- Checksums -----

  function Zeroed(b: seq<Byte>): (r: seq<Byte>)
    requires |b| == PAGE_SIZE
    ensures |r| == PAGE_SIZE
  {
    b[..12] + [0, 0, 0, 0] + b[16..]
  }

  function Finished(b: seq<Byte>): (r: seq<Byte>)
    requires |b| == PAGE_SIZE
    ensures |r| == PAGE_SIZE
  {
    b[..12] + WordBytes(Checksum(Zeroed(b))) + b[16..]
  }

  predicate WellBounded(b: seq<Byte>)
    requires |b| == PAGE_SIZE
  {
    var count, front, back := U16(b, 6), U16(b, 8), U16(b, 10);
    front == HEADER_SIZE + count * 2 && front <= back <= PAGE_SIZE
  }

  /** What `from_bytes` accepts. */
  predicate Accepted(b: seq<Byte>)
    requires |b| == PAGE_SIZE
  {
    && b[..4] == MAGIC && b[4] == VERSION && KindOf(b[5]).Some?
    && WellBounded(b)
    && Checksum(Zeroed(b)) == WordOf(b[12..16])
    && CellsTo(b, U16(b, 6)).Some?
  }

  lemma FinishedParts(b: seq<Byte>)
    requires |b| == PAGE_SIZE
    ensures var r := Finished(b);
      && Agree(b, r, 0, 12) && Agree(b, r, 16, PAGE_SIZE)
      && r[12..16] == WordBytes(Checksum(Zeroed(b))) && Zeroed(r) == Zeroed(b)
  {
    hide Checksum, WordBytes;
  }

  /** Finishing keeps the cells, and the result is accepted. */
  lemma FinishedAccepted(b: seq<Byte>, kind: PageKind, cells: seq<Cell>)
    requires Holds(b, kind, cells)
    ensures Holds(Finished(b), kind, cells) && Accepted(Finished(b))
    ensures KindOf(Finished(b)[5]) == Some(kind) && CellsTo(Finished(b), |cells|) == Some(cells)
  {
    hide U16, Checksum, WordBytes, WordOf, Finished, Zeroed, CellAt, CellsTo, Used;
    var r := Finished(b);
    FinishedParts(b);
    SameField(b, r, 6);
    SameField(b, r, 8);
    SameField(b, r, 10);
    AgreeParts(b, r, 0, 12, 0, 4);
    assert b[0..4] == b[..4] && r[0..4] == r[..4];
    forall i | 0 <= i < |cells|
      ensures CellAt(r, cells, i)
    {
      CellKept(b, r, cells, cells, i, Low(cells));
    }
    HeldCells(r, kind, cells, |cells|);
    assert cells[..|cells|] == cells;
    WordRoundTrip(Checksum(Zeroed(b)));
  }

  /** A finished page changed within four consecutive bytes, all inside or all outside the checksum, is refused. */
  lemma DamageRefused(b: seq<Byte>, at: nat, s: seq<Byte>)
    requires |b| == PAGE_SIZE && |s| <= 4 && at + |s| <= PAGE_SIZE && s != Finished(b)[at..at + |s|]
    requires at + |s| <= 12 || at >= 16 || (12 <= at && at + |s| <= 16)
    ensures !Accepted(Finished(b)[..at] + s + Finished(b)[at + |s|..])
  {
    hide Checksum, WordBytes, WordOf, CellsTo, U16, Finished;
    var f := Finished(b);
    var t := f[at..at + |s|];
    var d := f[..at] + s + f[at + |s|..];
    FinishedParts(b);
    WordRoundTrip(Checksum(Zeroed(b)));
    if 12 <= at && at + |s| <= 16 {
      assert Zeroed(d) == Zeroed(f);
      FieldDiffers(f, d, at, s);
      if WordOf(d[12..16]) == WordOf(f[12..16]) {
        WordInjective(d[12..16], f[12..16]);
      }
    } else {
      var z := Zeroed(f);
      OutsideWindow(f, d, at, s);
      BurstDetected(z[..at], s, t, z[at + |s|..]);
    }
  }

  lemma ZeroedAt(b: seq<Byte>)
    requires |b| == PAGE_SIZE
    ensures forall i :: 0 <= i < PAGE_SIZE ==> Zeroed(b)[i] == if 12 <= i < 16 then 0 else b[i]
  {
  }

  lemma OutsideWindow(f: seq<Byte>, d: seq<Byte>, at: nat, s: seq<Byte>)
    requires |f| == PAGE_SIZE && at + |s| <= PAGE_SIZE && (at + |s| <= 12 || at >= 16)
    requires d == f[..at] + s + f[at + |s|..]
    ensures d[12..16] == f[12..16]
    ensures var z := Zeroed(f);
      z == z[..at] + f[at..at + |s|] + z[at + |s|..] && Zeroed(d) == z[..at] + s + z[at + |s|..]
  {
    hide Zeroed;
    ZeroedAt(f);
    ZeroedAt(d);
    var z := Zeroed(f);
    var u, v := z[..at] + f[at..at + |s|] + z[at + |s|..], z[..at] + s + z[at + |s|..];
    assert forall i :: 0 <= i < PAGE_SIZE ==> u[i] == z[i];
    assert forall i :: 0 <= i < PAGE_SIZE ==> v[i] == Zeroed(d)[i];
  }

  lemma SubSlice(s: seq<Byte>, a: nat, b: nat, i: nat, j: nat)
    requires a <= b <= |s| && i <= j <= b - a
    ensures s[a..b][i..j] == s[a + i..a + j]
  {
    var l, r := s[a..b][i..j], s[a + i..a + j];
    assert |l| == |r|;
    forall k | 0 <= k < |l|
      ensures l[k] == r[k]
    {
      assert l[k] == s[a..b][i + k];
    }
  }

  lemma FieldDiffers(f: seq<Byte>, d: seq<Byte>, at: nat, s: seq<Byte>)
    requires |f| == PAGE_SIZE && 12 <= at && at + |s| <= 16 && s != f[at..at + |s|]
    requires d == f[..at] + s + f[at + |s|..]
    ensures d[12..16] != f[12..16]
  {
    assert d[at..at + |s|] == s;
    SubSlice(d, 12, 16, at - 12, at - 12 + |s|);
    SubSlice(f, 12, 16, at - 12, at - 12 + |s|);
  }

  // ----- Pages as they run -----

  class SlottedPage {
    const bytes: array<Byte>
    ghost var kind: PageKind
    ghost var cells: seq<Cell>

    ghost predicate Valid()
      reads this, bytes
    {
      bytes.Length == PAGE_SIZE && Holds(bytes[..], kind, cells)
    }

    constructor (kind: PageKind)
      ensures Valid() && fresh(bytes) && this.kind == kind && cells == []
    {
      bytes := new Byte[PAGE_SIZE](_ => 0);
      this.kind, cells := kind, [];
      new;
      Stamp(kind);
    }

    /** Writes the header of an empty page. */
    method Stamp(kind: PageKind)
      requires bytes.Length == PAGE_SIZE
      modifies bytes
      ensures Holds(bytes[..], kind, [])
    {
      hide U16, Put, Holds;
      bytes[0], bytes[1], bytes[2], bytes[3] := MAGIC[0], MAGIC[1], MAGIC[2], MAGIC[3];
      bytes[4] := VERSION;
      bytes[5] := KindByte(kind);
      ghost var b := bytes[..];
      assert b[..4] == MAGIC;
      PutField(6, 0);
      PutField(8, HEADER_SIZE);
      PutField(10, PAGE_SIZE);
      NewHolds(b, kind);
    }

    method PutField(at: nat, n: nat)
      requires bytes.Length == PAGE_SIZE && at + 2 <= PAGE_SIZE && n < U16_LIMIT
      modifies bytes
      ensures bytes[..] == Put(old(bytes[..]), at, n)
    {
      bytes[at], bytes[at + 1] := ByteOf(n % 256), ByteOf(n / 256);
      assert bytes[..] == Put(old(bytes[..]), at, n);
    }

    /** Adds a cell, or reports that there is no room and changes nothing. */
    method Insert(cell: Cell) returns (ok: bool)
      requires Valid()
      modifies this, bytes
      ensures Valid() && kind == old(kind)
      ensures ok <==> Fits(old(cells) + [cell])
      ensures cells == if ok then old(cells) + [cell] else old(cells)
      ensures !ok ==> bytes[..] == old(bytes[..])
    {
      hide U16, Put, Used, CellAt;
      ghost var b := bytes[..];
      RoomExact(b, kind, cells, cell);
      if |cell| >= U16_LIMIT {
        return false;
      }
      var count, front, back := U16(bytes[..], 6), U16(bytes[..], 8), U16(bytes[..], 10);
      if (if back < front then 0 else back - front) < 4 + |cell| {
        return false;
      }
      var at := back - 2 - |cell|;
      InsertedHolds(b, kind, cells, cell);
      PutField(at, |cell|);
      CopyCell(at + 2, cell);
      PutField(front, at);
      PutField(6, count + 1);
      PutField(8, front + 2);
      PutField(10, at);
      cells := cells + [cell];
      return true;
    }

    method CopyCell(start: nat, cell: Cell)
      requires bytes.Length == PAGE_SIZE && start + |cell| <= PAGE_SIZE
      modifies bytes
      ensures bytes[..] == old(bytes[..])[..start] + cell + old(bytes[..])[start + |cell|..]
    {
      for i := 0 to |cell|
        invariant bytes[..] == old(bytes[..])[..start] + cell[..i] + old(bytes[..])[start + i..]
      {
        bytes[start + i] := cell[i];
      }
    }

    method Cells() returns (r: Option<seq<Cell>>)
      requires Valid()
      ensures r == Some(cells)
    {
      HeldCells(bytes[..], kind, cells, |cells|);
      assert cells[..|cells|] == cells;
      r := ReadCells(bytes[..]);
    }

    /** The final bytes, with their checksum. */
    method Finish() returns (r: seq<Byte>)
      requires Valid()
      modifies bytes
      ensures r == Finished(old(bytes[..])) && Accepted(r) && Holds(r, old(kind), old(cells))
    {
      hide Checksum, Crc.Register, WordBytes, Holds, Accepted;
      ghost var b := bytes[..];
      FinishedAccepted(b, kind, cells);
      CopyCell(12, [0, 0, 0, 0]);
      assert bytes[..] == Zeroed(b);
      var checksum := Crc32(bytes[..]);
      CopyCell(12, WordBytes(checksum));
      r := bytes[..];
      assert r == Finished(b);
    }
  }

  lemma NewHolds(b: seq<Byte>, kind: PageKind)
    requires |b| == PAGE_SIZE && b[..4] == MAGIC && b[4] == VERSION && b[5] == KindByte(kind)
    ensures Holds(Put(Put(Put(b, 6, 0), 8, HEADER_SIZE), 10, PAGE_SIZE), kind, [])
  {
    hide U16, Put;
    var b1 := Put(b, 6, 0);
    var b2 := Put(b1, 8, HEADER_SIZE);
    var b3 := Put(b2, 10, PAGE_SIZE);
    SameField(b2, b1, 6);
    SameField(b3, b2, 6);
    SameField(b3, b2, 8);
    assert b3[..4] == b[..4];
  }

  lemma {:induction false} CellsStuck(b: seq<Byte>, n: nat, m: nat)
    requires |b| == PAGE_SIZE && n <= m && HEADER_SIZE + 2 * m <= PAGE_SIZE && CellsTo(b, n).None?
    ensures CellsTo(b, m).None?
  {
    hide U16;
    if n < m {
      CellsStuck(b, n, m - 1);
    }
  }

  method ReadCells(b: seq<Byte>) returns (r: Option<seq<Cell>>)
    requires |b| == PAGE_SIZE && HEADER_SIZE + 2 * U16(b, 6) <= PAGE_SIZE
    ensures r == CellsTo(b, U16(b, 6))
  {
    hide U16;
    var count := U16(b, 6);
    var out: seq<Cell> := [];
    for index := 0 to count
      invariant CellsTo(b, index) == Some(out)
    {
      var cell := CellFrom(b, HEADER_SIZE + index * 2);
      if cell.None? {
        CellsStuck(b, index + 1, count);
        return None;
      }
      out := out + [cell.value];
    }
    return Some(out);
  }

  /** The kind and cells of a page read from disk, if it is sound. */
  method FromBytes(b: seq<Byte>) returns (r: Option<(PageKind, seq<Cell>)>)
    requires |b| == PAGE_SIZE
    ensures r.Some? <==> Accepted(b)
    ensures r.Some? ==> KindOf(b[5]) == Some(r.value.0) && CellsTo(b, U16(b, 6)) == Some(r.value.1)
  {
    hide Checksum, U16, WordOf, CellsTo;
    if b[..4] != MAGIC || b[4] != VERSION {
      return None;
    }
    var kind := KindOf(b[5]);
    if kind.None? || !WellBounded(b) {
      return None;
    }
    var crc := Crc32(Zeroed(b));
    if crc != WordOf(b[12..16]) {
      return None;
    }
    var cells := ReadCells(b);
    if cells.None? {
      return None;
    }
    return Some((kind.value, cells.value));
  }
}
