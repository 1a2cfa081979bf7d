/** The fields log payloads are made of, and the cursor that reads them. */
module Fields {
  import opened Bytes
  import opened Keys

  /** A string with its 32-bit length. The length of a longer string wraps. */
  function StringField(s: Key): (f: seq<Byte>)
    ensures |f| == 4 + |s|
  {
    ToLe(|s|, 4) + s
  }

  function StringAt(bytes: seq<Byte>, at: nat): (r: Option<(Key, nat)>)
    requires at <= |bytes|
    ensures r.Some? ==> at < r.value.1 <= |bytes|
  {
    if at + 4 > |bytes| then None
    else
      var len := FromLe(bytes[at..at + 4]);
      if at + 4 + len > |bytes| then None else Some((bytes[at + 4..at + 4 + len], at + 4 + len))
  }

  function NumberAt(bytes: seq<Byte>, at: nat): (r: Option<(nat, nat)>)
    requires at <= |bytes|
    ensures r.Some? ==> at < r.value.1 <= |bytes|
  {
    if at + 8 > |bytes| then None else Some((FromLe(bytes[at..at + 8]), at + 8))
  }

  lemma StringReads(bytes: seq<Byte>, at: nat, s: Key)
    requires |s| < U32_LIMIT && at <= |bytes| && StringField(s) <= bytes[at..]
    ensures StringAt(bytes, at) == Some((s, at + 4 + |s|))
  {
    hide ToLe, FromLe;
    Widths();
    LeRoundTrip(|s|, 4);
    assert bytes[at..][..4 + |s|] == StringField(s);
    assert bytes[at..at + 4] == StringField(s)[..4] == ToLe(|s|, 4);
    assert bytes[at + 4..at + 4 + |s|] == StringField(s)[4..] == s;
  }

  lemma StringRead(bytes: seq<Byte>, at: nat)
    requires at <= |bytes| && StringAt(bytes, at).Some?
    ensures var (s, end) := StringAt(bytes, at).value; |s| < U32_LIMIT && bytes[at..end] == StringField(s)
  {
    hide ToLe;
    var (s, end) := StringAt(bytes, at).value;
    Widths();
    FromLeBound(bytes[at..at + 4]);
    LeWhole(bytes[at..at + 4]);
    assert bytes[at..end] == bytes[at..at + 4] + bytes[at + 4..end];
  }

  lemma {:induction false} LeWhole(s: seq<Byte>)
    ensures ToLe(FromLe(s), |s|) == s
  {
    if s != [] {
      LeWhole(s[1..]);
      LeStep(s[0], FromLe(s[1..]));
      assert s == [s[0]] + s[1..];
    }
  }

  lemma LeStep(b: Byte, n: nat)
    ensures var m := Num(b) + 256 * n; m % 256 == Num(b) && m / 256 == n && ByteOf(m % 256) == b
  {
    SameNum(ByteOf(Num(b)), b);
  }

  lemma SameNum(a: Byte, b: Byte)
    requires Num(a) == Num(b)
    ensures a == b
  {
  }

  lemma NumberReads(bytes: seq<Byte>, at: nat, n: nat)
    requires n < U64_LIMIT && at <= |bytes| && ToLe(n, 8) <= bytes[at..]
    ensures NumberAt(bytes, at) == Some((n, at + 8))
  {
    hide ToLe, FromLe;
    Widths();
    LeRoundTrip(n, 8);
    assert bytes[at..][..8] == ToLe(n, 8);
    assert bytes[at..at + 8] == ToLe(n, 8);
  }

  lemma NumberRead(bytes: seq<Byte>, at: nat)
    requires at <= |bytes| && NumberAt(bytes, at).Some?
    ensures var (n, end) := NumberAt(bytes, at).value; n < U64_LIMIT && bytes[at..end] == ToLe(n, 8)
  {
    hide ToLe;
    Widths();
    FromLeBound(bytes[at..at + 8]);
    LeWhole(bytes[at..at + 8]);
  }

  /** Reads fields one after another; a field that is not there leaves the offset where it was or past its length. */
  class Cursor {
    const bytes: seq<Byte>
    var offset: nat

    ghost predicate Valid()
      reads this
    {
      offset <= |bytes|
    }

    constructor (bytes: seq<Byte>)
      ensures Valid() && this.bytes == bytes && offset == 0
    {
      this.bytes, this.offset := bytes, 0;
    }

    method TakeByte() returns (r: Option<Byte>)
      requires Valid()
      modifies this
      ensures Valid()
      ensures r == if old(offset) < |bytes| then Some(bytes[old(offset)]) else None
      ensures r.Some? ==> offset == old(offset) + 1
    {
      if offset >= |bytes| {
        return None;
      }
      offset := offset + 1;
      return Some(bytes[offset - 1]);
    }

    method TakeNumber() returns (r: Option<nat>)
      requires Valid()
      modifies this
      ensures Valid()
      ensures r.Some? ==> NumberAt(bytes, old(offset)) == Some((r.value, offset))
      ensures r.None? ==> NumberAt(bytes, old(offset)).None?
    {
      if offset + 8 > |bytes| {
        return None;
      }
      var value := FromLe(bytes[offset..offset + 8]);
      offset := offset + 8;
      return Some(value);
    }

    method TakeString() returns (r: Option<Key>)
      requires Valid()
      modifies this
      ensures Valid()
      ensures r.Some? ==> StringAt(bytes, old(offset)) == Some((r.value, offset))
      ensures r.None? ==> StringAt(bytes, old(offset)).None?
    {
      if offset + 4 > |bytes| {
        return None;
      }
      var len := FromLe(bytes[offset..offset + 4]);
      offset := offset + 4;
      if offset + len > |bytes| {
        return None;
      }
      offset := offset + len;
      return Some(bytes[offset - len..offset]);
    }
  }
}
