/** The bytes of transaction records. */
module MvccRecords {
  import opened Bytes
  import opened Fields
  import opened MvccLog
  import opened MvccRules

  const TAG_BEGIN: Byte := 0x10
  const TAG_SET: Byte := 0x11
  const TAG_DELETE: Byte := 0x12
  const TAG_COMMIT: Byte := 0x13
  const TAG_ABORT: Byte := 0x14

  function TagOf(r: Record): Byte {
    match r
    case Begin(_, _) => TAG_BEGIN
    case Set(_, _, _) => TAG_SET
    case Delete(_, _) => TAG_DELETE
    case Commit(_, _) => TAG_COMMIT
    case Abort(_) => TAG_ABORT
  }

  function BodyOf(r: Record): seq<Byte> {
    match r
    case Begin(_, snapshot) => ToLe(snapshot, 8)
    case Set(_, key, value) => StringField(key) + StringField(value)
    case Delete(_, key) => StringField(key)
    case Commit(_, ts) => ToLe(ts, 8)
    case Abort(_) => []
  }

  function Encoded(r: Record): seq<Byte> {
    [TagOf(r)] + ToLe(r.txn, 8) + BodyOf(r)
  }

  /** The record of a tag and id whose body starts at `at`, and where it ends. */
  function BodyAt(bytes: seq<Byte>, tag: Byte, txn: nat, at: nat): Option<(Record, nat)>
    requires at <= |bytes|
  {
    if tag == TAG_BEGIN || tag == TAG_COMMIT then
      match NumberAt(bytes, at)
      case None => None
      case Some((n, end)) => Some((if tag == TAG_BEGIN then Begin(txn, n) else Commit(txn, n), end))
    else if tag == TAG_SET then
      match StringAt(bytes, at)
      case None => None
      case Some((key, next)) =>
        (match StringAt(bytes, next)
         case None => None
         case Some((value, end)) => Some((Set(txn, key, value), end)))
    else if tag == TAG_DELETE then
      match StringAt(bytes, at)
      case None => None
      case Some((key, end)) => Some((Delete(txn, key), end))
    else if tag == TAG_ABORT then Some((Abort(txn), at))
    else None
  }

  function Decoded(bytes: seq<Byte>): Option<Record> {
    if bytes == [] then None
    else
      match NumberAt(bytes, 1)
      case None => None
      case Some((txn, at)) =>
        match BodyAt(bytes, bytes[0], txn, at)
        case None => None
        case Some((r, end)) => if end == |bytes| then Some(r) else None
  }

  /** Ids and timestamps are 64-bit. */
  predicate NumbersFit(r: Record) {
    r.txn < U64_LIMIT && (r.Begin? ==> r.snapshot < U64_LIMIT) && (r.Commit? ==> r.commitTs < U64_LIMIT)
  }

  /** A record fits exactly if the log accepts its payload. */
  lemma FitsExact(r: Record)
    ensures RecordFits(r) <==> |Encoded(r)| < U32_LIMIT
  {
  }

  lemma RecordRoundTrip(r: Record)
    requires RecordFits(r) && NumbersFit(r)
    ensures Decoded(Encoded(r)) == Some(r)
  {
    hide StringField, StringAt, NumberAt, ToLe;
    var bytes := Encoded(r);
    assert bytes[1..] == ToLe(r.txn, 8) + BodyOf(r);
    NumberReads(bytes, 1, r.txn);
    assert bytes[9..] == BodyOf(r);
    match r
    case Begin(_, snapshot) => NumberReads(bytes, 9, snapshot);
    case Commit(_, ts) => NumberReads(bytes, 9, ts);
    case Set(_, key, value) =>
      StringReads(bytes, 9, key);
      assert bytes[13 + |key|..] == StringField(value);
      StringReads(bytes, 13 + |key|, value);
    case Delete(_, key) => StringReads(bytes, 9, key);
    case Abort(_) =>
  }

  /** Nothing else is accepted: whatever decodes is the encoding of what it decodes to. */
  lemma DecodedIsEncoded(bytes: seq<Byte>)
    requires Decoded(bytes).Some?
    ensures Encoded(Decoded(bytes).value) == bytes && NumbersFit(Decoded(bytes).value)
  {
    hide StringField, StringAt, NumberAt, ToLe;
    NumberRead(bytes, 1);
    var (txn, at) := NumberAt(bytes, 1).value;
    var r := Decoded(bytes).value;
    BodyRead(bytes, bytes[0], txn, at);
    assert bytes == [bytes[0]] + bytes[1..at] + bytes[at..];
    assert r.txn == txn && TagOf(r) == bytes[0];
    assert bytes[at..|bytes|] == bytes[at..];
  }

  lemma BodyRead(bytes: seq<Byte>, tag: Byte, txn: nat, at: nat)
    requires at <= |bytes| && BodyAt(bytes, tag, txn, at).Some? && txn < U64_LIMIT
    ensures var (r, end) := BodyAt(bytes, tag, txn, at).value;
      at <= end <= |bytes| && BodyOf(r) == bytes[at..end] && TagOf(r) == tag && r.txn == txn && NumbersFit(r)
  {
    hide StringField, StringAt, NumberAt, ToLe;
    if tag == TAG_BEGIN || tag == TAG_COMMIT {
      NumberRead(bytes, at);
    } else if tag == TAG_SET {
      StringRead(bytes, at);
      var next := StringAt(bytes, at).value.1;
      StringRead(bytes, next);
      var end := StringAt(bytes, next).value.1;
      assert bytes[at..end] == bytes[at..next] + bytes[next..end];
    } else if tag == TAG_DELETE {
      StringRead(bytes, at);
    }
  }

  method Encode(r: Record) returns (out: seq<Byte>)
    ensures out == Encoded(r)
  {
    out := [TagOf(r)];
    out := out + ToLe(r.txn, 8);
    match r
    case Begin(_, snapshot) => out := out + ToLe(snapshot, 8);
    case Set(_, key, value) =>
      out := out + StringField(key);
      out := out + StringField(value);
    case Delete(_, key) => out := out + StringField(key);
    case Commit(_, ts) => out := out + ToLe(ts, 8);
    case Abort(_) =>
  }

  method Decode(bytes: seq<Byte>) returns (r: Option<Record>)
    ensures r == Decoded(bytes)
  {
    hide StringAt, NumberAt;
    var cursor := new Cursor(bytes);
    var tag := cursor.TakeByte();
    if tag.None? {
      return None;
    }
    var txn := cursor.TakeNumber();
    if txn.None? {
      return None;
    }
    var record := Abort(txn.value);
    if tag.value == TAG_BEGIN || tag.value == TAG_COMMIT {
      var n := cursor.TakeNumber();
      if n.None? {
        return None;
      }
      record := if tag.value == TAG_BEGIN then Begin(txn.value, n.value) else Commit(txn.value, n.value);
    } else if tag.value == TAG_SET {
      var key := cursor.TakeString();
      if key.None? {
        return None;
      }
      var value := cursor.TakeString();
      if value.None? {
        return None;
      }
      record := Set(txn.value, key.value, value.value);
    } else if tag.value == TAG_DELETE {
      var key := cursor.TakeString();
      if key.None? {
        return None;
      }
      record := Delete(txn.value, key.value);
    } else if tag.value != TAG_ABORT {
      return None;
    }
    if cursor.offset != |bytes| {
      return None;
    }
    return Some(record);
  }
}
