/** The mutations written to the key-value store's log. */
module Commands {
  import opened Bytes
  import opened Keys
  import opened Fields

  const TAG_SET: Byte := 1
  const TAG_DELETE: Byte := 2
  const TAG_CHECKPOINT: Byte := 3

  datatype Command = Set(key: Key, value: Key) | Delete(key: Key) | Checkpoint

  function Encoded(c: Command): seq<Byte> {
    match c
    case Set(key, value) => [TAG_SET] + StringField(key) + StringField(value)
    case Delete(key) => [TAG_DELETE] + StringField(key)
    case Checkpoint => [TAG_CHECKPOINT]
  }

  function DecodedSet(bytes: seq<Byte>, at: nat): Option<Command>
    requires at <= |bytes|
  {
    match StringAt(bytes, at)
    case None => None
    case Some((key, next)) =>
      match StringAt(bytes, next)
      case None => None
      case Some((value, end)) => if end == |bytes| then Some(Set(key, value)) else None
  }

  function DecodedDelete(bytes: seq<Byte>, at: nat): Option<Command>
    requires at <= |bytes|
  {
    match StringAt(bytes, at)
    case None => None
    case Some((key, end)) => if end == |bytes| then Some(Delete(key)) else None
  }

  function Decoded(bytes: seq<Byte>): Option<Command> {
    if bytes == [] then None
    else if bytes[0] == TAG_SET then DecodedSet(bytes, 1)
    else if bytes[0] == TAG_DELETE then DecodedDelete(bytes, 1)
    else if bytes[0] == TAG_CHECKPOINT && |bytes| == 1 then Some(Checkpoint)
    else None
  }

  /** A command whose payload fits the log is read back. */
  lemma CommandRoundTrip(c: Command)
    requires |Encoded(c)| < U32_LIMIT
    ensures Decoded(Encoded(c)) == Some(c)
  {
    hide StringField, StringAt;
    var bytes := Encoded(c);
    match c
    case Set(key, value) =>
      assert bytes[1..] == StringField(key) + StringField(value);
      StringReads(bytes, 1, key);
      assert bytes[5 + |key|..] == StringField(value);
      StringReads(bytes, 5 + |key|, value);
    case Delete(key) =>
      assert bytes[1..] == StringField(key);
      StringReads(bytes, 1, key);
    case Checkpoint =>
  }

  /** Nothing else is accepted: whatever decodes is the encoding of what it decodes to. */
  lemma DecodedIsEncoded(bytes: seq<Byte>)
    requires Decoded(bytes).Some?
    ensures Encoded(Decoded(bytes).value) == bytes
  {
    hide StringField, StringAt;
    var c := Decoded(bytes).value;
    if c.Checkpoint? {
      assert bytes == [TAG_CHECKPOINT];
    } else {
      StringRead(bytes, 1);
      var next := StringAt(bytes, 1).value.1;
      assert bytes[..next] == [bytes[0]] + bytes[1..next];
      if c.Set? {
        StringRead(bytes, next);
        assert bytes == bytes[..next] + bytes[next..];
      } else {
        assert bytes == bytes[..next];
      }
    }
  }

  method PushBytes(before: seq<Byte>, s: Key) returns (out: seq<Byte>)
    ensures out == before + StringField(s)
  {
    out := before + ToLe(|s|, 4);
    out := out + s;
  }

  method Encode(c: Command) returns (out: seq<Byte>)
    ensures out == Encoded(c)
  {
    hide StringField;
    out := [];
    match c
    case Set(key, value) =>
      out := out + [TAG_SET];
      out := PushBytes(out, key);
      out := PushBytes(out, value);
    case Delete(key) =>
      out := out + [TAG_DELETE];
      out := PushBytes(out, key);
    case Checkpoint =>
      out := out + [TAG_CHECKPOINT];
  }

  method Decode(bytes: seq<Byte>) returns (r: Option<Command>)
    ensures r == Decoded(bytes)
  {
    hide StringAt;
    var cursor := new Cursor(bytes);
    var tag := cursor.TakeByte();
    if tag.None? {
      return None;
    }
    var command := Checkpoint;
    if tag.value == TAG_SET {
      var key := cursor.TakeString();
      if key.None? {
        return None;
      }
      var value := cursor.TakeString();
      if value.None? {
        return None;
      }
      command := Set(key.value, value.value);
    } else if tag.value == TAG_DELETE {
      var key := cursor.TakeString();
      if key.None? {
        return None;
      }
      command := Delete(key.value);
    } else if tag.value != TAG_CHECKPOINT {
      return None;
    }
    if cursor.offset != |bytes| {
      return None;
    }
    return Some(command);
  }
}
