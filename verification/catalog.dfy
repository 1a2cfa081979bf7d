/** Table schemas, and rows as keys and values of the transactional store. */
module Catalog {
  import opened Bytes
  import opened Keys
  import opened Fields
  import opened SqlAst

  const ROW_PREFIX: Key := [0x5F, 0x5F, 0x52, 0x4F, 0x57, 0x3A]
  const COLON: Byte := 0x3A

  datatype ColumnDef = ColumnDef(name: Key, dataType: DataType, primaryKey: bool)
  datatype Schema = Schema(name: Key, columns: seq<ColumnDef>)

  type Row = seq<Value>

  // ----- Schemas -----

  function PrimaryCount(columns: seq<ColumnDef>): nat {
    if columns == [] then 0
    else PrimaryCount(columns[..|columns| - 1]) + (if columns[|columns| - 1].primaryKey then 1 else 0)
  }

  /** What `validate` accepts: columns, one primary key, no name twice. */
  predicate Validated(s: Schema) {
    && s.columns != [] && PrimaryCount(s.columns) == 1
    && (forall i, j :: 0 <= i < j < |s.columns| ==> s.columns[i].name != s.columns[j].name)
  }

  /** Where the first column with a property stands, or how many there are. */
  function Position(columns: seq<ColumnDef>, p: ColumnDef -> bool): (i: nat)
    ensures i <= |columns|
    ensures i < |columns| ==> p(columns[i])
    ensures forall j :: 0 <= j < i ==> !p(columns[j])
  {
    if columns == [] then 0
    else
      var front := columns[..|columns| - 1];
      var i := Position(front, p);
      if i < |front| || p(columns[|columns| - 1]) then i else |columns|
  }

  function PrimaryIndex(s: Schema): nat {
    Position(s.columns, (c: ColumnDef) => c.primaryKey)
  }

  function ColumnIndex(s: Schema, name: Key): Option<nat> {
    var i := Position(s.columns, (c: ColumnDef) => c.name == name);
    if i < |s.columns| then Some(i) else None
  }

  lemma {:induction false} PrimaryExists(columns: seq<ColumnDef>)
    requires PrimaryCount(columns) > 0
    ensures exists i :: 0 <= i < |columns| && columns[i].primaryKey
  {
    var front := columns[..|columns| - 1];
    if !columns[|columns| - 1].primaryKey {
      PrimaryExists(front);
      var i :| 0 <= i < |front| && front[i].primaryKey;
      assert columns[i].primaryKey;
    }
  }

  lemma PrimaryFound(s: Schema)
    requires Validated(s)
    ensures PrimaryIndex(s) < |s.columns| && s.columns[PrimaryIndex(s)].primaryKey
    ensures ColumnIndex(s, s.columns[PrimaryIndex(s)].name) == Some(PrimaryIndex(s))
  {
    PrimaryExists(s.columns);
    var i :| 0 <= i < |s.columns| && s.columns[i].primaryKey;
  }

  function KeyType(s: Schema): DataType
    requires Validated(s)
  {
    PrimaryFound(s);
    s.columns[PrimaryIndex(s)].dataType
  }

  /** NULL has every type. */
  predicate HasType(v: Value, t: DataType) {
    match v
    case Null => true
    case Integer(_) => t.IntegerType?
    case Text(_) => t.TextType?
    case Boolean(_) => t.BooleanType?
  }

  // ----- Values -----

  const I64_LIMIT := 0x8000_0000_0000_0000

  predicate InRange(v: Value) {
    v.Integer? ==> -I64_LIMIT <= v.i < I64_LIMIT
  }

  /** Two's complement. */
  function Unsigned(i: int): (n: nat)
    requires -I64_LIMIT <= i < I64_LIMIT
    ensures n < U64_LIMIT
  {
    if i < 0 then i + U64_LIMIT else i
  }

  function Signed(n: nat): (i: int)
    requires n < U64_LIMIT
    ensures -I64_LIMIT <= i < I64_LIMIT
  {
    if n >= I64_LIMIT then n - U64_LIMIT else n
  }

  function EncodedValue(v: Value): (s: seq<Byte>)
    requires InRange(v)
    ensures s != []
  {
    match v
    case Null => [0x4E]
    case Integer(i) => [0x49] + ToLe(Unsigned(i), 8)
    case Text(text) => [0x54] + text
    case Boolean(b) => [0x42, if b then 1 else 0]
  }

  function DecodedValue(s: seq<Byte>): (r: Option<Value>)
    ensures r.Some? ==> InRange(r.value)
  {
    if s == [] then None
    else if s[0] == 0x4E && |s| == 1 then Some(Null)
    else if s[0] == 0x49 && |s| == 9 then FromLeBound(s[1..9]); Widths(); Some(Integer(Signed(FromLe(s[1..9]))))
    else if s[0] == 0x54 then Some(Text(s[1..]))
    else if s[0] == 0x42 && |s| == 2 && s[1] <= 1 then Some(Boolean(s[1] == 1))
    else None
  }

  lemma ValueRoundTrip(v: Value)
    requires InRange(v)
    ensures DecodedValue(EncodedValue(v)) == Some(v)
  {
    hide ToLe, FromLe;
    var s := EncodedValue(v);
    match v
    case Integer(i) =>
      Widths();
      LeRoundTrip(Unsigned(i), 8);
      assert s[1..9] == ToLe(Unsigned(i), 8);
    case Text(text) => assert s[1..] == text;
    case Null =>
    case Boolean(_) =>
  }

  /** Nothing else is accepted as a value. */
  lemma OnlyValues(s: seq<Byte>)
    requires DecodedValue(s).Some?
    ensures EncodedValue(DecodedValue(s).value) == s
  {
    hide ToLe, FromLe;
    var v := DecodedValue(s).value;
    if v.Integer? {
      FromLeBound(s[1..9]);
      Widths();
      LeWhole(s[1..9]);
      assert Unsigned(Signed(FromLe(s[1..9]))) == FromLe(s[1..9]);
      assert s == [s[0]] + s[1..9];
    } else if v.Text? {
      assert s == [s[0]] + s[1..];
    }
  }

  // ----- Hexadecimal -----

  function HexDigit(n: nat): (b: Byte)
    requires n < 16
    ensures b != COLON
  {
    if n < 10 then DigitByte(n) else LetterByte(n)
  }

  function DigitByte(n: nat): (b: Byte)
    requires n < 10
    ensures 0x30 <= b <= 0x39 && Num(b) == 0x30 + n
  {
    Above(ByteOf(0x30 + n), n); ByteOf(0x30 + n)
  }

  function LetterByte(n: nat): (b: Byte)
    requires 10 <= n < 16
    ensures 0x61 <= b <= 0x66 && Num(b) == 0x57 + n
  {
    Above(ByteOf(0x57 + n), n); ByteOf(0x57 + n)
  }

  lemma Above(b: Byte, n: nat)
    ensures Num(b) == 0x30 + n && n < 10 ==> 0x30 <= b <= 0x39
    ensures Num(b) == 0x57 + n && 10 <= n < 16 ==> 0x61 <= b <= 0x66
  {
  }

  function DigitOf(b: Byte): (r: Option<nat>)
    ensures r.Some? ==> r.value < 16
  {
    var n := Num(b);
    if 0x30 <= n <= 0x39 then Some(n - 0x30)
    else if 0x61 <= n <= 0x66 then Some(n - 0x57)
    else None
  }

  function Hex(s: seq<Byte>): Key {
    if s == [] then [] else Hex(s[..|s| - 1]) + [HexDigit(Num(s[|s| - 1]) / 16), HexDigit(Num(s[|s| - 1]) % 16)]
  }

  function Unhex(s: Key): Option<seq<Byte>> {
    if s == [] then Some([])
    else if |s| == 1 then None
    else
      match (Unhex(s[..|s| - 2]), DigitOf(s[|s| - 2]), DigitOf(s[|s| - 1]))
      case (Some(front), Some(high), Some(low)) => Some(front + [ByteOf(16 * high + low)])
      case _ => None
  }

  lemma DigitRoundTrip(n: nat)
    requires n < 16
    ensures DigitOf(HexDigit(n)) == Some(n)
  {
  }

  lemma {:induction false} HexRoundTrip(s: seq<Byte>)
    ensures Unhex(Hex(s)) == Some(s) && COLON !in Hex(s)
  {
    hide HexDigit, DigitOf, ByteOf, Num, Unhex;
    if s == [] {
      assert Unhex([]) == Some([]) by {
        NoHex();
      }
    } else {
      var front, b := s[..|s| - 1], s[|s| - 1];
      HexRoundTrip(front);
      UnhexMore(Hex(front), front, b);
      assert s == front + [b];
    }
  }

  lemma NoHex()
    ensures Unhex([]) == Some([])
  {
  }

  lemma UnhexMore(s: Key, front: seq<Byte>, b: Byte)
    requires Unhex(s) == Some(front)
    ensures Unhex(s + [HexDigit(Num(b) / 16), HexDigit(Num(b) % 16)]) == Some(front + [b])
  {
    hide HexDigit, DigitOf, ByteOf, Num, Unhex;
    var n := Num(b);
    DigitRoundTrip(n / 16);
    DigitRoundTrip(n % 16);
    UnhexPair(s, front, HexDigit(n / 16), HexDigit(n % 16), n / 16, n % 16);
    SameNum(ByteOf(n), b);
  }

  lemma UnhexPair(s: Key, front: seq<Byte>, x: Byte, y: Byte, high: nat, low: nat)
    requires Unhex(s) == Some(front) && DigitOf(x) == Some(high) && DigitOf(y) == Some(low) && high < 16 && low < 16
    ensures Unhex(s + [x, y]) == Some(front + [ByteOf(16 * high + low)])
  {
    hide DigitOf, ByteOf;
    var t := s + [x, y];
    assert t[..|t| - 2] == s;
  }

  /** Only lower-case digits in pairs are read. */
  lemma {:induction false} OnlyHex(s: Key)
    requires Unhex(s).Some?
    ensures Hex(Unhex(s).value) == s
  {
    hide HexDigit, DigitOf, ByteOf, Num, Hex;
    if s == [] {
      assert Hex([]) == [] by {
        NoBytes();
      }
    } else {
      var front, x, y := s[..|s| - 2], s[|s| - 2], s[|s| - 1];
      OnlyHex(front);
      HexMore(Unhex(front).value, x, y);
      assert s == front + [x, y];
    }
  }

  lemma NoBytes()
    ensures Hex([]) == []
  {
  }

  lemma HexMore(front: seq<Byte>, x: Byte, y: Byte)
    requires DigitOf(x).Some? && DigitOf(y).Some?
    ensures Hex(front + [ByteOf(16 * DigitOf(x).value + DigitOf(y).value)]) == Hex(front) + [x, y]
  {
    hide HexDigit, DigitOf, ByteOf, Num;
    var high, low := DigitOf(x).value, DigitOf(y).value;
    var b := ByteOf(16 * high + low);
    DigitBack(x);
    DigitBack(y);
    PairNum(high, low);
    var bytes := front + [b];
    assert bytes[..|bytes| - 1] == front;
  }

  lemma PairNum(high: nat, low: nat)
    requires high < 16 && low < 16
    ensures Num(ByteOf(16 * high + low)) / 16 == high && Num(ByteOf(16 * high + low)) % 16 == low
  {
    hide ByteOf;
    assert Num(ByteOf(16 * high + low)) == 16 * high + low;
  }

  lemma DigitBack(b: Byte)
    requires DigitOf(b).Some?
    ensures HexDigit(DigitOf(b).value) == b
  {
    hide ByteOf;
    var n := DigitOf(b).value;
    SameNum(HexDigit(n), b);
  }

  // ----- Rows -----

  ghost predicate RowFits(row: Row, columns: seq<ColumnDef>) {
    && |row| == |columns|
    && (forall i :: 0 <= i < |row| ==> InRange(row[i]) && HasType(row[i], columns[i].dataType))
  }

  /** The parts joined by a separator. */
  function Joined(parts: seq<Key>, sep: Byte): Key {
    if parts == [] then []
    else if |parts| == 1 then parts[0]
    else Joined(parts[..|parts| - 1], sep) + [sep] + parts[|parts| - 1]
  }

  /** The text between separators. */
  function Split(s: Key, sep: Byte): (parts: seq<Key>)
    ensures parts != []
  {
    if s == [] then [[]]
    else
      var before := Split(s[..|s| - 1], sep);
      if s[|s| - 1] == sep then before + [[]]
      else before[|before| - 1 := before[|before| - 1] + [s[|s| - 1]]]
  }

  lemma {:induction false} SplitLast(s: Key, part: Key, sep: Byte)
    requires sep !in part
    ensures Split(s + part, sep) == Split(s, sep)[|Split(s, sep)| - 1 := Split(s, sep)[|Split(s, sep)| - 1] + part]
  {
    var before := Split(s, sep);
    if part == [] {
      assert s + part == s;
      assert before[|before| - 1] + part == before[|before| - 1];
      assert before[|before| - 1 := before[|before| - 1] + part] == before;
    } else {
      var front, b := part[..|part| - 1], part[|part| - 1];
      SplitLast(s, front, sep);
      assert (s + part)[..|s + part| - 1] == s + front;
      assert b in part;
      assert before[|before| - 1] + front + [b] == before[|before| - 1] + part;
    }
  }

  lemma {:induction false} SplitJoined(parts: seq<Key>, sep: Byte)
    requires parts != [] && forall i :: 0 <= i < |parts| ==> sep !in parts[i]
    ensures Split(Joined(parts, sep), sep) == parts
  {
    hide Split;
    if |parts| == 1 {
      SplitNone(parts[0], sep);
      assert parts == [parts[0]];
    } else {
      var front, part := parts[..|parts| - 1], parts[|parts| - 1];
      SplitJoined(front, sep);
      SplitMore(Joined(front, sep), part, sep);
      assert parts == front + [part];
    }
  }

  lemma SplitNone(part: Key, sep: Byte)
    requires sep !in part
    ensures Split(part, sep) == [part]
  {
    SplitLast([], part, sep);
    assert [] + part == part;
  }

  lemma SplitMore(s: Key, part: Key, sep: Byte)
    requires sep !in part
    ensures Split(s + [sep] + part, sep) == Split(s, sep) + [part]
  {
    var t := s + [sep];
    assert t[..|t| - 1] == s;
    SplitLast(t, part, sep);
    assert [] + part == part;
  }

  function HexParts(row: Row): (parts: seq<Key>)
    requires forall i :: 0 <= i < |row| ==> InRange(row[i])
    ensures |parts| == |row|
  {
    seq(|row|, i requires 0 <= i < |row| => Hex(EncodedValue(row[i])))
  }

  function EncodedRow(row: Row): Key
    requires forall i :: 0 <= i < |row| ==> InRange(row[i])
  {
    Joined(HexParts(row), COLON)
  }

  function ValueFrom(part: Key): Option<Value> {
    match Unhex(part)
    case None => None
    case Some(bytes) => DecodedValue(bytes)
  }

  function ValuesTo(parts: seq<Key>, n: nat): Option<Row>
    requires n <= |parts|
  {
    if n == 0 then Some([])
    else
      match (ValuesTo(parts, n - 1), ValueFrom(parts[n - 1]))
      case (Some(row), Some(v)) => Some(row + [v])
      case _ => None
  }

  predicate Typed(row: Row, columns: seq<ColumnDef>) {
    |row| == |columns| && forall i :: 0 <= i < |row| ==> HasType(row[i], columns[i].dataType)
  }

  function DecodedRow(s: Key, schema: Schema): Option<Row> {
    var parts := Split(s, COLON);
    match ValuesTo(parts, |parts|)
    case None => None
    case Some(row) => if Typed(row, schema.columns) then Some(row) else None
  }

  lemma {:induction false} ValuesRead(row: Row, n: nat)
    requires n <= |row| && forall i :: 0 <= i < |row| ==> InRange(row[i])
    ensures ValuesTo(HexParts(row), n) == Some(row[..n])
  {
    hide Hex, Unhex, EncodedValue, DecodedValue;
    if n > 0 {
      ValuesRead(row, n - 1);
      HexRoundTrip(EncodedValue(row[n - 1]));
      ValueRoundTrip(row[n - 1]);
      assert row[..n] == row[..n - 1] + [row[n - 1]];
    }
  }

  /** A row that fits its schema is read back. */
  lemma RowRoundTrip(row: Row, schema: Schema)
    requires RowFits(row, schema.columns) && row != []
    ensures DecodedRow(EncodedRow(row), schema) == Some(row)
  {
    hide Hex, EncodedValue, ValuesTo, Split, Joined;
    var parts := HexParts(row);
    forall i | 0 <= i < |parts|
      ensures COLON !in parts[i]
    {
      HexRoundTrip(EncodedValue(row[i]));
    }
    SplitJoined(parts, COLON);
    ValuesRead(row, |row|);
    assert row[..|row|] == row;
  }

  lemma {:induction false} OnlyParts(parts: seq<Key>, n: nat)
    requires n <= |parts| && ValuesTo(parts, n).Some?
    ensures var row := ValuesTo(parts, n).value;
      |row| == n && forall i :: 0 <= i < n ==> InRange(row[i]) && Hex(EncodedValue(row[i])) == parts[i]
  {
    hide Hex, Unhex, EncodedValue, DecodedValue;
    if n > 0 {
      OnlyParts(parts, n - 1);
      var bytes := Unhex(parts[n - 1]).value;
      OnlyHex(parts[n - 1]);
      OnlyValues(bytes);
    }
  }

  lemma {:induction false} JoinedSplit(s: Key, sep: Byte)
    ensures Joined(Split(s, sep), sep) == s
  {
    if s == [] {
      assert Joined([[]], sep) == [];
    } else {
      var front, b := s[..|s| - 1], s[|s| - 1];
      JoinedSplit(front, sep);
      var before, now := Split(front, sep), Split(s, sep);
      var k := |before| - 1;
      if b == sep {
        assert now[..|now| - 1] == before;
      } else {
        assert now[..k] == before[..k] && now[k] == before[k] + [b];
        assert |before| == 1 ==> before == [before[0]];
      }
      assert s == front + [b];
    }
  }

  /** Nothing else is accepted as a row: whatever decodes is the text of the row it decodes to, and fits. */
  lemma OnlyRows(s: Key, schema: Schema)
    requires DecodedRow(s, schema).Some?
    ensures RowFits(DecodedRow(s, schema).value, schema.columns) && EncodedRow(DecodedRow(s, schema).value) == s
  {
    hide Hex, EncodedValue, ValuesTo, Split, Joined;
    var parts, row := Split(s, COLON), DecodedRow(s, schema).value;
    OnlyParts(parts, |parts|);
    JoinedSplit(s, COLON);
    assert HexParts(row) == parts;
  }

  // ----- Row keys -----

  function RowPrefix(table: Key): Key {
    ROW_PREFIX + table + [COLON]
  }

  /** The key of a primary value; NULL and values of another type have none. */
  function KeyForPrimary(s: Schema, v: Value): Option<Key>
    requires Validated(s) && InRange(v)
  {
    PrimaryFound(s);
    if v.Null? || !HasType(v, s.columns[PrimaryIndex(s)].dataType) then None
    else Some(RowPrefix(s.name) + Hex(EncodedValue(v)))
  }

  function RowKey(s: Schema, row: Row): Option<Key>
    requires Validated(s) && RowFits(row, s.columns)
  {
    PrimaryFound(s);
    KeyForPrimary(s, row[PrimaryIndex(s)])
  }

  /** Different primary values have different keys. */
  lemma KeysInjective(s: Schema, v: Value, w: Value)
    requires Validated(s) && InRange(v) && InRange(w)
    requires KeyForPrimary(s, v).Some? && KeyForPrimary(s, v) == KeyForPrimary(s, w)
    ensures v == w
  {
    hide Hex, Unhex, EncodedValue, DecodedValue, Validated;
    var prefix, a, b := RowPrefix(s.name), Hex(EncodedValue(v)), Hex(EncodedValue(w));
    assert (prefix + a)[|prefix|..] == a && (prefix + b)[|prefix|..] == b;
    HexRoundTrip(EncodedValue(v));
    HexRoundTrip(EncodedValue(w));
    ValueRoundTrip(v);
    ValueRoundTrip(w);
  }

  /** No key lies under the prefixes of two tables, as table names hold no colon. */
  lemma TablesApart(s: Key, t: Key, k: Key)
    requires COLON !in s && COLON !in t && RowPrefix(s) <= k && RowPrefix(t) <= k
    ensures s == t
  {
    UnderPrefix(s, k);
    UnderPrefix(t, k);
    assert |s| == |t| ==> s == t;
  }

  lemma UnderPrefix(table: Key, k: Key)
    requires RowPrefix(table) <= k
    ensures var n := |ROW_PREFIX|;
      |k| > n + |table| && k[n + |table|] == COLON && k[n..n + |table|] == table
  {
    var p, n := RowPrefix(table), |ROW_PREFIX|;
    assert p == k[..|p|];
    assert p[n..n + |table|] == table && p[n + |table|] == COLON;
  }

  // ----- Schemas as text -----

  const CATALOG_PREFIX: Key := [0x5F, 0x5F, 0x43, 0x41, 0x54, 0x41, 0x4C, 0x4F, 0x47, 0x3A]
  const BAR: Byte := 0x7C
  const NEWLINE: Byte := 0x0A
  const RETURN: Byte := 0x0D

  function CatalogKey(table: Key): Key {
    CATALOG_PREFIX + table
  }

  /** A word of the lexer: no separator of any stored form. */
  predicate Plain(name: Key) {
    COLON !in name && BAR !in name && NEWLINE !in name
  }

  predicate PlainColumns(columns: seq<ColumnDef>) {
    forall i :: 0 <= i < |columns| ==> Plain(columns[i].name)
  }

  function TypeLetter(t: DataType): Key {
    match t
    case IntegerType => [0x49]
    case TextType => [0x54]
    case BooleanType => [0x42]
  }

  function TypeFrom(s: Key): Option<DataType> {
    if s == [0x49] then Some(IntegerType)
    else if s == [0x54] then Some(TextType)
    else if s == [0x42] then Some(BooleanType)
    else None
  }

  function FlagText(b: bool): Key {
    if b then [0x31] else [0x30]
  }

  function FlagFrom(s: Key): Option<bool> {
    if s == [0x31] then Some(true) else if s == [0x30] then Some(false) else None
  }

  function ColumnLine(c: ColumnDef): Key {
    Joined([c.name, TypeLetter(c.dataType), FlagText(c.primaryKey)], BAR)
  }

  function ColumnFrom(line: Key): Option<ColumnDef> {
    var fields := Split(line, BAR);
    if |fields| != 3 then None
    else
      match (TypeFrom(fields[1]), FlagFrom(fields[2]))
      case (Some(t), Some(b)) => Some(ColumnDef(fields[0], t, b))
      case _ => None
  }

  function ColumnLines(columns: seq<ColumnDef>): (lines: seq<Key>)
    ensures |lines| == |columns|
  {
    seq(|columns|, i requires 0 <= i < |columns| => ColumnLine(columns[i]))
  }

  function EncodedSchema(s: Schema): Key {
    Joined(ColumnLines(s.columns), NEWLINE)
  }

  function WithoutReturn(line: Key): Key {
    if line != [] && line[|line| - 1] == RETURN then line[..|line| - 1] else line
  }

  /** `lines`: the text between line feeds, without the return before one; nothing after the last one. */
  function Lines(text: Key): seq<Key> {
    var parts := Split(text, NEWLINE);
    var ended := seq(|parts| - 1, i requires 0 <= i < |parts| - 1 => WithoutReturn(parts[i]));
    if parts[|parts| - 1] == [] then ended else ended + [parts[|parts| - 1]]
  }

  function ColumnsTo(lines: seq<Key>, n: nat): Option<seq<ColumnDef>>
    requires n <= |lines|
  {
    if n == 0 then Some([])
    else
      match (ColumnsTo(lines, n - 1), ColumnFrom(lines[n - 1]))
      case (Some(front), Some(c)) => Some(front + [c])
      case _ => None
  }

  function DecodedSchema(name: Key, text: Key): (r: Option<Schema>)
    ensures r.Some? ==> r.value.name == name && Validated(r.value)
  {
    match ColumnsTo(Lines(text), |Lines(text)|)
    case None => None
    case Some(columns) => if Validated(Schema(name, columns)) then Some(Schema(name, columns)) else None
  }

  lemma ColumnRoundTrip(c: ColumnDef)
    requires Plain(c.name)
    ensures ColumnFrom(ColumnLine(c)) == Some(c) && NEWLINE !in ColumnLine(c)
    ensures ColumnLine(c) != [] && WithoutReturn(ColumnLine(c)) == ColumnLine(c)
  {
    hide Split;
    var parts := [c.name, TypeLetter(c.dataType), FlagText(c.primaryKey)];
    SplitJoined(parts, BAR);
    assert parts[..2] == [c.name, TypeLetter(c.dataType)] && parts[..2][..1] == [c.name];
    assert Joined(parts[..1], BAR) == c.name;
    assert Joined(parts[..2], BAR) == c.name + [BAR] + TypeLetter(c.dataType);
    assert ColumnLine(c) == c.name + [BAR] + TypeLetter(c.dataType) + [BAR] + FlagText(c.primaryKey);
  }

  lemma {:induction false} ColumnsRead(columns: seq<ColumnDef>, lines: seq<Key>, n: nat)
    requires n <= |columns| && lines == ColumnLines(columns) && PlainColumns(columns)
    ensures ColumnsTo(lines, n) == Some(columns[..n])
  {
    hide ColumnFrom, ColumnLine;
    if n > 0 {
      ColumnsRead(columns, lines, n - 1);
      ColumnRoundTrip(columns[n - 1]);
      assert columns[..n] == columns[..n - 1] + [columns[n - 1]];
    }
  }

  /** A validated schema with plain column names is read back from its text. */
  lemma SchemaRoundTrip(s: Schema)
    requires Validated(s) && PlainColumns(s.columns)
    ensures DecodedSchema(s.name, EncodedSchema(s)) == Some(s)
  {
    hide Split, Joined, ColumnLine, ColumnsTo, PrimaryCount, WithoutReturn;
    var lines := ColumnLines(s.columns);
    forall i | 0 <= i < |lines|
      ensures NEWLINE !in lines[i] && lines[i] != [] && WithoutReturn(lines[i]) == lines[i]
    {
      ColumnRoundTrip(s.columns[i]);
    }
    SplitJoined(lines, NEWLINE);
    assert Lines(EncodedSchema(s)) == lines;
    ColumnsRead(s.columns, lines, |lines|);
    assert s.columns[..|s.columns|] == s.columns;
  }

  lemma OnlyColumns(line: Key)
    requires ColumnFrom(line).Some?
    ensures ColumnLine(ColumnFrom(line).value) == line
  {
    hide Split, Joined;
    var fields := Split(line, BAR);
    JoinedSplit(line, BAR);
    assert fields == [fields[0], fields[1], fields[2]];
  }

  lemma {:induction false} OnlyLines(lines: seq<Key>, n: nat)
    requires n <= |lines| && ColumnsTo(lines, n).Some?
    ensures var columns := ColumnsTo(lines, n).value;
      |columns| == n && forall i :: 0 <= i < n ==> ColumnLine(columns[i]) == lines[i]
  {
    hide ColumnFrom, ColumnLine;
    if n > 0 {
      OnlyLines(lines, n - 1);
      OnlyColumns(lines[n - 1]);
    }
  }

  /** Nothing else is accepted as a schema: the lines of the text are those of the schema. */
  lemma OnlySchemas(name: Key, text: Key)
    requires DecodedSchema(name, text).Some?
    ensures Lines(text) == ColumnLines(DecodedSchema(name, text).value.columns)
  {
    hide ColumnLine, Lines, ColumnsTo, Validated;
    OnlyLines(Lines(text), |Lines(text)|);
  }

  /** Catalog keys tell their tables apart, and lie under no table's prefix. */
  lemma CatalogApart(s: Key, t: Key)
    ensures CatalogKey(s) == CatalogKey(t) <==> s == t
    ensures !(RowPrefix(s) <= CatalogKey(t))
  {
    assert CatalogKey(s)[|CATALOG_PREFIX|..] == s && CatalogKey(t)[|CATALOG_PREFIX|..] == t;
    var p, k := RowPrefix(s), CatalogKey(t);
    assert p[2] == 0x52 && k[2] == 0x43;
  }
}
