/** The expression parser, exact against the grammar it implements. */
module Parser {
  import opened Bytes
  import opened Keys
  import opened SqlAst

  datatype Token =
    | Word(word: Key) | Int(i: int) | Str(text: Key)
    | Comma | LeftParen | RightParen | Star | Semicolon
    | OpEq | OpNe | OpLt | OpLe | OpGt | OpGe | End

  const OR: Key := [0x4F, 0x52]
  const AND: Key := [0x41, 0x4E, 0x44]
  const NULL: Key := [0x4E, 0x55, 0x4C, 0x4C]
  const TRUE: Key := [0x54, 0x52, 0x55, 0x45]
  const FALSE: Key := [0x46, 0x41, 0x4C, 0x53, 0x45]

  type Tokens = seq<Token>

  /** What the lexer hands over: exactly one end, at the end. */
  ghost predicate Ended(ts: Tokens) {
    ts != [] && ts[|ts| - 1] == End && forall i :: 0 <= i < |ts| - 1 ==> ts[i] != End
  }

  // ----- The grammar -----

  function ComparisonOf(t: Token): Option<BinaryOp> {
    match t
    case OpEq => Some(Eq)
    case OpNe => Some(Ne)
    case OpLt => Some(Lt)
    case OpLe => Some(Le)
    case OpGt => Some(Gt)
    case OpGe => Some(Ge)
    case _ => None
  }

  function AtomOf(t: Token): Option<Expr> {
    match t
    case Int(i) => Some(Literal(Integer(i)))
    case Str(text) => Some(Literal(Text(text)))
    case Word(w) =>
      if w == NULL then Some(Literal(Null))
      else if w == TRUE then Some(Literal(Boolean(true)))
      else if w == FALSE then Some(Literal(Boolean(false)))
      else Some(Column(w))
    case _ => None
  }

  /** Levels of binding: 0 holds an OR, 1 an AND, 2 a comparison, 3 only atoms and parentheses. */
  function LevelOf(op: BinaryOp): (level: nat)
    ensures level <= 2
  {
    if op.Or? then 0 else if op.And? then 1 else 2
  }

  /** OR and AND associate to the left; a comparison takes atoms on both sides. */
  function LeftLevel(op: BinaryOp): nat {
    if Comparing(op) then 3 else LevelOf(op)
  }

  function RightLevel(op: BinaryOp): nat {
    LevelOf(op) + 1
  }

  predicate IsOp(t: Token, op: BinaryOp) {
    if op.Or? then t == Word(OR) else if op.And? then t == Word(AND) else ComparisonOf(t) == Some(op)
  }

  /** The tokens `ts` spell the expression `e` where an operator of `level` or tighter may stand bare. */
  ghost predicate Spells(ts: Tokens, e: Expr, level: nat)
    decreases |ts|
  {
    || (|ts| == 1 && AtomOf(ts[0]) == Some(e))
    || (|ts| > 2 && ts[0] == LeftParen && ts[|ts| - 1] == RightParen && Spells(ts[1..|ts| - 1], e, 0))
    || (e.Binary? && level <= LevelOf(e.op) && exists k :: SpellsAt(ts, e, k))
  }

  /** The main operator is the token at `k`. */
  ghost predicate SpellsAt(ts: Tokens, e: Expr, k: nat)
    requires e.Binary?
    decreases |ts|, 0
  {
    && k < |ts| && IsOp(ts[k], e.op)
    && k > 0 && Spells(ts[..k], e.left, LeftLevel(e.op)) && Spells(ts[k + 1..], e.right, RightLevel(e.op))
  }

  // ----- The parser as functions of the offset -----

  datatype Parsed = Failed | Done(expr: Expr, next: nat)

  function ParsePrimary(ts: Tokens, at: nat): (r: Parsed)
    requires Ended(ts) && at < |ts|
    ensures r.Done? ==> at < r.next < |ts|
    decreases |ts| - at, 1
  {
    if ts[at] == LeftParen then
      match ParseOr(ts, at + 1)
      case Failed => Failed
      case Done(e, next) => if ts[next] == RightParen then Done(e, next + 1) else Failed
    else if AtomOf(ts[at]).Some? then Done(AtomOf(ts[at]).value, at + 1)
    else Failed
  }

  function ParseComparison(ts: Tokens, at: nat): (r: Parsed)
    requires Ended(ts) && at < |ts|
    ensures r.Done? ==> at < r.next < |ts|
    decreases |ts| - at, 2
  {
    match ParsePrimary(ts, at)
    case Failed => Failed
    case Done(left, next) =>
      match ComparisonOf(ts[next])
      case None => Done(left, next)
      case Some(op) =>
        match ParsePrimary(ts, next + 1)
        case Failed => Failed
        case Done(right, end) => Done(Binary(op, left, right), end)
  }

  function ParseAnd(ts: Tokens, at: nat): (r: Parsed)
    requires Ended(ts) && at < |ts|
    ensures r.Done? ==> at < r.next < |ts|
    decreases |ts| - at, 3
  {
    match ParseComparison(ts, at)
    case Failed => Failed
    case Done(e, next) => AndTail(ts, e, next)
  }

  /** The loop of `and`, with `e` parsed up to `at`. */
  function AndTail(ts: Tokens, e: Expr, at: nat): (r: Parsed)
    requires Ended(ts) && at < |ts|
    ensures r.Done? ==> at <= r.next < |ts|
    decreases |ts| - at, 0
  {
    if ts[at] != Word(AND) then Done(e, at)
    else
      match ParseComparison(ts, at + 1)
      case Failed => Failed
      case Done(right, next) => AndTail(ts, Binary(And, e, right), next)
  }

  function ParseOr(ts: Tokens, at: nat): (r: Parsed)
    requires Ended(ts) && at < |ts|
    ensures r.Done? ==> at < r.next < |ts|
    decreases |ts| - at, 4
  {
    match ParseAnd(ts, at)
    case Failed => Failed
    case Done(e, next) => OrTail(ts, e, next)
  }

  /** The loop of `or`. */
  function OrTail(ts: Tokens, e: Expr, at: nat): (r: Parsed)
    requires Ended(ts) && at < |ts|
    ensures r.Done? ==> at <= r.next < |ts|
    decreases |ts| - at, 0
  {
    if ts[at] != Word(OR) then Done(e, at)
    else
      match ParseAnd(ts, at + 1)
      case Failed => Failed
      case Done(right, next) => OrTail(ts, Binary(Or, e, right), next)
  }

  /** The four parsing levels under one name. */
  function ParseAt(ts: Tokens, at: nat, level: nat): Parsed
    requires Ended(ts) && at < |ts|
  {
    if level == 0 then ParseOr(ts, at)
    else if level == 1 then ParseAnd(ts, at)
    else if level == 2 then ParseComparison(ts, at)
    else ParsePrimary(ts, at)
  }

  // ----- Whatever is parsed is spelled -----

  lemma SpellsLooser(ts: Tokens, e: Expr, level: nat, looser: nat)
    requires Spells(ts, e, level) && looser <= level
    ensures Spells(ts, e, looser)
  {
  }

  lemma SpellsBinary(ts: Tokens, at: nat, mid: nat, end: nat, op: BinaryOp, left: Expr, right: Expr)
    requires at < mid < end <= |ts| && IsOp(ts[mid], op)
    requires Spells(ts[at..mid], left, LeftLevel(op)) && Spells(ts[mid + 1..end], right, RightLevel(op))
    ensures Spells(ts[at..end], Binary(op, left, right), LevelOf(op))
  {
    hide IsOp, LeftLevel, RightLevel, AtomOf;
    var s, k := ts[at..end], mid - at;
    assert s[..k] == ts[at..mid] && s[k + 1..] == ts[mid + 1..end];
    assert SpellsAt(s, Binary(op, left, right), k);
  }

  lemma {:induction false} PrimarySound(ts: Tokens, at: nat)
    requires Ended(ts) && at < |ts| && ParsePrimary(ts, at).Done?
    ensures var r := ParsePrimary(ts, at); Spells(ts[at..r.next], r.expr, 3)
    decreases |ts| - at, 1
  {
    hide AtomOf;
    var r := ParsePrimary(ts, at);
    if ts[at] == LeftParen {
      OrSound(ts, at + 1);
      var s := ts[at..r.next];
      assert s[1..|s| - 1] == ts[at + 1..r.next - 1];
    }
  }

  lemma {:induction false} ComparisonSound(ts: Tokens, at: nat)
    requires Ended(ts) && at < |ts| && ParseComparison(ts, at).Done?
    ensures var r := ParseComparison(ts, at); Spells(ts[at..r.next], r.expr, 2)
    decreases |ts| - at, 2
  {
    hide AtomOf, Spells, ParsePrimary;
    var r, left := ParseComparison(ts, at), ParsePrimary(ts, at);
    PrimarySound(ts, at);
    SpellsLooser(ts[at..left.next], left.expr, 3, 2);
    var op := ComparisonOf(ts[left.next]);
    if op.Some? {
      PrimarySound(ts, left.next + 1);
      SpellsBinary(ts, at, left.next, r.next, op.value, r.expr.left, r.expr.right);
    }
  }

  lemma {:induction false} AndTailSound(ts: Tokens, at: nat, e: Expr, mid: nat)
    requires Ended(ts) && at < mid < |ts| && Spells(ts[at..mid], e, 1) && AndTail(ts, e, mid).Done?
    ensures var r := AndTail(ts, e, mid); Spells(ts[at..r.next], r.expr, 1)
    decreases |ts| - mid, 0
  {
    hide Spells, ParseComparison, AtomOf;
    if ts[mid] == Word(AND) {
      var right := ParseComparison(ts, mid + 1);
      ComparisonSound(ts, mid + 1);
      SpellsBinary(ts, at, mid, right.next, And, e, right.expr);
      AndTailSound(ts, at, Binary(And, e, right.expr), right.next);
    }
  }

  lemma {:induction false} AndSound(ts: Tokens, at: nat)
    requires Ended(ts) && at < |ts| && ParseAnd(ts, at).Done?
    ensures var r := ParseAnd(ts, at); Spells(ts[at..r.next], r.expr, 1)
    decreases |ts| - at, 3
  {
    hide Spells, ParseComparison, AndTail;
    var first := ParseComparison(ts, at);
    ComparisonSound(ts, at);
    SpellsLooser(ts[at..first.next], first.expr, 2, 1);
    AndTailSound(ts, at, first.expr, first.next);
  }

  lemma {:induction false} OrTailSound(ts: Tokens, at: nat, e: Expr, mid: nat)
    requires Ended(ts) && at < mid < |ts| && Spells(ts[at..mid], e, 0) && OrTail(ts, e, mid).Done?
    ensures var r := OrTail(ts, e, mid); Spells(ts[at..r.next], r.expr, 0)
    decreases |ts| - mid, 0
  {
    hide Spells, ParseAnd, AtomOf;
    if ts[mid] == Word(OR) {
      var right := ParseAnd(ts, mid + 1);
      AndSound(ts, mid + 1);
      SpellsBinary(ts, at, mid, right.next, Or, e, right.expr);
      OrTailSound(ts, at, Binary(Or, e, right.expr), right.next);
    }
  }

  lemma {:induction false} OrSound(ts: Tokens, at: nat)
    requires Ended(ts) && at < |ts| && ParseOr(ts, at).Done?
    ensures var r := ParseOr(ts, at); Spells(ts[at..r.next], r.expr, 0)
    decreases |ts| - at, 4
  {
    hide Spells, ParseAnd, OrTail;
    var first := ParseAnd(ts, at);
    AndSound(ts, at);
    SpellsLooser(ts[at..first.next], first.expr, 1, 0);
    OrTailSound(ts, at, first.expr, first.next);
  }

  // ----- Whatever is spelled is parsed -----

  /** `t` after a spelling of this level does not continue its last part. */
  predicate Stops(t: Token, level: nat) {
    && (level <= 2 ==> ComparisonOf(t).None?)
    && (level == 0 ==> t != Word(AND))
  }

  /** Parsing from the start of a spelling gets to its end with its expression, and goes on from there. */
  ghost predicate Reaches(ts: Tokens, at: nat, end: nat, e: Expr, level: nat)
    requires Ended(ts) && at < end < |ts|
  {
    ParseAt(ts, at, level) ==
      if level == 0 then OrTail(ts, e, end)
      else if level == 1 then AndTail(ts, e, end)
      else Done(e, end)
  }

  lemma {:induction false} SpelledIsParsed(ts: Tokens, at: nat, end: nat, e: Expr, level: nat)
    requires Ended(ts) && at < end < |ts| && level <= 3 && Spells(ts[at..end], e, level) && Stops(ts[end], level)
    ensures Reaches(ts, at, end, e, level)
    decreases end - at, 4 - level
  {
    hide ParsePrimary, ParseComparison, ParseAnd, ParseOr, AndTail, OrTail, AtomOf, IsOp;
    if level == 3 {
      PrimaryParsed(ts, at, end, e);
    } else if e.Binary? && level == LevelOf(e.op) && !Spells(ts[at..end], e, level + 1) {
      var k :| SpellsAt(ts[at..end], e, k);
      MainOperator(ts, at, end, e, at + k);
    } else {
      SpelledIsParsed(ts, at, end, e, level + 1);
      Lift(ts, at, end, e, level);
    }
  }

  /** An expression of a tighter level is parsed by the looser level as it is. */
  lemma Lift(ts: Tokens, at: nat, end: nat, e: Expr, level: nat)
    requires Ended(ts) && at < end < |ts| && level < 3 && Stops(ts[end], level) && Reaches(ts, at, end, e, level + 1)
    ensures Reaches(ts, at, end, e, level)
  {
  }

  lemma {:induction false} PrimaryParsed(ts: Tokens, at: nat, end: nat, e: Expr)
    requires Ended(ts) && at < end < |ts| && Spells(ts[at..end], e, 3)
    ensures Reaches(ts, at, end, e, 3)
    decreases end - at, 0
  {
    hide ParseOr, OrTail;
    var s := ts[at..end];
    if !(|s| == 1 && AtomOf(s[0]) == Some(e)) {
      Inside(ts, at, end);
      SpelledIsParsed(ts, at + 1, end - 1, e, 0);
      OrEnds(ts, e, end - 1);
    }
  }

  lemma Inside(ts: Tokens, at: nat, end: nat)
    requires at + 2 <= end <= |ts|
    ensures ts[at..end][1..end - at - 1] == ts[at + 1..end - 1]
  {
    var s, t := ts[at..end][1..end - at - 1], ts[at + 1..end - 1];
    assert |s| == |t|;
    forall i | 0 <= i < |t|
      ensures s[i] == t[i]
    {
      assert s[i] == ts[at..end][i + 1];
    }
  }

  lemma OrEnds(ts: Tokens, e: Expr, at: nat)
    requires Ended(ts) && at < |ts| && ts[at] != Word(OR)
    ensures OrTail(ts, e, at) == Done(e, at)
  {
  }

  /** A bare main operator at `mid`. */
  lemma {:induction false} MainOperator(ts: Tokens, at: nat, end: nat, e: Expr, mid: nat)
    requires Ended(ts) && at < mid < end < |ts| && e.Binary? && SpellsAt(ts[at..end], e, mid - at)
    requires Stops(ts[end], LevelOf(e.op))
    ensures Reaches(ts, at, end, e, LevelOf(e.op))
    decreases end - at, 0
  {
    hide Spells, ParsePrimary, ParseComparison, ParseAnd, ParseOr, AndTail, OrTail;
    var s := ts[at..end];
    assert s[..mid - at] == ts[at..mid] && s[mid - at + 1..] == ts[mid + 1..end];
    assert ts[mid + 1..end] != [] by {
      NotEmpty(ts[mid + 1..end], e.right, RightLevel(e.op));
    }
    OperatorStops(ts[mid], e.op);
    SpelledIsParsed(ts, at, mid, e.left, LeftLevel(e.op));
    SpelledIsParsed(ts, mid + 1, end, e.right, RightLevel(e.op));
    JoinAt(ts, at, mid, end, e);
  }

  lemma NotEmpty(ts: Tokens, e: Expr, level: nat)
    requires Spells(ts, e, level)
    ensures ts != []
  {
  }

  lemma OperatorStops(t: Token, op: BinaryOp)
    requires IsOp(t, op)
    ensures Stops(t, LeftLevel(op))
  {
  }

  lemma JoinAt(ts: Tokens, at: nat, mid: nat, end: nat, e: Expr)
    requires Ended(ts) && at < mid && mid + 1 < end < |ts| && e.Binary? && IsOp(ts[mid], e.op)
    requires Reaches(ts, at, mid, e.left, LeftLevel(e.op)) && Reaches(ts, mid + 1, end, e.right, RightLevel(e.op))
    requires Stops(ts[end], LevelOf(e.op))
    ensures Reaches(ts, at, end, e, LevelOf(e.op))
  {
  }

  // ----- Both directions, and the round trip -----

  /** A whole token list parses to `e`, with nothing left over, exactly if it spells `e`. */
  lemma ParsesExactly(ts: Tokens, e: Expr)
    requires Ended(ts + [End])
    ensures ParseOr(ts + [End], 0) == Done(e, |ts|) <==> Spells(ts, e, 0)
  {
    hide ParseOr, Spells, OrTail;
    var all := ts + [End];
    assert all[0..|ts|] == ts;
    if ParseOr(all, 0) == Done(e, |ts|) {
      OrSound(all, 0);
    }
    if Spells(ts, e, 0) {
      NotEmpty(ts, e, 0);
      SpelledIsParsed(all, 0, |ts|, e, 0);
      OrEnds(all, e, |ts|);
    }
  }

  /** No token list spells two expressions. */
  lemma Unambiguous(ts: Tokens, d: Expr, e: Expr)
    requires Ended(ts + [End]) && Spells(ts, d, 0) && Spells(ts, e, 0)
    ensures d == e
  {
    hide Spells, ParseOr;
    ParsesExactly(ts, d);
    ParsesExactly(ts, e);
  }

  /** Expressions with tokens of their own: no column is named like a literal. */
  predicate Writable(e: Expr) {
    match e
    case Column(name) => name != NULL && name != TRUE && name != FALSE
    case Literal(_) => true
    case Binary(_, left, right) => Writable(left) && Writable(right)
  }

  function AtomToken(e: Expr): Token
    requires !e.Binary?
  {
    match e
    case Column(name) => Word(name)
    case Literal(Null) => Word(NULL)
    case Literal(Integer(i)) => Int(i)
    case Literal(Text(text)) => Str(text)
    case Literal(Boolean(b)) => Word(if b then TRUE else FALSE)
  }

  function OpToken(op: BinaryOp): Token {
    match op
    case Eq => OpEq
    case Ne => OpNe
    case Lt => OpLt
    case Le => OpLe
    case Gt => OpGt
    case Ge => OpGe
    case And => Word(AND)
    case Or => Word(OR)
  }

  /** The tokens of `e`, parenthesised only where its operator binds looser than its place asks for. */
  function Written(e: Expr, level: nat): Tokens
    decreases e, 1
  {
    if e.Binary? && LevelOf(e.op) < level then [LeftParen] + Bare(e) + [RightParen] else Bare(e)
  }

  function Bare(e: Expr): Tokens
    decreases e, 0
  {
    if e.Binary?
    then Written(e.left, LeftLevel(e.op)) + [OpToken(e.op)] + Written(e.right, RightLevel(e.op))
    else [AtomToken(e)]
  }

  lemma {:induction false} WrittenSpells(e: Expr, level: nat)
    requires Writable(e)
    ensures Spells(Written(e, level), e, level) && End !in Written(e, level)
    decreases e, 1
  {
    hide Bare;
    BareSpells(e);
    NotEmpty(Bare(e), e, if e.Binary? then LevelOf(e.op) else 3);
    if e.Binary? && LevelOf(e.op) < level {
      var ts := [LeftParen] + Bare(e) + [RightParen];
      assert ts[1..|ts| - 1] == Bare(e);
      SpellsLooser(Bare(e), e, LevelOf(e.op), 0);
    } else if e.Binary? {
      SpellsLooser(Bare(e), e, LevelOf(e.op), level);
    }
  }

  lemma {:induction false} BareSpells(e: Expr)
    requires Writable(e)
    ensures Spells(Bare(e), e, if e.Binary? then LevelOf(e.op) else 3) && End !in Bare(e)
    ensures !e.Binary? ==> |Bare(e)| == 1 && AtomOf(Bare(e)[0]) == Some(e)
    decreases e, 0
  {
    hide Written, LeftLevel, RightLevel, Spells, AtomOf, IsOp;
    if e.Binary? {
      var l, r := Written(e.left, LeftLevel(e.op)), Written(e.right, RightLevel(e.op));
      WrittenSpells(e.left, LeftLevel(e.op));
      WrittenSpells(e.right, RightLevel(e.op));
      NotEmpty(l, e.left, LeftLevel(e.op));
      NotEmpty(r, e.right, RightLevel(e.op));
      var ts := l + [OpToken(e.op)] + r;
      assert ts[0..|l|] == l && ts[|l| + 1..|ts|] == r && ts[0..|ts|] == ts;
      OpTokenIs(e.op);
      SpellsBinary(ts, 0, |l|, |ts|, e.op, e.left, e.right);
    } else {
      AtomSpells(e);
    }
  }

  lemma OpTokenIs(op: BinaryOp)
    ensures IsOp(OpToken(op), op) && OpToken(op) != End
  {
  }

  lemma AtomSpells(e: Expr)
    requires Writable(e) && !e.Binary?
    ensures AtomOf(AtomToken(e)) == Some(e) && AtomToken(e) != End && Spells([AtomToken(e)], e, 3)
  {
  }

  /** Every expression, written with only the parentheses it needs, parses back to itself. */
  lemma ParseRoundTrip(e: Expr)
    requires Writable(e)
    ensures Ended(Written(e, 0) + [End])
    ensures ParseOr(Written(e, 0) + [End], 0) == Done(e, |Written(e, 0)|)
  {
    hide Written, ParseOr, Spells;
    WrittenSpells(e, 0);
    ParsesExactly(Written(e, 0), e);
  }

  // ----- The parser as it runs -----

  class ExprParser {
    const tokens: Tokens
    var offset: nat

    /** The offset never passes the end token. */
    ghost predicate Valid()
      reads this
    {
      Ended(tokens) && offset < |tokens|
    }

    constructor (tokens: Tokens)
      requires Ended(tokens)
      ensures Valid() && this.tokens == tokens && offset == 0
    {
      this.tokens, this.offset := tokens, 0;
    }

    /** What a parsing method leaves: the function's result and offset. */
    ghost predicate Left(result: Option<Expr>, parsed: Parsed)
      reads this
    {
      && Valid()
      && match parsed
         case Failed => result == None
         case Done(e, next) => result == Some(e) && offset == next
    }

    method ConsumeWord(word: Key) returns (r: bool)
      requires Valid()
      modifies this
      ensures Valid() && r == (tokens[old(offset)] == Word(word))
      ensures offset == if r then old(offset) + 1 else old(offset)
    {
      r := tokens[offset] == Word(word);
      if r {
        offset := offset + 1;
      }
    }

    method ConsumeSimple(kind: Token) returns (r: bool)
      requires Valid() && kind != End
      modifies this
      ensures Valid() && r == (tokens[old(offset)] == kind)
      ensures offset == if r then old(offset) + 1 else old(offset)
    {
      r := tokens[offset] == kind;
      if r {
        offset := offset + 1;
      }
    }

    /** Stays on the end token. */
    method Advance() returns (t: Token)
      requires Valid()
      modifies this
      ensures Valid() && t == tokens[old(offset)]
      ensures offset == if t == End then old(offset) else old(offset) + 1
    {
      t := tokens[offset];
      if t != End {
        offset := offset + 1;
      }
    }

    method LiteralValue() returns (r: Option<Value>)
      requires Valid()
      modifies this
      ensures Valid()
      ensures var atom := AtomOf(tokens[old(offset)]);
        r == if atom.Some? && atom.value.Literal? then Some(atom.value.value) else None
      ensures r.Some? ==> offset == old(offset) + 1
    {
      var t := Advance();
      match t
      case Int(i) => return Some(Integer(i));
      case Str(text) => return Some(Text(text));
      case Word(w) =>
        if w == NULL {
          return Some(Null);
        }
        if w == TRUE {
          return Some(Boolean(true));
        }
        if w == FALSE {
          return Some(Boolean(false));
        }
        return None;
      case _ => return None;
    }

    method Primary() returns (r: Option<Expr>)
      requires Valid()
      modifies this
      ensures Left(r, ParsePrimary(tokens, old(offset)))
      decreases |tokens| - offset, 1
    {
      hide ParseOr;
      var open := ConsumeSimple(LeftParen);
      if open {
        r := Disjunction();
        if r.None? {
          return;
        }
        var closed := ConsumeSimple(RightParen);
        return if closed then r else None;
      }
      match tokens[offset]
      case Int(_) =>
        var v := LiteralValue();
        return if v.Some? then Some(Literal(v.value)) else None;
      case Str(_) =>
        var v := LiteralValue();
        return if v.Some? then Some(Literal(v.value)) else None;
      case Word(w) =>
        if w == NULL || w == TRUE || w == FALSE {
          var v := LiteralValue();
          return if v.Some? then Some(Literal(v.value)) else None;
        }
        var t := Advance();
        return Some(Column(w));
      case _ => return None;
    }

    method Comparison() returns (r: Option<Expr>)
      requires Valid()
      modifies this
      ensures Left(r, ParseComparison(tokens, old(offset)))
      decreases |tokens| - offset, 2
    {
      hide ParsePrimary;
      var left := Primary();
      if left.None? {
        return None;
      }
      var op := ComparisonOf(tokens[offset]);
      if op.None? {
        return left;
      }
      offset := offset + 1;
      var right := Primary();
      if right.None? {
        return None;
      }
      return Some(Binary(op.value, left.value, right.value));
    }

    method Conjunction() returns (r: Option<Expr>)
      requires Valid()
      modifies this
      ensures Left(r, ParseAnd(tokens, old(offset)))
      decreases |tokens| - offset, 3
    {
      hide ParseComparison;
      r := Comparison();
      if r.None? {
        return;
      }
      while true
        invariant r.Some? && Valid() && offset > old(offset)
        invariant ParseAnd(tokens, old(offset)) == AndTail(tokens, r.value, offset)
        decreases |tokens| - offset
      {
        var more := ConsumeWord(AND);
        if !more {
          return;
        }
        var right := Comparison();
        if right.None? {
          return None;
        }
        r := Some(Binary(And, r.value, right.value));
      }
    }

    method Disjunction() returns (r: Option<Expr>)
      requires Valid()
      modifies this
      ensures Left(r, ParseOr(tokens, old(offset)))
      decreases |tokens| - offset, 4
    {
      hide ParseAnd;
      r := Conjunction();
      if r.None? {
        return;
      }
      while true
        invariant r.Some? && Valid() && offset > old(offset)
        invariant ParseOr(tokens, old(offset)) == OrTail(tokens, r.value, offset)
        decreases |tokens| - offset
      {
        var more := ConsumeWord(OR);
        if !more {
          return;
        }
        var right := Conjunction();
        if right.None? {
          return None;
        }
        r := Some(Binary(Or, r.value, right.value));
      }
    }
  }
}
