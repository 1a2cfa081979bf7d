/** Expressions over a row, in SQL's three-valued logic. `None` is an error. */
module SqlEval {
  import opened Bytes
  import opened Keys
  import opened SqlAst
  import opened Catalog

  datatype Order = Below | Same | Above

  function TextOrder(a: Key, b: Key): Order {
    if a == b then Same else if Less(a, b) then Order.Below else Order.Above
  }

  function IntOrder(a: int, b: int): Order {
    if a == b then Same else if a < b then Order.Below else Order.Above
  }

  /** Values of one type are ordered; others cannot be compared. */
  function OrderOf(a: Value, b: Value): Option<Order> {
    match (a, b)
    case (Integer(x), Integer(y)) => Some(IntOrder(x, y))
    case (Text(x), Text(y)) => Some(TextOrder(x, y))
    case (Boolean(x), Boolean(y)) => Some(if x == y then Same else if y then Order.Below else Order.Above)
    case _ => None
  }

  function Compared(op: BinaryOp, a: Value, b: Value): Option<Value>
    requires Comparing(op)
  {
    if a.Null? || b.Null? then Some(Null)
    else
      match OrderOf(a, b)
      case None => None
      case Some(o) =>
        var holds := match op
          case Eq => o.Same?
          case Ne => !o.Same?
          case Lt => o.Below?
          case Le => !o.Above?
          case Gt => o.Above?
          case Ge => !o.Below?;
        Some(Boolean(holds))
  }

  function LogicAnd(a: Value, b: Value): Option<Value> {
    if (!a.Boolean? && !a.Null?) || (!b.Boolean? && !b.Null?) then None
    else if a == Boolean(false) || b == Boolean(false) then Some(Boolean(false))
    else if a == Boolean(true) && b == Boolean(true) then Some(Boolean(true))
    else Some(Null)
  }

  function LogicOr(a: Value, b: Value): Option<Value> {
    if (!a.Boolean? && !a.Null?) || (!b.Boolean? && !b.Null?) then None
    else if a == Boolean(true) || b == Boolean(true) then Some(Boolean(true))
    else if a == Boolean(false) && b == Boolean(false) then Some(Boolean(false))
    else Some(Null)
  }

  function Eval(e: Expr, row: Row, s: Schema): Option<Value>
    requires |row| == |s.columns|
  {
    match e
    case Literal(v) => Some(v)
    case Column(name) =>
      (match ColumnIndex(s, name)
       case None => None
       case Some(i) => Some(row[i]))
    case Binary(op, left, right) =>
      match (Eval(left, row, s), Eval(right, row, s))
      case (Some(a), Some(b)) =>
        if op.And? then LogicAnd(a, b) else if op.Or? then LogicOr(a, b) else Compared(op, a, b)
      case _ => None
  }

  /** NULL does not match. */
  function Matches(filter: Option<Expr>, row: Row, s: Schema): Option<bool>
    requires |row| == |s.columns|
  {
    if filter.None? then Some(true)
    else
      match Eval(filter.value, row, s)
      case None => None
      case Some(v) => Some(v == Boolean(true))
  }
}
