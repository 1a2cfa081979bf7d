/** SQL values and expressions. */
module SqlAst {
  import opened Keys

  datatype DataType = IntegerType | TextType | BooleanType

  /** Integers are 64-bit in every value the lexer or the catalog makes. */
  datatype Value = Null | Integer(i: int) | Text(text: Key) | Boolean(b: bool)

  datatype BinaryOp = Eq | Ne | Lt | Le | Gt | Ge | And | Or

  datatype Expr = Column(name: Key) | Literal(value: Value) | Binary(op: BinaryOp, left: Expr, right: Expr)

  predicate Comparing(op: BinaryOp) {
    !op.And? && !op.Or?
  }
}
