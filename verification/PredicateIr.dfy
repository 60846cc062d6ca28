/** The predicate tree compiled from Daft filters and its SQL three-valued meaning. */
module PredicateIr {

  /** Literal values; `Foreign` stands for a value of any type that is not pushed down. */
  datatype Scalar =
    | Null
    | Bool(b: bool)
    | Int(i: int)
    | Float(finite: bool, approx: real)
    | Decimal(isFinite: bool, exact: real)
    | Text(text: string)
    | Bytes(bytes: seq<bv8>)
    | Date(days: int)
    | DateTime(aware: bool, micros: int)
    | Time(zoned: bool, clock: int)
    | Uuid(id: nat)
    | Foreign(typeName: string)

  datatype CompareOp = Eq | Ne | Lt | Le | Gt | Ge

  datatype Value = Column(name: string) | Literal(value: Scalar)

  datatype Predicate =
    | Compare(op: CompareOp, left: Value, right: Value)
    | And(first: Predicate, second: Predicate)
    | Or(first: Predicate, second: Predicate)
    | Not(operand: Predicate)
    | IsNull(column: string, negated: bool)
    | InValues(column: string, values: seq<Scalar>)

  /** Non-empty and without a NUL character. */
  predicate ValidIdentifier(name: string) {
    name != [] && '\0' !in name
  }

  /** The literals the tree may carry. */
  predicate AllowedLiteral(v: Scalar) {
    match v
    case Float(finite, _) => finite
    case Decimal(finite, _) => finite
    case DateTime(aware, _) => !aware
    case Time(aware, _) => !aware
    case Foreign(_) => false
    case _ => true
  }

  /** Non-finite numbers, temporals with a time zone and values of other types are refused. */
  lemma RefusedLiterals(v: Scalar)
    ensures !AllowedLiteral(v) <==>
            || (v.Float? && !v.finite)
            || (v.Decimal? && !v.isFinite)
            || (v.DateTime? && v.aware)
            || (v.Time? && v.zoned)
            || v.Foreign?
  {
  }

  predicate WellFormedValue(v: Value) {
    match v
    case Column(name) => ValidIdentifier(name)
    case Literal(value) => AllowedLiteral(value)
  }

  /** What the constructors of the tree enforce. */
  predicate WellFormed(p: Predicate) {
    match p
    case Compare(_, left, right) => WellFormedValue(left) && WellFormedValue(right)
    case And(a, b) => WellFormed(a) && WellFormed(b)
    case Or(a, b) => WellFormed(a) && WellFormed(b)
    case Not(a) => WellFormed(a)
    case IsNull(column, _) => ValidIdentifier(column)
    case InValues(column, values) =>
      && ValidIdentifier(column)
      && values != []
      && forall v | v in values :: AllowedLiteral(v) && !v.Null?
  }

  /** No comparison mentions a NULL literal, which the renderers refuse. */
  predicate NullFree(p: Predicate) {
    match p
    case Compare(_, left, right) => left != Literal(Null) && right != Literal(Null)
    case And(a, b) => NullFree(a) && NullFree(b)
    case Or(a, b) => NullFree(a) && NullFree(b)
    case Not(a) => NullFree(a)
    case _ => true
  }

  function ValueColumns(v: Value): set<string> {
    if v.Column? then {v.name} else {}
  }

  function ReferencedColumns(p: Predicate): set<string> {
    match p
    case Compare(_, left, right) => ValueColumns(left) + ValueColumns(right)
    case And(a, b) => ReferencedColumns(a) + ReferencedColumns(b)
    case Or(a, b) => ReferencedColumns(a) + ReferencedColumns(b)
    case Not(a) => ReferencedColumns(a)
    case IsNull(column, _) => {column}
    case InValues(column, _) => {column}
  }

  // ----- three-valued logic (SQL-92, sections 8.3, 8.4 and 8.12) ---------------

  datatype Truth = True | False | Unknown

  function And3(a: Truth, b: Truth): Truth {
    if a.False? || b.False? then False else if a.True? && b.True? then True else Unknown
  }

  function Or3(a: Truth, b: Truth): Truth {
    if a.True? || b.True? then True else if a.False? && b.False? then False else Unknown
  }

  function Not3(a: Truth): Truth {
    match a case True => False case False => True case Unknown => Unknown
  }

  function Known(b: bool): Truth {
    if b then True else False
  }

  /** A row by column name; a column that was not selected reads as NULL. */
  type Row = map<string, Scalar>

  function Cell(row: Row, name: string): Scalar {
    if name in row then row[name] else Null
  }

  /** How the database orders two non-null values. */
  type Comparison = (CompareOp, Scalar, Scalar) -> bool

  function Compare3(cmp: Comparison, op: CompareOp, a: Scalar, b: Scalar): Truth {
    if a.Null? || b.Null? then Unknown else Known(cmp(op, a, b))
  }

  function ValueOf(v: Value, row: Row): Scalar {
    match v case Column(name) => Cell(row, name) case Literal(value) => value
  }

  /** `x IN (values)` as the disjunction of equalities. */
  function EvalIn(cmp: Comparison, x: Scalar, values: seq<Scalar>): Truth {
    if values == [] then False else Or3(Compare3(cmp, Eq, x, values[0]), EvalIn(cmp, x, values[1..]))
  }

  function Eval(p: Predicate, row: Row, cmp: Comparison): Truth {
    match p
    case Compare(op, left, right) => Compare3(cmp, op, ValueOf(left, row), ValueOf(right, row))
    case And(a, b) => And3(Eval(a, row, cmp), Eval(b, row, cmp))
    case Or(a, b) => Or3(Eval(a, row, cmp), Eval(b, row, cmp))
    case Not(a) => Not3(Eval(a, row, cmp))
    case IsNull(column, negated) => Known(Cell(row, column).Null? != negated)
    case InValues(column, values) => EvalIn(cmp, Cell(row, column), values)
  }

  // ----- projection ---------------------------------------------------------------

  function Project(row: Row, columns: set<string>): Row {
    map name | name in row && name in columns :: row[name]
  }

  /** A predicate reads only the columns it references. */
  lemma {:induction false} EvalProjected(p: Predicate, row: Row, columns: set<string>, cmp: Comparison)
    requires ReferencedColumns(p) <= columns
    ensures Eval(p, Project(row, columns), cmp) == Eval(p, row, cmp)
  {
    match p
    case And(a, b) => EvalProjected(a, row, columns, cmp); EvalProjected(b, row, columns, cmp);
    case Or(a, b) => EvalProjected(a, row, columns, cmp); EvalProjected(b, row, columns, cmp);
    case Not(a) => EvalProjected(a, row, columns, cmp);
    case Compare(_, left, right) =>
      assert ValueColumns(left) <= columns && ValueColumns(right) <= columns;
      assert left.Column? ==> left.name in columns;
      assert right.Column? ==> right.name in columns;
    case IsNull(column, _) => assert column in columns;
    case InValues(column, _) => assert column in columns;
  }
}
