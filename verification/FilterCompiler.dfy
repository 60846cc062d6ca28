/** All-or-nothing compilation of Daft filters into the predicate tree. */
module FilterCompiler {
  import opened Wrappers
  import opened PredicateIr

  /** Daft expressions as the visitor sees them; `Opaque` covers aliases, casts, functions and
      coalesce, none of which is pushed down. */
  datatype Expr =
    | Col(name: string)
    | Lit(value: Scalar)
    | Opaque(args: seq<Expr>)
    | ListOf(items: seq<Expr>)
    | AndE(left: Expr, right: Expr)
    | OrE(left: Expr, right: Expr)
    | NotE(arg: Expr)
    | CompareE(op: CompareOp, left: Expr, right: Expr)
    | BetweenE(arg: Expr, lower: Expr, upper: Expr)
    | IsInE(arg: Expr, items: seq<Expr>)
    | IsNullE(arg: Expr)
    | NotNullE(arg: Expr)

  /** What one visit returns. */
  datatype Visited = P(pred: Predicate) | V(val: Value) | Literals(values: seq<Scalar>)

  function MakeColumn(name: string): Result<Visited> {
    if ValidIdentifier(name) then Ok(V(Column(name))) else Err(Configuration)
  }

  function MakeLiteral(v: Scalar): Result<Visited> {
    if AllowedLiteral(v) then Ok(V(Literal(v))) else Err(UnsupportedPredicate)
  }

  function AsPredicate(v: Visited): Result<Predicate> {
    if v.P? then Ok(v.pred) else Err(UnsupportedPredicate)
  }

  function AsValue(v: Visited): Result<Value> {
    if v.V? then Ok(v.val) else Err(UnsupportedPredicate)
  }

  function AsColumn(v: Visited): Result<string> {
    if v.V? && v.val.Column? then Ok(v.val.name) else Err(UnsupportedPredicate)
  }

  /** A comparison with a NULL literal is not pushed down. */
  function MakeCompare(op: CompareOp, left: Value, right: Value): Result<Predicate> {
    if left == Literal(Null) || right == Literal(Null) then Err(UnsupportedPredicate)
    else Ok(Compare(op, left, right))
  }

  function VisitValues(items: seq<Expr>): Result<seq<Value>>
    decreases items
  {
    if items == [] then Ok([])
    else
      var v :- Visit(items[0]);
      var first :- AsValue(v);
      var rest :- VisitValues(items[1..]);
      Ok([first] + rest)
  }

  function VisitAny(items: seq<Expr>): Result<seq<Visited>>
    decreases items
  {
    if items == [] then Ok([])
    else
      var first :- Visit(items[0]);
      var rest :- VisitAny(items[1..]);
      Ok([first] + rest)
  }

  function LiteralsOf(values: seq<Value>): (r: Result<seq<Scalar>>)
    ensures r.Err? ==> r.error == UnsupportedPredicate
  {
    if values == [] then Ok([])
    else if values[0].Column? then Err(UnsupportedPredicate)
    else
      var rest :- LiteralsOf(values[1..]);
      Ok([values[0].value] + rest)
  }

  function AllLiterals(vs: seq<Visited>): (r: Result<seq<Scalar>>)
    ensures r.Err? ==> r.error == UnsupportedPredicate
  {
    if vs == [] then Ok([])
    else if vs[0].V? && vs[0].val.Literal? then
      var rest :- AllLiterals(vs[1..]);
      Ok([vs[0].val.value] + rest)
    else Err(UnsupportedPredicate)
  }

  /** The checks of the IN node: non-empty and without NULL. */
  function MakeIn(column: string, values: seq<Scalar>): Result<Predicate> {
    if values == [] || Null in values then Err(UnsupportedPredicate) else Ok(InValues(column, values))
  }

  function Visit(e: Expr): Result<Visited>
    decreases e
  {
    match e
    case Col(name) => MakeColumn(name)
    case Lit(value) => MakeLiteral(value)
    case Opaque(_) => Err(UnsupportedPredicate)
    case ListOf(items) =>
      var vs :- VisitAny(items);
      var values :- AllLiterals(vs);
      Ok(Literals(values))
    case AndE(l, r) =>
      var va :- Visit(l);
      var a :- AsPredicate(va);
      var vb :- Visit(r);
      var b :- AsPredicate(vb);
      Ok(P(And(a, b)))
    case OrE(l, r) =>
      var va :- Visit(l);
      var a :- AsPredicate(va);
      var vb :- Visit(r);
      var b :- AsPredicate(vb);
      Ok(P(Or(a, b)))
    case NotE(x) =>
      var va :- Visit(x);
      var a :- AsPredicate(va);
      Ok(P(Not(a)))
    case CompareE(op, l, r) =>
      var va :- Visit(l);
      var a :- AsValue(va);
      var vb :- Visit(r);
      var b :- AsValue(vb);
      var c :- MakeCompare(op, a, b);
      Ok(P(c))
    case BetweenE(x, lower, upper) =>
      var va :- Visit(x);
      var a :- AsValue(va);
      var vb :- Visit(lower);
      var b :- AsValue(vb);
      var low :- MakeCompare(Ge, a, b);
      var vc :- Visit(upper);
      var c :- AsValue(vc);
      var high :- MakeCompare(Le, a, c);
      Ok(P(And(low, high)))
    case IsInE(x, items) =>
      var v :- Visit(x);
      var column :- AsColumn(v);
      var vs :- VisitValues(items);
      var values :- LiteralsOf(vs);
      var p :- MakeIn(column, values);
      Ok(P(p))
    case IsNullE(x) =>
      var v :- Visit(x);
      var column :- AsColumn(v);
      Ok(P(IsNull(column, false)))
    case NotNullE(x) =>
      var v :- Visit(x);
      var column :- AsColumn(v);
      Ok(P(IsNull(column, true)))
  }

  /** `compile_filter`: no filter or an unsupported one gives no pushdown; an invalid column name
      is the only error that escapes. */
  function CompileFilter(filter: Option<Expr>): Result<Option<Predicate>> {
    match filter
    case None => Ok(None)
    case Some(e) =>
      match Visit(e)
      case Err(UnsupportedPredicate) => Ok(None)
      case Err(error) => Err(error)
      case Ok(v) => if v.P? then Ok(Some(v.pred)) else Ok(None)
  }

  // ----- the supported grammar ---------------------------------------------------

  predicate IsValue(e: Expr) {
    e.Col? || (e.Lit? && AllowedLiteral(e.value))
  }

  predicate IsOperand(e: Expr) {
    IsValue(e) && e != Lit(Null)
  }

  /** Comparisons, BETWEEN, IN and NULL tests over columns and literals, closed under the
      connectives. */
  predicate Supported(e: Expr) {
    match e
    case AndE(l, r) => Supported(l) && Supported(r)
    case OrE(l, r) => Supported(l) && Supported(r)
    case NotE(x) => Supported(x)
    case CompareE(_, l, r) => IsOperand(l) && IsOperand(r)
    case BetweenE(x, lower, upper) => IsOperand(x) && IsOperand(lower) && IsOperand(upper)
    case IsInE(x, items) => x.Col? && items != [] && forall i | i in items :: i.Lit? && IsOperand(i)
    case IsNullE(x) => x.Col?
    case NotNullE(x) => x.Col?
    case _ => false
  }

  function Columns(e: Expr): set<string> {
    match e
    case Col(name) => {name}
    case Lit(_) => {}
    case Opaque(args) => ColumnsOfAll(args)
    case ListOf(items) => ColumnsOfAll(items)
    case AndE(l, r) => Columns(l) + Columns(r)
    case OrE(l, r) => Columns(l) + Columns(r)
    case NotE(x) => Columns(x)
    case CompareE(_, l, r) => Columns(l) + Columns(r)
    case BetweenE(x, lower, upper) => Columns(x) + Columns(lower) + Columns(upper)
    case IsInE(x, items) => Columns(x) + ColumnsOfAll(items)
    case IsNullE(x) => Columns(x)
    case NotNullE(x) => Columns(x)
  }

  function ColumnsOfAll(es: seq<Expr>): set<string> {
    if es == [] then {} else Columns(es[0]) + ColumnsOfAll(es[1..])
  }

  ghost predicate ValidColumns(e: Expr) {
    forall name | name in Columns(e) :: ValidIdentifier(name)
  }

  ghost predicate ValidColumnsOfAll(es: seq<Expr>) {
    forall name | name in ColumnsOfAll(es) :: ValidIdentifier(name)
  }

  /** The operand a value expression denotes. */
  function OperandOf(e: Expr): Value
    requires IsValue(e)
  {
    if e.Col? then Column(e.name) else Literal(e.value)
  }

  lemma {:induction false} ColumnsOfMember(es: seq<Expr>, e: Expr)
    requires e in es
    ensures Columns(e) <= ColumnsOfAll(es)
  {
    if e != es[0] {
      ColumnsOfMember(es[1..], e);
    }
  }

  /** The outcome of a visit, by the shape of the expression alone. */
  ghost predicate VisitsAsExpected(e: Expr) {
    match Visit(e)
    case Err(error) => error == UnsupportedPredicate && !IsValue(e) && !Supported(e)
    case Ok(V(v)) => IsValue(e) && v == OperandOf(e)
    case Ok(P(_)) => Supported(e)
    case Ok(Literals(_)) => e.ListOf?
  }

  lemma {:induction false} VisitOutcome(e: Expr)
    requires ValidColumns(e)
    ensures VisitsAsExpected(e)
    decreases e, 1
  {
    match e
    case Col(_) => assert e.name in Columns(e);
    case Lit(_) =>
    case Opaque(_) =>
    case ListOf(items) => VisitAnyOutcome(items);
    case AndE(l, r) => VisitOutcome(l); VisitOutcome(r);
    case OrE(l, r) => VisitOutcome(l); VisitOutcome(r);
    case NotE(x) => VisitOutcome(x);
    case CompareE(op, l, r) =>
      VisitOutcome(l);
      VisitOutcome(r);
      CompareOutcome(op, l, r);
    case BetweenE(x, lower, upper) =>
      VisitOutcome(x);
      VisitOutcome(lower);
      VisitOutcome(upper);
      BetweenOutcome(x, lower, upper);
    case IsInE(x, items) =>
      VisitOutcome(x);
      VisitItemsOutcome(items);
      IsInOutcome(x, items);
    case IsNullE(x) => VisitOutcome(x);
    case NotNullE(x) => VisitOutcome(x);
  }

  lemma CompareOutcome(op: CompareOp, l: Expr, r: Expr)
    requires VisitsAsExpected(l) && VisitsAsExpected(r)
    ensures VisitsAsExpected(CompareE(op, l, r))
  {
  }

  lemma BetweenOutcome(x: Expr, lower: Expr, upper: Expr)
    requires VisitsAsExpected(x) && VisitsAsExpected(lower) && VisitsAsExpected(upper)
    ensures VisitsAsExpected(BetweenE(x, lower, upper))
  {
  }

  lemma IsInOutcome(x: Expr, items: seq<Expr>)
    requires VisitsAsExpected(x)
    requires InItems(items) == if AllLiteralItems(items) then Ok(LiteralItems(items)) else Err(UnsupportedPredicate)
    ensures VisitsAsExpected(IsInE(x, items))
  {
    NullItems(items);
  }

  lemma {:induction false} VisitAnyOutcome(items: seq<Expr>)
    requires ValidColumnsOfAll(items)
    ensures VisitAny(items).Err? ==> VisitAny(items).error == UnsupportedPredicate
    decreases items, 0
  {
    if items != [] {
      VisitOutcome(items[0]);
      VisitAnyOutcome(items[1..]);
    }
  }

  /** IN items are accepted exactly when all of them are literals. */
  lemma {:induction false} VisitItemsOutcome(items: seq<Expr>)
    requires ValidColumnsOfAll(items)
    ensures var r := InItems(items);
            if AllLiteralItems(items) then r == Ok(LiteralItems(items)) else r == Err(UnsupportedPredicate)
    decreases items, 0
  {
    if items != [] {
      VisitOutcome(items[0]);
      VisitItemsOutcome(items[1..]);
      assert forall i | i in items :: i == items[0] || i in items[1..];
    }
  }

  function InItems(items: seq<Expr>): Result<seq<Scalar>> {
    var vs :- VisitValues(items);
    LiteralsOf(vs)
  }

  predicate AllLiteralItems(items: seq<Expr>) {
    forall i | i in items :: i.Lit? && IsValue(i)
  }

  function LiteralItems(items: seq<Expr>): (r: seq<Scalar>)
    requires AllLiteralItems(items)
    ensures |r| == |items| && forall i | 0 <= i < |items| :: r[i] == items[i].value
  {
    if items == [] then [] else [items[0].value] + LiteralItems(items[1..])
  }

  lemma NullItems(items: seq<Expr>)
    ensures AllLiteralItems(items) ==> (Null in LiteralItems(items) <==> Lit(Null) in items)
  {
    if AllLiteralItems(items) {
      var values := LiteralItems(items);
      forall i | 0 <= i < |items| ensures values[i] == Null <==> items[i] == Lit(Null) {
        assert items[i] in items;
      }
    }
  }

  /** For valid column names a filter is compiled if and only if it lies in the supported grammar,
      and compilation never raises. */
  lemma CompiledIffSupported(e: Expr)
    requires ValidColumns(e)
    ensures CompileFilter(Some(e)).Ok?
    ensures CompileFilter(Some(e)).value.Some? <==> Supported(e)
  {
    VisitOutcome(e);
  }

  // ----- meaning -------------------------------------------------------------------

  /** How Daft evaluates expressions outside the supported grammar. */
  datatype Semantics = Semantics(compare: Comparison, scalar: (Expr, Row) -> Scalar, truth: (Expr, Row) -> Truth)

  function EvalScalar(e: Expr, row: Row, sem: Semantics): Scalar {
    match e
    case Col(name) => Cell(row, name)
    case Lit(value) => value
    case _ => sem.scalar(e, row)
  }

  /** `x IN (ys)` by section 8.4 of SQL-92: true on a match, unknown when only a NULL stands in the
      way of a match, false otherwise. */
  function InTruth(cmp: Comparison, x: Scalar, ys: seq<Scalar>): Truth {
    if exists y | y in ys :: Compare3(cmp, Eq, x, y).True? then True
    else if exists y | y in ys :: Compare3(cmp, Eq, x, y).Unknown? then Unknown
    else False
  }

  function ScalarItems(items: seq<Expr>, row: Row, sem: Semantics): (r: seq<Scalar>)
    ensures |r| == |items| && forall i | 0 <= i < |items| :: r[i] == EvalScalar(items[i], row, sem)
  {
    seq(|items|, i requires 0 <= i < |items| => EvalScalar(items[i], row, sem))
  }

  /** The three-valued value of a Daft filter on a row. */
  function EvalExpr(e: Expr, row: Row, sem: Semantics): Truth {
    match e
    case AndE(l, r) => And3(EvalExpr(l, row, sem), EvalExpr(r, row, sem))
    case OrE(l, r) => Or3(EvalExpr(l, row, sem), EvalExpr(r, row, sem))
    case NotE(x) => Not3(EvalExpr(x, row, sem))
    case CompareE(op, l, r) => Compare3(sem.compare, op, EvalScalar(l, row, sem), EvalScalar(r, row, sem))
    case BetweenE(x, lower, upper) =>
      var v := EvalScalar(x, row, sem);
      And3(Compare3(sem.compare, Ge, v, EvalScalar(lower, row, sem)),
           Compare3(sem.compare, Le, v, EvalScalar(upper, row, sem)))
    case IsInE(x, items) => InTruth(sem.compare, EvalScalar(x, row, sem), ScalarItems(items, row, sem))
    case IsNullE(x) => Known(EvalScalar(x, row, sem).Null?)
    case NotNullE(x) => Known(!EvalScalar(x, row, sem).Null?)
    case _ => sem.truth(e, row)
  }

  /** The disjunction of equalities has the value section 8.4 prescribes. */
  lemma {:induction false} EvalInTruth(cmp: Comparison, x: Scalar, ys: seq<Scalar>)
    ensures EvalIn(cmp, x, ys) == InTruth(cmp, x, ys)
  {
    if ys != [] {
      EvalInTruth(cmp, x, ys[1..]);
      assert forall y | y in ys :: y == ys[0] || y in ys[1..];
      assert ys[0] in ys && forall y | y in ys[1..] :: y in ys;
    }
  }

  lemma LiteralItemsEval(items: seq<Expr>, row: Row, sem: Semantics)
    requires AllLiteralItems(items)
    ensures ScalarItems(items, row, sem) == LiteralItems(items)
  {
    forall i | 0 <= i < |items| ensures items[i].Lit? {
      assert items[i] in items;
    }
  }

  /** The compiled tree has the value of the filter on every row. */
  lemma {:induction false} CompiledMeaning(e: Expr, p: Predicate, row: Row, sem: Semantics)
    requires ValidColumns(e) && Visit(e) == Ok(P(p))
    ensures Eval(p, row, sem.compare) == EvalExpr(e, row, sem)
  {
    VisitOutcome(e);
    match e
    case AndE(l, r) =>
      CompiledMeaning(l, p.first, row, sem);
      CompiledMeaning(r, p.second, row, sem);
    case OrE(l, r) =>
      CompiledMeaning(l, p.first, row, sem);
      CompiledMeaning(r, p.second, row, sem);
    case NotE(x) => CompiledMeaning(x, p.operand, row, sem);
    case CompareE(_, l, r) => VisitOutcome(l); VisitOutcome(r);
    case BetweenE(x, lower, upper) =>
      VisitOutcome(x);
      VisitOutcome(lower);
      VisitOutcome(upper);
      BetweenMeaning(x, lower, upper, p, row, sem);
    case IsInE(x, items) =>
      VisitOutcome(x);
      VisitItemsOutcome(items);
      IsInMeaning(x, items, p, row, sem);
    case IsNullE(x) => VisitOutcome(x);
    case NotNullE(x) => VisitOutcome(x);
  }

  lemma BetweenMeaning(x: Expr, lower: Expr, upper: Expr, p: Predicate, row: Row, sem: Semantics)
    requires VisitsAsExpected(x) && VisitsAsExpected(lower) && VisitsAsExpected(upper)
    requires Visit(BetweenE(x, lower, upper)) == Ok(P(p))
    ensures Eval(p, row, sem.compare) == EvalExpr(BetweenE(x, lower, upper), row, sem)
  {
  }

  lemma IsInMeaning(x: Expr, items: seq<Expr>, p: Predicate, row: Row, sem: Semantics)
    requires VisitsAsExpected(x) && Visit(IsInE(x, items)) == Ok(P(p))
    requires InItems(items) == if AllLiteralItems(items) then Ok(LiteralItems(items)) else Err(UnsupportedPredicate)
    ensures Eval(p, row, sem.compare) == EvalExpr(IsInE(x, items), row, sem)
  {
    LiteralItemsEval(items, row, sem);
    EvalInTruth(sem.compare, Cell(row, p.column), LiteralItems(items));
  }

  lemma {:induction false} LiteralItemsHaveNoColumns(items: seq<Expr>)
    requires AllLiteralItems(items)
    ensures ColumnsOfAll(items) == {}
  {
    if items != [] {
      assert items[0] in items;
      LiteralItemsHaveNoColumns(items[1..]);
    }
  }

  /** The compiled tree references the columns of the filter, is well formed and can be rendered. */
  lemma {:induction false} CompiledShape(e: Expr, p: Predicate)
    requires ValidColumns(e) && Visit(e) == Ok(P(p))
    ensures ReferencedColumns(p) == Columns(e)
    ensures WellFormed(p) && NullFree(p)
  {
    VisitOutcome(e);
    match e
    case AndE(l, r) => CompiledShape(l, p.first); CompiledShape(r, p.second);
    case OrE(l, r) => CompiledShape(l, p.first); CompiledShape(r, p.second);
    case NotE(x) => CompiledShape(x, p.operand);
    case CompareE(_, l, r) =>
      VisitOutcome(l);
      VisitOutcome(r);
      OperandShape(l);
      OperandShape(r);
    case BetweenE(x, lower, upper) =>
      VisitOutcome(x);
      VisitOutcome(lower);
      VisitOutcome(upper);
      OperandShape(x);
      OperandShape(lower);
      OperandShape(upper);
    case IsInE(x, items) =>
      VisitOutcome(x);
      VisitItemsOutcome(items);
      LiteralItemsHaveNoColumns(items);
      OperandShape(x);
      LiteralItemsAllowed(items);
    case IsNullE(x) => VisitOutcome(x); OperandShape(x);
    case NotNullE(x) => VisitOutcome(x); OperandShape(x);
  }

  lemma OperandShape(e: Expr)
    requires ValidColumns(e) && IsValue(e)
    ensures ValueColumns(OperandOf(e)) == Columns(e) && WellFormedValue(OperandOf(e))
    ensures OperandOf(e) == Literal(Null) <==> e == Lit(Null)
  {
    assert e.Col? ==> e.name in Columns(e);
  }

  lemma LiteralItemsAllowed(items: seq<Expr>)
    requires AllLiteralItems(items)
    ensures forall v | v in LiteralItems(items) :: AllowedLiteral(v)
  {
    var values := LiteralItems(items);
    forall i | 0 <= i < |values| ensures AllowedLiteral(values[i]) {
      assert items[i] in items;
    }
  }

  // ----- residual filter columns and limits ---------------------------------------

  /** Daft's own evaluation reads only the columns an expression mentions. */
  ghost predicate Local(sem: Semantics) {
    forall e, row, columns | Columns(e) <= columns ::
      && sem.scalar(e, Project(row, columns)) == sem.scalar(e, row)
      && sem.truth(e, Project(row, columns)) == sem.truth(e, row)
  }

  lemma EvalScalarProjected(e: Expr, row: Row, columns: set<string>, sem: Semantics)
    requires Local(sem) && Columns(e) <= columns
    ensures EvalScalar(e, Project(row, columns), sem) == EvalScalar(e, row, sem)
  {
    assert e.Col? ==> e.name in Columns(e);
  }

  /** A filter keeps its value on rows projected to the columns it mentions. */
  lemma {:induction false} EvalExprProjected(e: Expr, row: Row, columns: set<string>, sem: Semantics)
    requires Local(sem) && Columns(e) <= columns
    ensures EvalExpr(e, Project(row, columns), sem) == EvalExpr(e, row, sem)
  {
    match e
    case AndE(l, r) => EvalExprProjected(l, row, columns, sem); EvalExprProjected(r, row, columns, sem);
    case OrE(l, r) => EvalExprProjected(l, row, columns, sem); EvalExprProjected(r, row, columns, sem);
    case NotE(x) => EvalExprProjected(x, row, columns, sem);
    case CompareE(_, l, r) =>
      EvalScalarProjected(l, row, columns, sem);
      EvalScalarProjected(r, row, columns, sem);
    case BetweenE(x, lower, upper) =>
      EvalScalarProjected(x, row, columns, sem);
      EvalScalarProjected(lower, row, columns, sem);
      EvalScalarProjected(upper, row, columns, sem);
    case IsInE(x, items) =>
      EvalScalarProjected(x, row, columns, sem);
      forall i | 0 <= i < |items|
        ensures EvalScalar(items[i], Project(row, columns), sem) == EvalScalar(items[i], row, sem)
      {
        ColumnsOfMember(items, items[i]);
        EvalScalarProjected(items[i], row, columns, sem);
      }
      assert ScalarItems(items, Project(row, columns), sem) == ScalarItems(items, row, sem);
    case IsNullE(x) => EvalScalarProjected(x, row, columns, sem);
    case NotNullE(x) => EvalScalarProjected(x, row, columns, sem);
    case _ =>
  }

  /** What Daft asks of a scan. */
  datatype Pushdowns = Pushdowns(columns: Option<seq<string>>, filters: Option<Expr>, limit: Option<nat>)

  function FilterColumns(pushdowns: Pushdowns): set<string> {
    if pushdowns.filters.Some? then Columns(pushdowns.filters.value) else {}
  }

  function ProjectedColumns(pushdowns: Pushdowns, schema: seq<string>): seq<string> {
    if pushdowns.columns.Some? then pushdowns.columns.value else schema
  }

  function RequestedColumns(pushdowns: Pushdowns, schema: seq<string>): set<string> {
    var projected := ProjectedColumns(pushdowns, schema);
    (set c | c in projected) + FilterColumns(pushdowns)
  }

  function Selected(schema: seq<string>, requested: set<string>): (r: seq<string>)
    ensures forall c :: c in r <==> c in schema && c in requested
  {
    if schema == [] then []
    else if schema[0] in requested then [schema[0]] + Selected(schema[1..], requested)
    else Selected(schema[1..], requested)
  }

  /** Selected columns keep the order of the schema. */
  lemma {:induction false} SelectedInOrder(schema: seq<string>, requested: set<string>, i: nat, j: nat)
    returns (a: nat, b: nat)
    requires i < j < |Selected(schema, requested)|
    ensures a < b < |schema| && schema[a] == Selected(schema, requested)[i]
            && schema[b] == Selected(schema, requested)[j]
  {
    var rest := Selected(schema[1..], requested);
    if schema[0] !in requested {
      a, b := SelectedInOrder(schema[1..], requested, i, j);
      a, b := a + 1, b + 1;
    } else if i > 0 {
      a, b := SelectedInOrder(schema[1..], requested, i - 1, j - 1);
      a, b := a + 1, b + 1;
    } else {
      assert rest[j - 1] in rest && rest[j - 1] in schema[1..];
      var k :| 0 <= k < |schema[1..]| && schema[1..][k] == rest[j - 1];
      a, b := 0, k + 1;
    }
  }

  /** `required_scan_columns`; an unknown column is refused. */
  function ScanColumns(pushdowns: Pushdowns, schema: seq<string>): Result<seq<string>> {
    var requested := RequestedColumns(pushdowns, schema);
    if forall c | c in requested :: c in schema then Ok(Selected(schema, requested)) else Err(Compatibility)
  }

  /** The columns of the scan: in schema order, and exactly the projected ones plus those the
      residual filter reads. */
  method RequiredScanColumns(pushdowns: Pushdowns, schema: seq<string>) returns (r: Result<seq<string>>)
    ensures r == ScanColumns(pushdowns, schema)
    ensures r.Ok? ==> (set c | c in r.value) == RequestedColumns(pushdowns, schema)
    ensures r.Ok? ==> forall c :: c in r.value <==>
              || (if pushdowns.columns.Some? then c in pushdowns.columns.value else c in schema)
              || (pushdowns.filters.Some? && c in Columns(pushdowns.filters.value))
    ensures r.Err? <==> exists c :: c in RequestedColumns(pushdowns, schema) && c !in schema
  {
    var projected := ProjectedColumns(pushdowns, schema);
    var requested := set c | c in projected;
    requested := requested + FilterColumns(pushdowns);
    var unknown := requested - set c | c in schema;
    if unknown != {} {
      var c :| c in unknown;
      assert c in requested && c !in schema;
      return Err(Compatibility);
    }
    assert forall c | c in requested :: c !in unknown;
    r := Ok(Selected(schema, requested));
  }

  /** The limit is pushed only when no residual filter can drop rows afterwards; zero always is. */
  function SafeDatabaseLimit(pushdowns: Pushdowns, compiled: Option<Predicate>): Option<nat> {
    if pushdowns.limit == None || pushdowns.limit == Some(0) then pushdowns.limit
    else if pushdowns.filters.None? || compiled.Some? then pushdowns.limit
    else None
  }

  /** The limit is pushed exactly when it is zero, or no filter is left to Daft: there is none, or it lies
      in the supported grammar. */
  lemma LimitPushedIff(pushdowns: Pushdowns)
    requires pushdowns.filters.Some? ==> ValidColumns(pushdowns.filters.value)
    ensures CompileFilter(pushdowns.filters).Ok?
    ensures var pushed := SafeDatabaseLimit(pushdowns, CompileFilter(pushdowns.filters).value);
            if pushdowns.limit == Some(0) || pushdowns.filters.None? || Supported(pushdowns.filters.value)
            then pushed == pushdowns.limit else pushed == None
  {
    if pushdowns.filters.Some? {
      CompiledIffSupported(pushdowns.filters.value);
    }
  }

  /** A visit that succeeds has checked every column name it met. */
  lemma {:induction false} VisitedColumnsValid(e: Expr)
    requires Visit(e).Ok?
    ensures ValidColumns(e)
    decreases e, 1
  {
    match e
    case Col(_) =>
    case Lit(_) =>
    case ListOf(items) => AllVisitedColumnsValid(items);
    case AndE(l, r) => VisitedColumnsValid(l); VisitedColumnsValid(r);
    case OrE(l, r) => VisitedColumnsValid(l); VisitedColumnsValid(r);
    case NotE(x) => VisitedColumnsValid(x);
    case CompareE(_, l, r) => VisitedColumnsValid(l); VisitedColumnsValid(r);
    case BetweenE(x, lower, upper) =>
      VisitedColumnsValid(x);
      VisitedColumnsValid(lower);
      VisitedColumnsValid(upper);
    case IsInE(x, items) => VisitedColumnsValid(x); ValuesVisitedColumnsValid(items);
    case IsNullE(x) => VisitedColumnsValid(x);
    case NotNullE(x) => VisitedColumnsValid(x);
  }

  lemma {:induction false} AllVisitedColumnsValid(items: seq<Expr>)
    requires VisitAny(items).Ok?
    ensures ValidColumnsOfAll(items)
    decreases items, 0
  {
    if items != [] {
      VisitedColumnsValid(items[0]);
      AllVisitedColumnsValid(items[1..]);
    }
  }

  lemma {:induction false} ValuesVisitedColumnsValid(items: seq<Expr>)
    requires VisitValues(items).Ok?
    ensures ValidColumnsOfAll(items)
    decreases items, 0
  {
    if items != [] {
      VisitedColumnsValid(items[0]);
      ValuesVisitedColumnsValid(items[1..]);
    }
  }

  /** A filter that was pushed down means the same in the database and in Daft. */
  lemma PushedFilterMeaning(e: Expr, p: Predicate, row: Row, sem: Semantics)
    requires CompileFilter(Some(e)) == Ok(Some(p))
    ensures Eval(p, row, sem.compare) == EvalExpr(e, row, sem)
  {
    VisitedColumnsValid(e);
    CompiledMeaning(e, p, row, sem);
  }
}
