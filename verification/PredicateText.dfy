/** Rendering of predicates to parenthesised SQL with driver placeholders,
    and a parser that reads the text back. */
module PredicateText {
  import opened Wrappers
  import opened PredicateIr
  import opened Identifiers

  /** ClickHouse binds by generated name, Doris over MySQL by position. */
  datatype Style = Named | Positional

  const PARAMETER_PREFIX := "__daft_olap_"

  function Digits(n: nat): (r: string)
    ensures r != [] && forall c | c in r :: '0' <= c <= '9'
  {
    if n < 10 then [('0' as int + n) as char] else Digits(n / 10) + [('0' as int + n % 10) as char]
  }

  function ParameterName(n: nat): string {
    PARAMETER_PREFIX + Digits(n)
  }

  function Placeholder(name: string): string {
    "%(" + name + ")s"
  }

  /** The marker of the n-th parameter. */
  function Marker(style: Style, n: nat): string {
    if style.Named? then Placeholder(ParameterName(n)) else "%s"
  }

  function OpText(op: CompareOp): string {
    match op
    case Eq => "=" case Ne => "!=" case Lt => "<" case Le => "<=" case Gt => ">" case Ge => ">="
  }

  /** The literals of a predicate in rendering order. */
  function ValueSlots(v: Value): seq<Scalar> {
    if v.Literal? then [v.value] else []
  }

  function Slots(p: Predicate): seq<Scalar> {
    match p
    case Compare(_, l, r) => ValueSlots(l) + ValueSlots(r)
    case And(a, b) => Slots(a) + Slots(b)
    case Or(a, b) => Slots(a) + Slots(b)
    case Not(a) => Slots(a)
    case IsNull(_, _) => []
    case InValues(_, values) => values
  }

  function RenderValue(v: Value, style: Style, n: nat): string {
    if v.Column? then Quote(v.name) else Marker(style, n)
  }

  /** Markers `n .. n + k`, separated by commas. */
  function MarkerList(k: nat, style: Style, n: nat): string {
    if k == 0 then "" else if k == 1 then Marker(style, n)
    else Marker(style, n) + ", " + MarkerList(k - 1, style, n + 1)
  }

  function Infix(left: string, infix: string, right: string): string {
    "(" + left + infix + right + ")"
  }

  function NotText(operand: string): string {
    "(NOT " + operand + ")"
  }

  function NullTest(column: string, negated: bool): string {
    "(" + Quote(column) + (if negated then " IS NOT NULL)" else " IS NULL)")
  }

  function InText(column: string, items: string): string {
    "(" + Quote(column) + " IN (" + items + "))"
  }

  /** The text of `p` when `n` parameters were bound before it. */
  function Render(p: Predicate, style: Style, n: nat): string {
    match p
    case Compare(op, l, r) =>
      Infix(RenderValue(l, style, n), " " + OpText(op) + " ", RenderValue(r, style, n + |ValueSlots(l)|))
    case And(a, b) => Infix(Render(a, style, n), " AND ", Render(b, style, n + |Slots(a)|))
    case Or(a, b) => Infix(Render(a, style, n), " OR ", Render(b, style, n + |Slots(a)|))
    case Not(a) => NotText(Render(a, style, n))
    case IsNull(c, negated) => NullTest(c, negated)
    case InValues(c, values) => InText(c, MarkerList(|values|, style, n))
  }

  // ----- the renderer of the source --------------------------------------------------

  /** `_Renderer`: appends one parameter per literal. */
  class Renderer {
    const style: Style
    var parameters: seq<Scalar>

    constructor (style: Style)
      ensures this.style == style && parameters == []
    {
      this.style := style;
      parameters := [];
    }

    /** A NULL literal is refused. */
    method RenderOperand(v: Value) returns (r: Result<string>)
      modifies this
      ensures r.Ok? <==> v != Literal(Null)
      ensures r.Ok? ==>
              r.value == RenderValue(v, style, |old(parameters)|)
              && parameters == old(parameters) + ValueSlots(v)
      ensures r.Err? ==> r.error == UnsupportedPredicate
    {
      if v.Column? {
        return Ok(Quote(v.name));
      }
      if v.value.Null? {
        return Err(UnsupportedPredicate);
      }
      r := Ok(Marker(style, |parameters|));
      parameters := parameters + [v.value];
    }

    method RenderItems(values: seq<Scalar>) returns (text: string)
      requires Null !in values
      modifies this
      ensures text == MarkerList(|values|, style, |old(parameters)|)
      ensures parameters == old(parameters) + values
    {
      if values == [] {
        return "";
      }
      var first := RenderOperand(Literal(values[0]));
      if |values| == 1 {
        return first.value;
      }
      var rest := RenderItems(values[1..]);
      text := first.value + ", " + rest;
    }

    method RenderOperands(left: Value, right: Value) returns (r: Result<(string, string)>)
      modifies this
      ensures r.Ok? <==> left != Literal(Null) && right != Literal(Null)
      ensures r.Ok? ==> r.value.0 == RenderValue(left, style, |old(parameters)|)
      ensures r.Ok? ==> r.value.1 == RenderValue(right, style, |old(parameters)| + |ValueSlots(left)|)
      ensures r.Ok? ==> parameters == old(parameters) + ValueSlots(left) + ValueSlots(right)
      ensures r.Err? ==> r.error == UnsupportedPredicate
    {
      var l := RenderOperand(left);
      if l.Err? { return Err(l.error); }
      var s := RenderOperand(right);
      if s.Err? { return Err(s.error); }
      r := Ok((l.value, s.value));
    }

    method RenderBoth(ghost p: Predicate, a: Predicate, b: Predicate) returns (r: Result<(string, string)>)
      requires (p == And(a, b) || p == Or(a, b)) && WellFormed(a) && WellFormed(b)
      modifies this
      ensures r.Ok? <==> NullFree(a) && NullFree(b)
      ensures r.Ok? ==> r.value.0 == Render(a, style, |old(parameters)|)
      ensures r.Ok? ==> r.value.1 == Render(b, style, |old(parameters)| + |Slots(a)|)
      ensures r.Ok? ==> parameters == old(parameters) + Slots(a) + Slots(b)
      ensures r.Err? ==> r.error == UnsupportedPredicate
      decreases p, 0
    {
      var l := RenderPredicate(a);
      if l.Err? { return Err(l.error); }
      var s := RenderPredicate(b);
      if s.Err? { return Err(s.error); }
      r := Ok((l.value, s.value));
    }

    /** Succeeds exactly on trees without NULL literals, and then appends their literals in order. */
    method RenderPredicate(p: Predicate) returns (r: Result<string>)
      requires WellFormed(p)
      modifies this
      ensures r.Ok? <==> NullFree(p)
      ensures r.Ok? ==> r.value == Render(p, style, |old(parameters)|) && parameters == old(parameters) + Slots(p)
      ensures r.Err? ==> r.error == UnsupportedPredicate
      decreases p, 1
    {
      hide Infix, NotText, NullTest, InText, MarkerList, RenderValue;
      match p
      case Compare(op, left, right) =>
        var both := RenderOperands(left, right);
        if both.Err? { return Err(both.error); }
        r := Ok(Infix(both.value.0, " " + OpText(op) + " ", both.value.1));
        ConcatAssociates(old(parameters), ValueSlots(left), ValueSlots(right));
      case And(a, b) =>
        var both := RenderBoth(p, a, b);
        if both.Err? { return Err(both.error); }
        r := Ok(Infix(both.value.0, " AND ", both.value.1));
        ConcatAssociates(old(parameters), Slots(a), Slots(b));
      case Or(a, b) =>
        var both := RenderBoth(p, a, b);
        if both.Err? { return Err(both.error); }
        r := Ok(Infix(both.value.0, " OR ", both.value.1));
        ConcatAssociates(old(parameters), Slots(a), Slots(b));
      case Not(a) =>
        var l := RenderPredicate(a);
        if l.Err? { return l; }
        r := Ok(NotText(l.value));
      case IsNull(c, negated) =>
        r := Ok(NullTest(c, negated));
      case InValues(c, values) =>
        var items := RenderItems(values);
        r := Ok(InText(c, items));
    }
  }

  lemma ConcatAssociates(a: seq<Scalar>, b: seq<Scalar>, c: seq<Scalar>)
    ensures a + b + c == a + (b + c)
  {
  }

  // ----- the parser ---------------------------------------------------------------------

  /** Parameters as a driver receives them: by name, or what is left of the positional list. */
  datatype Bound = ByName(values: map<string, Scalar>) | InOrder(rest: seq<Scalar>)

  datatype Read<T> = Read(item: T, tail: string, bound: Bound)

  /** The text after `prefix`, if `s` starts with it. */
  function After(s: string, prefix: string): (r: Option<string>)
    ensures r.Some? ==> |r.value| == |s| - |prefix|
  {
    if prefix <= s then Some(s[|prefix|..]) else None
  }

  lemma AfterPrefix(prefix: string, rest: string)
    ensures After(prefix + rest, prefix) == Some(rest)
  {
  }

  /** Up to the next `)`: the name and the text after the parenthesis. */
  function ReadName(s: string): (r: Option<(string, string)>)
    ensures r.Some? ==> |r.value.1| < |s|
  {
    if s == [] then None
    else if s[0] == ')' then Some(("", s[1..]))
    else Consing(s[0], ReadName(s[1..]))
  }

  function ReadMarker(s: string, bound: Bound): (r: Option<Read<Scalar>>)
    ensures r.Some? ==> |r.value.tail| < |s|
  {
    match bound
    case InOrder(rest) =>
      var t := After(s, "%s");
      if t.Some? && rest != [] then Some(Read(rest[0], t.value, InOrder(rest[1..]))) else None
    case ByName(values) =>
      var t := After(s, "%(");
      if t.None? then None
      else
        var n := ReadName(t.value);
        if n.None? || n.value.0 !in values then None
        else
          var u := After(n.value.1, "s");
          if u.Some? then Some(Read(values[n.value.0], u.value, bound)) else None
  }

  function ReadOperand(s: string, bound: Bound): (r: Option<Read<Value>>)
    ensures r.Some? ==> |r.value.tail| < |s|
  {
    if s != [] && s[0] == '`' then
      var q := ReadQuoted(s);
      if q.Some? then Some(Read(Column(q.value.0), q.value.1, bound)) else None
    else
      var m := ReadMarker(s, bound);
      if m.Some? then Some(Read(Literal(m.value.item), m.value.tail, m.value.bound)) else None
  }

  /** An operator and the blank after it. */
  function ReadOp(s: string): (r: Option<(CompareOp, string)>)
    ensures r.Some? ==> |r.value.1| < |s|
  {
    if "= " <= s then Some((Eq, s[2..]))
    else if "!= " <= s then Some((Ne, s[3..]))
    else if "< " <= s then Some((Lt, s[2..]))
    else if "<= " <= s then Some((Le, s[3..]))
    else if "> " <= s then Some((Gt, s[2..]))
    else if ">= " <= s then Some((Ge, s[3..]))
    else None
  }

  /** Markers separated by commas, up to the closing `))`. */
  function ReadItems(s: string, bound: Bound): (r: Option<Read<seq<Scalar>>>)
    ensures r.Some? ==> |r.value.tail| < |s|
    decreases |s|
  {
    var m := ReadMarker(s, bound);
    if m.None? || m.value.tail == [] then None
    else if m.value.tail[0] == ',' then
      var more := After(m.value.tail, ", ");
      if more.None? then None
      else
        var rest := ReadItems(more.value, m.value.bound);
        if rest.Some? then Some(Read([m.value.item] + rest.value.item, rest.value.tail, rest.value.bound)) else None
    else
      var end := After(m.value.tail, "))");
      if end.Some? then Some(Read([m.value.item], end.value, m.value.bound)) else None
  }

  /** ` IS NULL)` or ` IS NOT NULL)`. */
  function ReadNullTest(left: Read<Value>): (r: Option<Read<Predicate>>)
    requires left.item.Column?
    ensures r.Some? ==> |r.value.tail| < |left.tail|
  {
    var negated := |left.tail| >= 6 && left.tail[5] == 'O';
    var end := After(left.tail, if negated then " IS NOT NULL)" else " IS NULL)");
    if end.Some? then Some(Read(IsNull(left.item.name, negated), end.value, left.bound)) else None
  }

  function ReadInList(left: Read<Value>): (r: Option<Read<Predicate>>)
    requires left.item.Column?
    ensures r.Some? ==> |r.value.tail| < |left.tail|
  {
    var t := After(left.tail, " IN (");
    if t.None? then None
    else
      var items := ReadItems(t.value, left.bound);
      if items.Some? then Some(Read(InValues(left.item.name, items.value.item), items.value.tail, items.value.bound))
        else None
  }

  function ReadComparison(left: Read<Value>): (r: Option<Read<Predicate>>)
    ensures r.Some? ==> |r.value.tail| < |left.tail|
  {
    var t := After(left.tail, " ");
    if t.None? then None
    else
      var op := ReadOp(t.value);
      if op.None? then None
      else
        var right := ReadOperand(op.value.1, left.bound);
        if right.None? then None
        else
          var end := After(right.value.tail, ")");
          if end.Some? then Some(Read(Compare(op.value.0, left.item, right.value.item), end.value, right.value.bound))
            else None
  }

  /** The rest of a NULL test, IN list or comparison after its first operand. */
  function ReadRelation(left: Read<Value>): (r: Option<Read<Predicate>>)
    ensures r.Some? ==> |r.value.tail| < |left.tail|
  {
    if left.item.Column? && |left.tail| >= 3 && left.tail[1] == 'I' then
      if left.tail[2] == 'S' then ReadNullTest(left) else ReadInList(left)
    else ReadComparison(left)
  }

  /** ` AND ` or ` OR `: whether it is the former, and the text after it. */
  function ReadConnective(s: string): (r: Option<(bool, string)>)
    ensures r.Some? ==> |r.value.1| < |s|
  {
    var conjunction := |s| >= 2 && s[1] == 'A';
    var t := After(s, if conjunction then " AND " else " OR ");
    if t.Some? then Some((conjunction, t.value)) else None
  }

  /** A parser for the parenthesised grammar. */
  function ReadPredicate(s: string, bound: Bound): (r: Option<Read<Predicate>>)
    ensures r.Some? ==> |r.value.tail| < |s|
    decreases |s|
  {
    if |s| < 2 || s[0] != '(' then None
    else if s[1] == 'N' then
      var t := After(s, "(NOT ");
      if t.None? then None
      else
        var a := ReadPredicate(t.value, bound);
        if a.None? then None
        else
          var end := After(a.value.tail, ")");
          if end.Some? then Some(Read(Not(a.value.item), end.value, a.value.bound)) else None
    else if s[1] == '(' then
      var a := ReadPredicate(s[1..], bound);
      if a.None? then None
      else
        var infix := ReadConnective(a.value.tail);
        if infix.None? then None
        else
          var b := ReadPredicate(infix.value.1, a.value.bound);
          if b.None? then None
          else
            var end := After(b.value.tail, ")");
            if end.None? then None
            else Some(Read(if infix.value.0 then And(a.value.item, b.value.item) else Or(a.value.item, b.value.item),
              end.value, b.value.bound))
    else
      var left := ReadOperand(s[1..], bound);
      if left.Some? then ReadRelation(left.value) else None
  }

  // ----- reading back what was rendered -------------------------------------------------

  /** `bound` supplies `values` for the parameters numbered from `n`. */
  ghost predicate Supplies(bound: Bound, style: Style, n: nat, values: seq<Scalar>) {
    match style
    case Positional => bound.InOrder? && values <= bound.rest
    case Named => bound.ByName? && forall i | 0 <= i < |values| :: HasParameter(bound.values, n + i, values[i])
  }

  ghost predicate HasParameter(values: map<string, Scalar>, k: nat, v: Scalar) {
    ParameterName(k) in values && values[ParameterName(k)] == v
  }

  /** What is left after `k` parameters. */
  function Advance(bound: Bound, k: nat): Bound {
    if bound.InOrder? && k <= |bound.rest| then InOrder(bound.rest[k..]) else bound
  }

  lemma AdvanceNone(bound: Bound)
    ensures Advance(bound, 0) == bound
  {
  }

  lemma SuppliesSplit(bound: Bound, style: Style, n: nat, a: seq<Scalar>, b: seq<Scalar>)
    requires Supplies(bound, style, n, a + b)
    ensures Supplies(bound, style, n, a) && Supplies(Advance(bound, |a|), style, n + |a|, b)
    ensures Advance(Advance(bound, |a|), |b|) == Advance(bound, |a + b|)
  {
    if style.Named? {
      forall i | 0 <= i < |a| ensures HasParameter(bound.values, n + i, a[i]) {
        assert HasParameter(bound.values, n + i, (a + b)[i]);
      }
      forall i | 0 <= i < |b| ensures HasParameter(bound.values, n + |a| + i, b[i]) {
        assert HasParameter(bound.values, n + (|a| + i), (a + b)[|a| + i]);
      }
    } else {
      assert a + b <= bound.rest;
      assert bound.rest == a + b + bound.rest[|a| + |b|..];
      assert bound.rest[|a|..] == b + bound.rest[|a| + |b|..];
    }
  }

  lemma {:induction false} ReadNameInverts(name: string, rest: string)
    requires ')' !in name
    ensures ReadName(name + ")" + rest) == Some((name, rest))
  {
    var text := name + ")" + rest;
    if name == [] {
      assert text == ")" + rest;
      assert text[1..] == rest;
    } else {
      assert text[1..] == name[1..] + ")" + rest;
      ReadNameInverts(name[1..], rest);
      assert [name[0]] + name[1..] == name;
    }
  }

  lemma ParameterNamePlain(n: nat)
    ensures ')' !in ParameterName(n) && '%' !in ParameterName(n)
  {
  }

  lemma ReadMarkerInverts(style: Style, n: nat, v: Scalar, bound: Bound, rest: string)
    requires Supplies(bound, style, n, [v])
    ensures ReadMarker(Marker(style, n) + rest, bound) == Some(Read(v, rest, Advance(bound, 1)))
  {
    if style.Positional? {
      AfterPrefix("%s", rest);
    } else {
      assert HasParameter(bound.values, n + 0, [v][0]);
      var name := ParameterName(n);
      ParameterNamePlain(n);
      assert Marker(style, n) + rest == "%(" + (name + ")" + ("s" + rest));
      AfterPrefix("%(", name + ")" + ("s" + rest));
      ReadNameInverts(name, "s" + rest);
      AfterPrefix("s", rest);
    }
  }

  lemma MarkerStart(style: Style, n: nat)
    ensures Marker(style, n) != [] && Marker(style, n)[0] == '%'
  {
  }

  lemma ReadOperandInverts(v: Value, style: Style, n: nat, bound: Bound, rest: string)
    requires Supplies(bound, style, n, ValueSlots(v)) && rest != [] && rest[0] != '`'
    ensures ReadOperand(RenderValue(v, style, n) + rest, bound) == Some(Read(v, rest, Advance(bound, |ValueSlots(v)|)))
  {
    if v.Column? {
      QuoteInverts(v.name, rest);
      assert (Quote(v.name) + rest)[0] == '`';
    } else {
      MarkerStart(style, n);
      assert (Marker(style, n) + rest)[0] == '%';
      ReadMarkerInverts(style, n, v.value, bound, rest);
    }
  }

  lemma ReadOpInverts(op: CompareOp, rest: string)
    ensures ReadOp(OpText(op) + " " + rest) == Some((op, rest))
  {
    var text := OpText(op) + " " + rest;
    var k := |OpText(op)|;
    assert text[..k] == OpText(op) && text[k] == ' ' && text[k + 1..] == rest;
    assert text[0] == OpText(op)[0];
    assert k == 2 ==> text[1] == '=' && text[2] == ' ';
    assert k == 1 ==> text[1] == ' ';
  }

  lemma {:induction false} ReadItemsInverts(values: seq<Scalar>, style: Style, n: nat, bound: Bound, rest: string)
    requires values != [] && Supplies(bound, style, n, values)
    ensures ReadItems(MarkerList(|values|, style, n) + ("))" + rest), bound) ==
            Some(Read(values, rest, Advance(bound, |values|)))
    decreases |values|
  {
    hide ReadMarker, Marker, After, Advance;
    var end := "))" + rest;
    assert values == [values[0]] + values[1..];
    SuppliesSplit(bound, style, n, [values[0]], values[1..]);
    if |values| == 1 {
      ReadMarkerInverts(style, n, values[0], bound, end);
      AfterPrefix("))", rest);
      assert values == [values[0]];
    } else {
      var more := MarkerList(|values| - 1, style, n + 1) + end;
      assert MarkerList(|values|, style, n) + end == Marker(style, n) + (", " + more);
      ReadMarkerInverts(style, n, values[0], bound, ", " + more);
      AfterPrefix(", ", more);
      ReadItemsInverts(values[1..], style, n + 1, Advance(bound, 1), rest);
    }
  }

  // Parser steps, without any concrete text.

  lemma StepNot(s: string, inner: string, bound: Bound, a: Read<Predicate>, end: string)
    requires |s| >= 2 && s[0] == '(' && s[1] == 'N' && After(s, "(NOT ") == Some(inner)
    requires ReadPredicate(inner, bound) == Some(a) && After(a.tail, ")") == Some(end)
    ensures ReadPredicate(s, bound) == Some(Read(Not(a.item), end, a.bound))
  {
  }

  lemma StepConnective(s: string, bound: Bound, a: Read<Predicate>, infix: (bool, string), b: Read<Predicate>,
                       end: string)
    requires |s| >= 2 && s[0] == '(' && s[1] == '('
    requires ReadPredicate(s[1..], bound) == Some(a) && ReadConnective(a.tail) == Some(infix)
    requires ReadPredicate(infix.1, a.bound) == Some(b) && After(b.tail, ")") == Some(end)
    ensures ReadPredicate(s, bound) ==
            Some(Read(if infix.0 then And(a.item, b.item) else Or(a.item, b.item), end, b.bound))
  {
  }

  lemma StepRelation(s: string, bound: Bound, left: Read<Value>)
    requires |s| >= 2 && s[0] == '(' && s[1] != 'N' && s[1] != '('
    requires ReadOperand(s[1..], bound) == Some(left)
    ensures ReadPredicate(s, bound) == ReadRelation(left)
  {
  }

  // Text shapes, without any parsing.

  lemma InfixShape(x: string, infix: string, y: string, rest: string)
    ensures var s := Infix(x, infix, y) + rest;
            s[0] == '(' && s[1..] == x + (infix + (y + (")" + rest)))
  {
  }

  lemma NotShape(x: string, rest: string)
    ensures var s := NotText(x) + rest;
            |s| >= 2 && s[0] == '(' && s[1] == 'N' && After(s, "(NOT ") == Some(x + (")" + rest))
  {
    assert NotText(x) + rest == "(NOT " + (x + (")" + rest));
    AfterPrefix("(NOT ", x + (")" + rest));
  }

  lemma QuotedShape(c: string, tail: string)
    ensures var s := "(" + Quote(c) + tail;
            |s| >= 2 && s[0] == '(' && s[1] == '`' && s[1..] == Quote(c) + tail
  {
  }

  // Shapes and steps together.

  lemma ReadCompareInverts(op: CompareOp, l: Value, r: Value, style: Style, n: nat, bound: Bound, rest: string)
    requires Supplies(bound, style, n, ValueSlots(l) + ValueSlots(r))
    ensures ReadPredicate(Render(Compare(op, l, r), style, n) + rest, bound) ==
            Some(Read(Compare(op, l, r), rest, Advance(bound, |ValueSlots(l) + ValueSlots(r)|)))
  {
    hide ReadPredicate, ReadOperand, ReadRelation, RenderValue, Advance;
    var x, y := RenderValue(l, style, n), RenderValue(r, style, n + |ValueSlots(l)|);
    var infix := " " + OpText(op) + " ";
    var s := Infix(x, infix, y) + rest;
    var tail := infix + (y + (")" + rest));
    SuppliesSplit(bound, style, n, ValueSlots(l), ValueSlots(r));
    InfixShape(x, infix, y, rest);
    OperandStart(l, style, n);
    ReadOperandInverts(l, style, n, bound, tail);
    StepRelation(s, bound, Read(l, tail, Advance(bound, |ValueSlots(l)|)));
    ReadComparisonInverts(op, l, r, style, n + |ValueSlots(l)|, Advance(bound, |ValueSlots(l)|), rest);
  }

  lemma OperandStart(v: Value, style: Style, n: nat)
    ensures RenderValue(v, style, n) != [] && (RenderValue(v, style, n)[0] == '`' || RenderValue(v, style, n)[0] == '%')
  {
    if v.Literal? {
      MarkerStart(style, n);
    }
  }

  lemma ReadComparisonInverts(op: CompareOp, l: Value, r: Value, style: Style, n: nat, bound: Bound, rest: string)
    requires Supplies(bound, style, n, ValueSlots(r))
    ensures var tail := " " + OpText(op) + " " + (RenderValue(r, style, n) + (")" + rest));
            ReadRelation(Read(l, tail, bound)) == Some(Read(Compare(op, l, r), rest, Advance(bound, |ValueSlots(r)|)))
  {
    hide ReadOperand, ReadOp, After, RenderValue, OpText;
    var y := RenderValue(r, style, n) + (")" + rest);
    var tail := " " + OpText(op) + " " + y;
    assert tail == " " + (OpText(op) + " " + y);
    AfterPrefix(" ", OpText(op) + " " + y);
    ReadOpInverts(op, y);
    ReadOperandInverts(r, style, n, bound, ")" + rest);
    AfterPrefix(")", rest);
    OpStart(op);
    assert tail[1] == OpText(op)[0];
  }

  lemma OpStart(op: CompareOp)
    ensures OpText(op) != [] && OpText(op)[0] != 'I'
  {
  }

  lemma ReadNullTestInverts(c: string, negated: bool, bound: Bound, rest: string)
    ensures ReadPredicate(NullTest(c, negated) + rest, bound) == Some(Read(IsNull(c, negated), rest, bound))
  {
    hide ReadPredicate, ReadQuoted, Quote;
    var words := if negated then " IS NOT NULL)" else " IS NULL)";
    var tail := words + rest;
    var s := NullTest(c, negated) + rest;
    assert s == "(" + Quote(c) + tail;
    QuotedShape(c, tail);
    QuoteInverts(c, tail);
    StepRelation(s, bound, Read(Column(c), tail, bound));
    assert tail[1] == words[1] && tail[2] == words[2] && tail[5] == words[5];
    AfterPrefix(words, rest);
  }

  lemma ReadInInverts(c: string, values: seq<Scalar>, style: Style, n: nat, bound: Bound, rest: string)
    requires values != [] && Supplies(bound, style, n, values)
    ensures ReadPredicate(InText(c, MarkerList(|values|, style, n)) + rest, bound) ==
            Some(Read(InValues(c, values), rest, Advance(bound, |values|)))
  {
    hide ReadPredicate, ReadQuoted, Quote, ReadItems, MarkerList;
    var items := MarkerList(|values|, style, n) + ("))" + rest);
    var tail := " IN (" + items;
    var s := InText(c, MarkerList(|values|, style, n)) + rest;
    assert s == "(" + Quote(c) + tail;
    QuotedShape(c, tail);
    QuoteInverts(c, tail);
    StepRelation(s, bound, Read(Column(c), tail, bound));
    assert tail[1] == 'I' && tail[2] == 'N';
    AfterPrefix(" IN (", items);
    ReadItemsInverts(values, style, n, bound, rest);
  }

  lemma RenderStart(p: Predicate, style: Style, n: nat)
    ensures Render(p, style, n) != [] && Render(p, style, n)[0] == '('
  {
  }

  lemma ReadConnectiveInverts(conjunction: bool, rest: string)
    ensures ReadConnective(Word(conjunction) + rest) == Some((conjunction, rest))
  {
    var word := Word(conjunction);
    assert (word + rest)[1] == word[1];
    AfterPrefix(word, rest);
  }

  function Word(conjunction: bool): string {
    if conjunction then " AND " else " OR "
  }

  lemma NotStep(x: string, bound: Bound, a: Read<Predicate>, rest: string)
    requires a.tail == ")" + rest && ReadPredicate(x + a.tail, bound) == Some(a)
    ensures ReadPredicate(NotText(x) + rest, bound) == Some(Read(Not(a.item), rest, a.bound))
  {
    hide ReadPredicate, NotText;
    NotShape(x, rest);
    AfterPrefix(")", rest);
    StepNot(NotText(x) + rest, x + a.tail, bound, a, rest);
  }

  lemma PairStep(conjunction: bool, x: string, y: string, bound: Bound, a: Read<Predicate>, b: Read<Predicate>,
                 rest: string)
    requires x != [] && x[0] == '('
    requires a.tail == Word(conjunction) + (y + (")" + rest)) && ReadPredicate(x + a.tail, bound) == Some(a)
    requires b.tail == ")" + rest && ReadPredicate(y + b.tail, a.bound) == Some(b)
    ensures ReadPredicate(Infix(x, Word(conjunction), y) + rest, bound) ==
            Some(Read(if conjunction then And(a.item, b.item) else Or(a.item, b.item), rest, b.bound))
  {
    InfixShape(x, Word(conjunction), y, rest);
    ReadConnectiveInverts(conjunction, y + (")" + rest));
    AfterPrefix(")", rest);
    StepConnective(Infix(x, Word(conjunction), y) + rest, bound, a, (conjunction, y + (")" + rest)), b, rest);
  }

  lemma {:induction false} ReadPairInverts(p: Predicate, conjunction: bool, a: Predicate, b: Predicate,
                                           style: Style, n: nat, bound: Bound, rest: string)
    requires p == if conjunction then And(a, b) else Or(a, b)
    requires WellFormed(a) && WellFormed(b) && Supplies(bound, style, n, Slots(a) + Slots(b))
    ensures ReadPredicate(Infix(Render(a, style, n), Word(conjunction), Render(b, style, n + |Slots(a)|)) + rest,
            bound) ==
            Some(Read(p, rest, Advance(bound, |Slots(a) + Slots(b)|)))
    decreases p, 0
  {
    hide ReadPredicate, Render;
    var x, y := Render(a, style, n), Render(b, style, n + |Slots(a)|);
    var mid := Advance(bound, |Slots(a)|);
    SuppliesSplit(bound, style, n, Slots(a), Slots(b));
    RenderStart(a, style, n);
    ReadPredicateInverts(a, style, n, bound, Word(conjunction) + (y + (")" + rest)));
    ReadPredicateInverts(b, style, n + |Slots(a)|, mid, ")" + rest);
    PairStep(conjunction, x, y, bound, Read(a, Word(conjunction) + (y + (")" + rest)), mid),
             Read(b, ")" + rest, Advance(mid, |Slots(b)|)), rest);
  }

  /** A rendered predicate can be read back exactly, whatever follows it and whatever the column
      names contain. */
  lemma {:induction false} ReadPredicateInverts(p: Predicate, style: Style, n: nat, bound: Bound, rest: string)
    requires WellFormed(p) && Supplies(bound, style, n, Slots(p))
    ensures ReadPredicate(Render(p, style, n) + rest, bound) == Some(Read(p, rest, Advance(bound, |Slots(p)|)))
    decreases p, 1
  {
    hide ReadPredicate, Infix, NotText, NullTest, InText, MarkerList, RenderValue, Advance, Supplies;
    match p
    case Compare(op, l, r) => ReadCompareInverts(op, l, r, style, n, bound, rest);
    case IsNull(c, negated) => ReadNullTestInverts(c, negated, bound, rest); AdvanceNone(bound);
    case InValues(c, values) => ReadInInverts(c, values, style, n, bound, rest);
    case Not(a) =>
      ReadPredicateInverts(a, style, n, bound, ")" + rest);
      NotStep(Render(a, style, n), bound, Read(a, ")" + rest, Advance(bound, |Slots(a)|)), rest);
    case And(a, b) => ReadPairInverts(p, true, a, b, style, n, bound, rest);
    case Or(a, b) => ReadPairInverts(p, false, a, b, style, n, bound, rest);
  }

  // ----- generated names are distinct ------------------------------------------------------

  function DigitsValue(s: string): int {
    if s == [] then 0 else 10 * DigitsValue(s[..|s| - 1]) + (s[|s| - 1] as int - '0' as int)
  }

  lemma {:induction false} DigitsInvert(n: nat)
    ensures DigitsValue(Digits(n)) == n
  {
    var s := Digits(n);
    if n < 10 {
      assert s[..0] == [];
    } else {
      DigitsInvert(n / 10);
      assert s[..|s| - 1] == Digits(n / 10);
    }
  }

  lemma ParameterNamesDistinct(m: nat, n: nat)
    ensures ParameterName(m) == ParameterName(n) <==> m == n
  {
    if ParameterName(m) == ParameterName(n) {
      assert ParameterName(m)[|PARAMETER_PREFIX|..] == Digits(m);
      assert ParameterName(n)[|PARAMETER_PREFIX|..] == Digits(n);
      DigitsInvert(m);
      DigitsInvert(n);
    }
  }

  /** The named parameters of `values` numbered from `n`, as the driver's dictionary. */
  function Dictionary(values: seq<Scalar>, n: nat): map<string, Scalar> {
    if values == [] then map[]
    else Dictionary(values[..|values| - 1], n)[ParameterName(n + |values| - 1) := values[|values| - 1]]
  }

  lemma {:induction false} DictionaryHas(values: seq<Scalar>, n: nat, i: nat)
    requires i < |values|
    ensures HasParameter(Dictionary(values, n), n + i, values[i])
    decreases |values|
  {
    if i < |values| - 1 {
      DictionaryHas(values[..|values| - 1], n, i);
      ParameterNamesDistinct(n + i, n + |values| - 1);
    }
  }

  /** ClickHouse: text and named parameters determine the tree. */
  lemma NamedRoundTrip(p: Predicate)
    requires WellFormed(p)
    ensures ReadPredicate(Render(p, Named, 0), ByName(Dictionary(Slots(p), 0))) ==
            Some(Read(p, "", ByName(Dictionary(Slots(p), 0))))
  {
    hide ReadPredicate, Render, Dictionary, Slots;
    var bound := ByName(Dictionary(Slots(p), 0));
    forall i | 0 <= i < |Slots(p)| ensures HasParameter(bound.values, 0 + i, Slots(p)[i]) {
      DictionaryHas(Slots(p), 0, i);
    }
    ReadPredicateInverts(p, Named, 0, bound, "");
    assert Render(p, Named, 0) + "" == Render(p, Named, 0);
  }

  /** Doris over MySQL: text and positional parameters determine the tree, and all parameters are
      consumed. */
  lemma PositionalRoundTrip(p: Predicate)
    requires WellFormed(p)
    ensures ReadPredicate(Render(p, Positional, 0), InOrder(Slots(p))) == Some(Read(p, "", InOrder([])))
  {
    hide ReadPredicate, Render, Slots;
    ReadPredicateInverts(p, Positional, 0, InOrder(Slots(p)), "");
    assert Render(p, Positional, 0) + "" == Render(p, Positional, 0);
    assert Slots(p)[|Slots(p)|..] == [];
  }
}
