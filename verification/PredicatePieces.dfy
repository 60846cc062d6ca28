/** Predicates as pieces: one layout for every parameter style, filled with markers by the
    renderers and with literals by the Flight style. */
module PredicatePieces {
  import opened Wrappers
  import opened Sequences
  import opened PredicateIr
  import opened Identifiers
  import opened PredicateText
  import opened SqlText

  function OperandPieces(v: Value): seq<Piece> {
    if v.Column? then [Name(v.name)] else [Slot]
  }

  function InfixPieces(a: seq<Piece>, infix: string, b: seq<Piece>): seq<Piece> {
    [Plain("(")] + (a + ([Plain(infix)] + (b + [Plain(")")])))
  }

  /** `n` slots separated by commas. */
  function SlotList(n: nat): seq<Piece> {
    if n == 0 then [] else if n == 1 then [Slot] else [Slot, Plain(", ")] + SlotList(n - 1)
  }

  function PiecesOf(p: Predicate): seq<Piece> {
    match p
    case Compare(op, l, r) => InfixPieces(OperandPieces(l), " " + OpText(op) + " ", OperandPieces(r))
    case And(a, b) => InfixPieces(PiecesOf(a), " AND ", PiecesOf(b))
    case Or(a, b) => InfixPieces(PiecesOf(a), " OR ", PiecesOf(b))
    case Not(a) => [Plain("(NOT ")] + (PiecesOf(a) + [Plain(")")])
    case IsNull(c, negated) => [Plain("("), Name(c), Plain(if negated then " IS NOT NULL)" else " IS NULL)")]
    case InValues(c, values) => [Plain("("), Name(c), Plain(" IN (")] + (SlotList(|values|) + [Plain("))")])
  }

  // ----- filling the layout -----------------------------------------------------------

  function FilledOperand(v: Value, fills: seq<string>): string
    requires |fills| == |ValueSlots(v)|
  {
    if v.Column? then Quote(v.name) else fills[0]
  }

  /** The text of `p` with the given texts in place of its literals. */
  function Filled(p: Predicate, fills: seq<string>): string
    requires |fills| == |Slots(p)|
  {
    match p
    case Compare(op, l, r) =>
      var k := |ValueSlots(l)|;
      Infix(FilledOperand(l, fills[..k]), " " + OpText(op) + " ", FilledOperand(r, fills[k..]))
    case And(a, b) => Infix(Filled(a, fills[..|Slots(a)|]), " AND ", Filled(b, fills[|Slots(a)|..]))
    case Or(a, b) => Infix(Filled(a, fills[..|Slots(a)|]), " OR ", Filled(b, fills[|Slots(a)|..]))
    case Not(a) => NotText(Filled(a, fills))
    case IsNull(c, negated) => NullTest(c, negated)
    case InValues(c, _) => InText(c, Join(fills))
  }

  lemma FillPlain(text: string, rest: seq<Piece>, fills: seq<string>, protect: bool)
    requires |fills| == SlotCount(rest)
    ensures SlotCount([Plain(text)] + rest) == |fills|
    ensures Fill([Plain(text)] + rest, fills, protect) == text + Fill(rest, fills, protect)
  {
    assert ([Plain(text)] + rest)[1..] == rest;
  }

  lemma FillName(name: string, rest: seq<Piece>, fills: seq<string>, protect: bool)
    requires |fills| == SlotCount(rest)
    ensures SlotCount([Name(name)] + rest) == |fills|
    ensures Fill([Name(name)] + rest, fills, protect) == Quote(name) + Fill(rest, fills, protect)
  {
    assert ([Name(name)] + rest)[1..] == rest;
  }

  lemma FillLast(a: seq<Piece>, text: string, fills: seq<string>, protect: bool)
    requires |fills| == SlotCount(a)
    ensures SlotCount(a + [Plain(text)]) == |fills|
    ensures Fill(a + [Plain(text)], fills, protect) == Fill(a, fills, protect) + text
  {
    FillPlain(text, [], [], protect);
    assert [Plain(text)] + [] == [Plain(text)];
    FillConcat(a, [Plain(text)], fills, [], protect);
    assert fills + [] == fills;
    assert text + "" == text;
  }

  lemma FillInfix(a: seq<Piece>, infix: string, b: seq<Piece>, x: seq<string>, y: seq<string>, protect: bool)
    requires |x| == SlotCount(a) && |y| == SlotCount(b)
    ensures SlotCount(InfixPieces(a, infix, b)) == |x + y|
    ensures Fill(InfixPieces(a, infix, b), x + y, protect) == Infix(Fill(a, x, protect), infix, Fill(b, y, protect))
  {
    hide Fill, SlotCount;
    var tail := b + [Plain(")")];
    FillLast(b, ")", y, protect);
    FillPlain(infix, tail, y, protect);
    FillConcat(a, [Plain(infix)] + tail, x, y, protect);
    FillPlain("(", a + ([Plain(infix)] + tail), x + y, protect);
    InfixAssociates(Fill(a, x, protect), infix, Fill(b, y, protect));
  }

  lemma InfixAssociates(l: string, infix: string, r: string)
    ensures "(" + (l + (infix + (r + ")"))) == Infix(l, infix, r)
  {
  }

  lemma FillOperand(v: Value, fills: seq<string>, protect: bool)
    requires |fills| == |ValueSlots(v)|
    ensures SlotCount(OperandPieces(v)) == |fills|
    ensures Fill(OperandPieces(v), fills, protect) == FilledOperand(v, fills)
  {
    var ps := OperandPieces(v);
    assert ps[1..] == [];
    if v.Literal? {
      assert fills[1..] == [];
    }
  }

  lemma {:induction false} FillSlotList(fills: seq<string>, protect: bool)
    ensures SlotCount(SlotList(|fills|)) == |fills|
    ensures Fill(SlotList(|fills|), fills, protect) == Join(fills)
  {
    var n := |fills|;
    if n == 1 {
      assert [Slot][1..] == [] && fills[1..] == [];
    } else if n > 1 {
      FillSlotList(fills[1..], protect);
      var ps := SlotList(n);
      assert ps[1..] == [Plain(", ")] + SlotList(n - 1);
      FillPlain(", ", SlotList(n - 1), fills[1..], protect);
      assert fills[0] + (", " + Join(fills[1..])) == fills[0] + ", " + Join(fills[1..]);
    }
  }

  lemma FillNullTest(c: string, negated: bool, protect: bool)
    ensures SlotCount(PiecesOf(IsNull(c, negated))) == 0
    ensures Fill(PiecesOf(IsNull(c, negated)), [], protect) == NullTest(c, negated)
  {
    var words := if negated then " IS NOT NULL)" else " IS NULL)";
    FillLast([], words, [], protect);
    assert [] + [Plain(words)] == [Plain(words)];
    FillName(c, [Plain(words)], [], protect);
    FillPlain("(", [Name(c)] + [Plain(words)], [], protect);
    assert PiecesOf(IsNull(c, negated)) == [Plain("(")] + ([Name(c)] + [Plain(words)]);
    assert "(" + (Quote(c) + ("" + words)) == "(" + Quote(c) + words;
  }

  lemma FillIn(c: string, values: seq<Scalar>, fills: seq<string>, protect: bool)
    requires |fills| == |values|
    ensures SlotCount(PiecesOf(InValues(c, values))) == |fills|
    ensures Fill(PiecesOf(InValues(c, values)), fills, protect) == InText(c, Join(fills))
  {
    hide Fill, SlotCount;
    FillSlotList(fills, protect);
    var list := SlotList(|fills|) + [Plain("))")];
    FillLast(SlotList(|fills|), "))", fills, protect);
    FillPlain(" IN (", list, fills, protect);
    FillName(c, [Plain(" IN (")] + list, fills, protect);
    FillPlain("(", [Name(c)] + ([Plain(" IN (")] + list), fills, protect);
    assert PiecesOf(InValues(c, values)) == [Plain("(")] + ([Name(c)] + ([Plain(" IN (")] + list));
    assert "(" + (Quote(c) + (" IN (" + (Join(fills) + "))"))) == InText(c, Join(fills));
  }

  /** The layout of a predicate filled in is its rendering, protected or not. */
  lemma {:induction false} FillPredicate(p: Predicate, fills: seq<string>, protect: bool)
    requires |fills| == |Slots(p)|
    ensures SlotCount(PiecesOf(p)) == |fills|
    ensures Fill(PiecesOf(p), fills, protect) == Filled(p, fills)
  {
    hide Fill, SlotCount, Infix, InfixPieces, NotText, NullTest, InText, FilledOperand, OperandPieces;
    match p
    case Compare(op, l, r) =>
      var k := |ValueSlots(l)|;
      FillOperand(l, fills[..k], protect);
      FillOperand(r, fills[k..], protect);
      FillInfix(OperandPieces(l), " " + OpText(op) + " ", OperandPieces(r), fills[..k], fills[k..], protect);
      assert fills[..k] + fills[k..] == fills;
    case And(a, b) =>
      var k := |Slots(a)|;
      FillPredicate(a, fills[..k], protect);
      FillPredicate(b, fills[k..], protect);
      FillInfix(PiecesOf(a), " AND ", PiecesOf(b), fills[..k], fills[k..], protect);
      assert fills[..k] + fills[k..] == fills;
    case Or(a, b) =>
      var k := |Slots(a)|;
      FillPredicate(a, fills[..k], protect);
      FillPredicate(b, fills[k..], protect);
      FillInfix(PiecesOf(a), " OR ", PiecesOf(b), fills[..k], fills[k..], protect);
      assert fills[..k] + fills[k..] == fills;
    case Not(a) =>
      FillPredicate(a, fills, protect);
      FillNot(PiecesOf(a), fills, protect);
    case IsNull(c, negated) =>
      FillNullTest(c, negated, protect);
      assert fills == [];
    case InValues(c, values) => FillIn(c, values, fills, protect);
  }

  lemma FillNot(a: seq<Piece>, fills: seq<string>, protect: bool)
    requires |fills| == SlotCount(a)
    ensures SlotCount([Plain("(NOT ")] + (a + [Plain(")")])) == |fills|
    ensures Fill([Plain("(NOT ")] + (a + [Plain(")")]), fills, protect) == NotText(Fill(a, fills, protect))
  {
    hide Fill, SlotCount;
    FillLast(a, ")", fills, protect);
    FillPlain("(NOT ", a + [Plain(")")], fills, protect);
    assert "(NOT " + (Fill(a, fills, protect) + ")") == NotText(Fill(a, fills, protect));
  }

  // ----- the styles ------------------------------------------------------------------------

  /** Markers numbered from `n`. */
  function Markers(style: Style, n: nat, k: nat): (r: seq<string>)
    ensures |r| == k && forall i | 0 <= i < k :: r[i] == Marker(style, n + i)
  {
    seq(k, i requires 0 <= i < k => Marker(style, n + i))
  }

  lemma MarkersSplit(style: Style, n: nat, j: nat, k: nat)
    ensures Markers(style, n, j + k)[..j] == Markers(style, n, j)
    ensures Markers(style, n, j + k)[j..] == Markers(style, n + j, k)
  {
  }

  lemma {:induction false} MarkerListJoins(k: nat, style: Style, n: nat)
    ensures MarkerList(k, style, n) == Join(Markers(style, n, k))
  {
    if k > 1 {
      MarkersSplit(style, n, 1, k - 1);
      MarkerListJoins(k - 1, style, n + 1);
    }
  }

  lemma OperandIsFilled(v: Value, style: Style, n: nat)
    ensures RenderValue(v, style, n) == FilledOperand(v, Markers(style, n, |ValueSlots(v)|))
  {
  }

  /** Rendering in a driver style fills the layout with that style's markers. */
  lemma {:induction false} RenderIsFilled(p: Predicate, style: Style, n: nat)
    ensures Render(p, style, n) == Filled(p, Markers(style, n, |Slots(p)|))
  {
    hide Infix, NotText, NullTest, InText, Marker, Markers, RenderValue, FilledOperand, MarkerList, Join;
    match p
    case Compare(_, l, r) =>
      MarkersSplit(style, n, |ValueSlots(l)|, |ValueSlots(r)|);
      OperandIsFilled(l, style, n);
      OperandIsFilled(r, style, n + |ValueSlots(l)|);
    case And(a, b) =>
      MarkersSplit(style, n, |Slots(a)|, |Slots(b)|);
      RenderIsFilled(a, style, n);
      RenderIsFilled(b, style, n + |Slots(a)|);
    case Or(a, b) =>
      MarkersSplit(style, n, |Slots(a)|, |Slots(b)|);
      RenderIsFilled(a, style, n);
      RenderIsFilled(b, style, n + |Slots(a)|);
    case Not(a) => RenderIsFilled(a, style, n);
    case IsNull(_, _) =>
    case InValues(_, values) => MarkerListJoins(|values|, style, n);
  }

  /** The Flight text of a value, or none when it cannot be written as a literal. */
  type Literals = Scalar -> Option<string>

  ghost predicate Renderable(values: seq<Scalar>, literal: Literals) {
    forall i | 0 <= i < |values| :: literal(values[i]).Some?
  }

  function LiteralTexts(values: seq<Scalar>, literal: Literals): (r: seq<string>)
    requires Renderable(values, literal)
    ensures |r| == |values| && forall i | 0 <= i < |values| :: r[i] == literal(values[i]).value
  {
    if values == [] then [] else [literal(values[0]).value] + LiteralTexts(values[1..], literal)
  }

  function FlightLiteral(v: Scalar, literal: Literals): Result<string> {
    if literal(v).Some? then Ok(literal(v).value) else Err(Configuration)
  }

  /** The renderer in Flight style, which binds no parameters. */
  function FlightOperand(v: Value, literal: Literals): Result<string> {
    if v.Column? then Ok(Quote(v.name))
    else if v.value.Null? then Err(UnsupportedPredicate)
    else FlightLiteral(v.value, literal)
  }

  function FlightItems(values: seq<Scalar>, literal: Literals): Result<seq<string>> {
    if values == [] then Ok([])
    else
      var first :- FlightOperand(Literal(values[0]), literal);
      var rest :- FlightItems(values[1..], literal);
      Ok([first] + rest)
  }

  function FlightRender(p: Predicate, literal: Literals): Result<string> {
    match p
    case Compare(op, l, r) =>
      var x :- FlightOperand(l, literal);
      var y :- FlightOperand(r, literal);
      Ok(Infix(x, " " + OpText(op) + " ", y))
    case And(a, b) =>
      var x :- FlightRender(a, literal);
      var y :- FlightRender(b, literal);
      Ok(Infix(x, " AND ", y))
    case Or(a, b) =>
      var x :- FlightRender(a, literal);
      var y :- FlightRender(b, literal);
      Ok(Infix(x, " OR ", y))
    case Not(a) =>
      var x :- FlightRender(a, literal);
      Ok(NotText(x))
    case IsNull(c, negated) => Ok(NullTest(c, negated))
    case InValues(c, values) =>
      var items :- FlightItems(values, literal);
      Ok(InText(c, Join(items)))
  }

  lemma RenderableSplit(a: seq<Scalar>, b: seq<Scalar>, literal: Literals)
    ensures Renderable(a + b, literal) <==> Renderable(a, literal) && Renderable(b, literal)
    ensures Renderable(a + b, literal) ==>
              LiteralTexts(a + b, literal)[..|a|] == LiteralTexts(a, literal)
                && LiteralTexts(a + b, literal)[|a|..] == LiteralTexts(b, literal)
  {
    var s := a + b;
    if Renderable(a, literal) && Renderable(b, literal) {
      forall i | 0 <= i < |s| ensures literal(s[i]).Some? {
        if i >= |a| {
          assert s[i] == b[i - |a|];
        }
      }
    }
    if Renderable(s, literal) {
      forall i | 0 <= i < |a| ensures literal(a[i]).Some? {
        assert s[i] == a[i];
      }
      forall i | 0 <= i < |b| ensures literal(b[i]).Some? {
        assert s[|a| + i] == b[i];
      }
    }
  }

  lemma FlightOperandIsFilled(v: Value, literal: Literals)
    ensures FlightOperand(v, literal).Ok? <==> v != Literal(Null) && Renderable(ValueSlots(v), literal)
    ensures FlightOperand(v, literal).Ok? ==>
            FlightOperand(v, literal).value == FilledOperand(v, LiteralTexts(ValueSlots(v), literal))
  {
    if v.Literal? {
      assert ValueSlots(v)[0] == v.value;
    }
  }

  lemma {:induction false} FlightItemsFilled(values: seq<Scalar>, literal: Literals)
    requires Null !in values
    ensures FlightItems(values, literal).Ok? <==> Renderable(values, literal)
    ensures FlightItems(values, literal).Ok? ==> FlightItems(values, literal).value == LiteralTexts(values, literal)
  {
    if values != [] {
      FlightItemsFilled(values[1..], literal);
      assert values == [values[0]] + values[1..];
      assert values[0] != Null by { assert values[0] in values; }
      RenderableSplit([values[0]], values[1..], literal);
      assert Renderable([values[0]], literal) <==> literal([values[0]][0]).Some?;
    }
  }

  /** Flight rendering succeeds exactly when every literal can be written, and then fills the same
      layout with the literals. */
  lemma {:induction false} FlightIsFilled(p: Predicate, literal: Literals)
    requires WellFormed(p)
    ensures FlightRender(p, literal).Ok? <==> NullFree(p) && Renderable(Slots(p), literal)
    ensures FlightRender(p, literal).Ok? ==>
            FlightRender(p, literal).value == Filled(p, LiteralTexts(Slots(p), literal))
  {
    hide Infix, NotText, NullTest, InText, LiteralTexts, Renderable, FilledOperand, FlightOperand, FlightItems, Join;
    match p
    case Compare(_, l, r) =>
      RenderableSplit(ValueSlots(l), ValueSlots(r), literal);
      FlightOperandIsFilled(l, literal);
      FlightOperandIsFilled(r, literal);
    case And(a, b) =>
      RenderableSplit(Slots(a), Slots(b), literal);
      FlightIsFilled(a, literal);
      FlightIsFilled(b, literal);
    case Or(a, b) =>
      RenderableSplit(Slots(a), Slots(b), literal);
      FlightIsFilled(a, literal);
      FlightIsFilled(b, literal);
    case Not(a) => FlightIsFilled(a, literal);
    case IsNull(_, _) => NothingRenderable(literal);
    case InValues(_, values) => FlightItemsFilled(values, literal);
  }

  lemma NothingRenderable(literal: Literals)
    ensures Renderable([], literal)
  {
  }

  // ----- names in predicates -----------------------------------------------------------------

  ghost predicate ColumnsPercentFree(columns: set<string>) {
    forall c | c in columns :: PercentFree(c)
  }

  lemma OpPercentFree(op: CompareOp)
    ensures PercentFree(" " + OpText(op) + " ")
  {
  }

  lemma OperandNames(v: Value)
    ensures SafePieces(OperandPieces(v))
    ensures NamesPercentFree(OperandPieces(v)) <==> ColumnsPercentFree(ValueColumns(v))
  {
    OnePiece(OperandPieces(v)[0]);
  }

  lemma InfixNames(a: seq<Piece>, infix: string, b: seq<Piece>)
    requires PercentFree(infix)
    ensures SafePieces(InfixPieces(a, infix, b)) <==> SafePieces(a) && SafePieces(b)
    ensures NamesPercentFree(InfixPieces(a, infix, b)) <==> NamesPercentFree(a) && NamesPercentFree(b)
  {
    hide SafePieces, NamesPercentFree;
    PlainAround(")", b);
    PlainAround(infix, b + [Plain(")")]);
    PiecesConcat(a, [Plain(infix)] + (b + [Plain(")")]));
    PlainAround("(", a + ([Plain(infix)] + (b + [Plain(")")])));
  }

  lemma {:induction false} SlotListNames(n: nat)
    ensures SafePieces(SlotList(n)) && NamesPercentFree(SlotList(n))
  {
    if n == 1 {
      OnePiece(Slot);
    } else if n > 1 {
      SlotListNames(n - 1);
      PlainAround(", ", SlotList(n - 1));
      OnePiece(Slot);
      PiecesConcat([Slot], [Plain(", ")] + SlotList(n - 1));
      assert SlotList(n) == [Slot] + ([Plain(", ")] + SlotList(n - 1));
    }
  }

  lemma ColumnsUnion(a: set<string>, b: set<string>)
    ensures ColumnsPercentFree(a + b) <==> ColumnsPercentFree(a) && ColumnsPercentFree(b)
  {
  }

  lemma NamedTail(c: string, tail: seq<Piece>)
    requires SafePieces(tail) && NamesPercentFree(tail)
    ensures SafePieces([Plain("("), Name(c)] + tail)
    ensures NamesPercentFree([Plain("("), Name(c)] + tail) <==> ColumnsPercentFree({c})
  {
    OnePiece(Name(c));
    PiecesConcat([Name(c)], tail);
    PlainAround("(", [Name(c)] + tail);
    assert [Plain("("), Name(c)] + tail == [Plain("(")] + ([Name(c)] + tail);
  }

  /** The unprotected names of a predicate are its columns. */
  lemma {:induction false} PredicateNames(p: Predicate)
    ensures SafePieces(PiecesOf(p))
    ensures NamesPercentFree(PiecesOf(p)) <==> ColumnsPercentFree(ReferencedColumns(p))
  {
    hide SafePieces, NamesPercentFree, InfixPieces, ColumnsPercentFree, OperandPieces;
    match p
    case Compare(op, l, r) =>
      OpPercentFree(op);
      OperandNames(l);
      OperandNames(r);
      InfixNames(OperandPieces(l), " " + OpText(op) + " ", OperandPieces(r));
      ColumnsUnion(ValueColumns(l), ValueColumns(r));
    case And(a, b) =>
      PredicateNames(a);
      PredicateNames(b);
      InfixNames(PiecesOf(a), " AND ", PiecesOf(b));
      ColumnsUnion(ReferencedColumns(a), ReferencedColumns(b));
    case Or(a, b) =>
      PredicateNames(a);
      PredicateNames(b);
      InfixNames(PiecesOf(a), " OR ", PiecesOf(b));
      ColumnsUnion(ReferencedColumns(a), ReferencedColumns(b));
    case Not(a) =>
      PredicateNames(a);
      PlainAround(")", PiecesOf(a));
      PlainAround("(NOT ", PiecesOf(a) + [Plain(")")]);
    case IsNull(c, negated) => NullTestNames(c, negated);
    case InValues(c, values) => InNames(c, values);
  }

  lemma NullTestNames(c: string, negated: bool)
    ensures SafePieces(PiecesOf(IsNull(c, negated)))
    ensures NamesPercentFree(PiecesOf(IsNull(c, negated))) <==> ColumnsPercentFree({c})
  {
    var words := if negated then " IS NOT NULL)" else " IS NULL)";
    OnePiece(Plain(words));
    NamedTail(c, [Plain(words)]);
    assert PiecesOf(IsNull(c, negated)) == [Plain("("), Name(c)] + [Plain(words)];
  }

  lemma InNames(c: string, values: seq<Scalar>)
    ensures SafePieces(PiecesOf(InValues(c, values)))
    ensures NamesPercentFree(PiecesOf(InValues(c, values))) <==> ColumnsPercentFree({c})
  {
    SlotListNames(|values|);
    PlainAround("))", SlotList(|values|));
    PlainAround(" IN (", SlotList(|values|) + [Plain("))")]);
    NamedTail(c, [Plain(" IN (")] + (SlotList(|values|) + [Plain("))")]));
    assert PiecesOf(InValues(c, values)) == [Plain("("), Name(c)]
            + ([Plain(" IN (")] + (SlotList(|values|) + [Plain("))")]));
  }
}
