/** Doris SELECT construction in its two parameter styles. */
module DorisSql {
  import opened Wrappers
  import opened Sequences
  import opened PredicateIr
  import opened Identifiers
  import opened PredicateText
  import opened SqlText
  import opened PredicatePieces
  import opened SelectText
  import opened FragmentTokens
  import opened DorisFragment

  datatype Select = Select(
    table: QualifiedTable,
    columns: seq<string>,
    condition: Option<Predicate>,
    unsafe: Option<string>,
    parameters: seq<(string, Scalar)>,
    tablets: Option<seq<int>>,
    limit: Option<int>,
    countName: Option<string>)

  datatype Style = Mysql | FlightSql(literal: Literals)

  // ----- the parts of a statement --------------------------------------------------------

  predicate ProjectionOk(s: Select) {
    if s.countName.Some? then ValidIdentifier(s.countName.value) else ValidColumnList(s.columns)
  }

  predicate TabletsOk(s: Select) {
    s.tablets.Some? ==> s.tablets.value != [] && forall t | t in s.tablets.value :: t > 0
  }

  function ProjectionText(s: Select): string {
    if s.countName.Some? then "count(*) AS " + Quote(s.countName.value) else Join(QuotedList(s.columns))
  }

  function TabletTexts(ids: seq<int>): (r: seq<string>)
    requires forall t | t in ids :: t > 0
    ensures |r| == |ids|
  {
    if ids == [] then []
    else
      assert ids[0] in ids && forall t | t in ids[1..] :: t in ids;
      [Digits(ids[0])] + TabletTexts(ids[1..])
  }

  function TabletText(s: Select): string
    requires TabletsOk(s)
  {
    if s.tablets.Some? then " TABLET(" + Join(TabletTexts(s.tablets.value)) + ")" else ""
  }

  function LimitText(s: Select): string {
    if LimitOk(s.limit, s.countName.Some?) then LimitClause(s.limit, s.countName.Some?) else ""
  }

  /** Everything before the WHERE clause. */
  function HeadText(s: Select): string
    requires TabletsOk(s)
  {
    "SELECT " + ProjectionText(s) + " FROM " + TableText(s.table) + TabletText(s)
  }

  /** The WHERE clause from the rendered fragment and predicate. */
  function WhereText(fragment: Option<string>, condition: Option<string>): string {
    if fragment.Some? && condition.Some? then " WHERE (" + fragment.value + ") AND " + condition.value
    else if fragment.Some? then " WHERE (" + fragment.value + ")"
    else if condition.Some? then " WHERE " + condition.value
    else ""
  }

  // ----- which requests are accepted -------------------------------------------------------

  function TargetOf(s: Select, style: Style): DorisFragment.Target {
    if style.FlightSql? then Flight(style.literal)
    else MySql(s.parameters != [] || ConditionSlots(s) != [])
  }

  function ConditionSlots(s: Select): seq<Scalar> {
    if s.condition.Some? then Slots(s.condition.value) else []
  }

  ghost predicate ConditionOk(s: Select, style: Style) {
    s.condition.Some? ==>
      NullFree(s.condition.value) && (style.FlightSql? ==> Renderable(Slots(s.condition.value), style.literal))
  }

  ghost predicate UnsafeOk(s: Select, style: Style) {
    if s.unsafe.Some? then FragmentOk(s.unsafe.value, s.parameters, TargetOf(s, style)) else s.parameters == []
  }

  ghost predicate SelectOk(s: Select, style: Style) {
    ProjectionOk(s) && TabletsOk(s) && ConditionOk(s, style) && UnsafeOk(s, style)
      && LimitOk(s.limit, s.countName.Some?)
  }

  // ----- the reference: one list of pieces for both styles ------------------------------------

  function ProjectionPieces(s: Select): seq<Piece> {
    if s.countName.Some? then [Plain("count(*) AS "), Name(s.countName.value)] else NameList(s.columns)
  }

  function HeadPieces(s: Select): seq<Piece>
    requires TabletsOk(s)
  {
    [Plain("SELECT ")] + (ProjectionPieces(s) +
      [Plain(" FROM "), Name(s.table.database), Plain("."), Name(s.table.table), Plain(TabletText(s))])
  }

  /** The tokens of the trusted fragment. */
  function UnsafeTokens(s: Select): seq<Token>
    requires s.unsafe.Some? ==> Tokens(None, None, s.unsafe.value).Some?
  {
    if s.unsafe.Some? then Tokens(None, None, s.unsafe.value).value else []
  }

  function WherePieces(s: Select): seq<Piece>
    requires s.unsafe.Some? ==> Tokens(None, None, s.unsafe.value).Some?
  {
    var fragment := TokenPieces(UnsafeTokens(s));
    if s.unsafe.Some? && s.condition.Some? then
      [Plain(" WHERE (")] + (fragment + ([Plain(") AND ")] + PiecesOf(s.condition.value)))
    else if s.unsafe.Some? then [Plain(" WHERE (")] + (fragment + [Plain(")")])
    else if s.condition.Some? then [Plain(" WHERE ")] + PiecesOf(s.condition.value)
    else []
  }

  /** The statement, independent of the parameter style. */
  function SelectPieces(s: Select): seq<Piece>
    requires TabletsOk(s) && (s.unsafe.Some? ==> Tokens(None, None, s.unsafe.value).Some?)
  {
    HeadPieces(s) + (WherePieces(s) + [Plain(LimitText(s))])
  }

  /** Every marker of the fragment names a parameter. */
  ghost predicate MarkersBound(s: Select) {
    s.unsafe.Some? ==>
      && Tokens(None, None, s.unsafe.value).Some?
      && var ts := Tokens(None, None, s.unsafe.value).value;
         forall i | 0 <= i < |ts| :: ts[i].Mark? ==> ts[i].name in ToMap(s.parameters)
  }

  ghost function FragmentValues(s: Select): seq<Scalar>
    requires MarkersBound(s)
  {
    if s.unsafe.Some? then TokensValues(UnsafeTokens(s), ToMap(s.parameters)) else []
  }

  /** The values bound by a statement, in slot order: fragment first, then predicate. */
  ghost function Values(s: Select): seq<Scalar>
    requires MarkersBound(s)
  {
    FragmentValues(s) + ConditionSlots(s)
  }

  lemma OkIsBound(s: Select, style: Style)
    requires SelectOk(s, style)
    ensures MarkersBound(s)
  {
    if s.unsafe.Some? {
      var ts := Tokens(None, None, s.unsafe.value).value;
      forall i | 0 <= i < |ts| ensures ts[i].Mark? ==> ts[i].name in ToMap(s.parameters) {
        assert Acceptable(ts[i], ToMap(s.parameters), TargetOf(s, style));
      }
    }
  }

  // ----- construction ---------------------------------------------------------------------------

  /** `render_predicate` in the chosen style. */
  method RenderCondition(p: Predicate, style: Style) returns (r: Result<(string, seq<Scalar>)>)
    requires WellFormed(p)
    ensures r.Ok? <==> NullFree(p) && (style.FlightSql? ==> Renderable(Slots(p), style.literal))
    ensures r.Ok? && style.Mysql? ==> r.value == (Render(p, Positional, 0), Slots(p))
    ensures r.Ok? && style.FlightSql? ==> r.value == (Filled(p, LiteralTexts(Slots(p), style.literal)), [])
  {
    if style.FlightSql? {
      FlightIsFilled(p, style.literal);
      var text := FlightRender(p, style.literal);
      if text.Err? {
        return Err(text.error);
      }
      return Ok((text.value, []));
    }
    var renderer := new Renderer(Positional);
    var text := renderer.RenderPredicate(p);
    if text.Err? {
      return Err(text.error);
    }
    assert [] + Slots(p) == Slots(p);
    r := Ok((text.value, renderer.parameters));
  }

  /** The rendered condition fills the slots of its pieces with the style's texts. */
  lemma ConditionText(p: Predicate, target: DorisFragment.Target, protect: bool)
    requires target.Flight? ==> Renderable(Slots(p), target.literal)
    ensures SlotCount(PiecesOf(p)) == |Slots(p)|
    ensures Fill(PiecesOf(p), StyleFills(Slots(p), target), protect) ==
            if target.MySql? then Render(p, Positional, 0) else Filled(p, LiteralTexts(Slots(p), target.literal))
  {
    hide Fill, SlotCount, Filled, Render;
    FillPredicate(p, StyleFills(Slots(p), target), protect);
    if target.MySql? {
      RenderIsFilled(p, Positional, 0);
      assert Markers(Positional, 0, |Slots(p)|) == Repeat("%s", |Slots(p)|);
    }
  }

  lemma FillProjection(s: Select, protect: bool)
    ensures SlotCount(ProjectionPieces(s)) == 0 && Fill(ProjectionPieces(s), [], protect) == ProjectionText(s)
  {
    if s.countName.Some? {
      var name := s.countName.value;
      FillName(name, [], [], protect);
      assert [Name(name)] + [] == [Name(name)];
      assert Quote(name) + "" == Quote(name);
      FillPlain("count(*) AS ", [Name(name)], [], protect);
      assert ProjectionPieces(s) == [Plain("count(*) AS ")] + [Name(name)];
    } else {
      FillNames(s.columns, protect);
    }
  }

  lemma FillHead(s: Select, protect: bool)
    requires TabletsOk(s)
    ensures SlotCount(HeadPieces(s)) == 0 && Fill(HeadPieces(s), [], protect) == HeadText(s)
  {
    hide Fill, SlotCount, ProjectionPieces, ProjectionText, TabletText, TableText;
    var table := [Plain(" FROM "), Name(s.table.database), Plain("."), Name(s.table.table), Plain(TabletText(s))];
    FillProjection(s, protect);
    FillTable(s.table, TabletText(s), protect);
    FillConcat(ProjectionPieces(s), table, [], [], protect);
    NothingAdded();
    FillPlain("SELECT ", ProjectionPieces(s) + table, [], protect);
    var p, t, d := ProjectionText(s), TableText(s.table), TabletText(s);
    assert "SELECT " + (p + (" FROM " + t + d)) == "SELECT " + p + " FROM " + t + d;
  }

  // ----- the WHERE clause --------------------------------------------------------------------------

  ghost predicate Writable(s: Select, target: DorisFragment.Target) {
    && MarkersBound(s)
    && (s.unsafe.Some? ==> AllAcceptable(UnsafeTokens(s), ToMap(s.parameters), target))
    && (target.Flight? ==> Renderable(ConditionSlots(s), target.literal))
  }

  /** The texts of both clauses in the style of `target`. */
  ghost function FragmentText(s: Select, target: DorisFragment.Target): Option<string>
    requires Writable(s, target)
  {
    if s.unsafe.Some? then Some(TokensOut(UnsafeTokens(s), ToMap(s.parameters), target)) else None
  }

  ghost function ConditionTextOf(s: Select, target: DorisFragment.Target): Option<string>
    requires Writable(s, target)
  {
    if s.condition.None? then None
    else if target.MySql? then Some(Render(s.condition.value, Positional, 0))
    else Some(Filled(s.condition.value, LiteralTexts(Slots(s.condition.value), target.literal)))
  }

  lemma FragmentFill(s: Select, target: DorisFragment.Target)
    requires Writable(s, target) && s.unsafe.Some?
    ensures target.Flight? ==> Renderable(FragmentValues(s), target.literal)
    ensures SlotCount(TokenPieces(UnsafeTokens(s))) == |FragmentValues(s)|
    ensures Some(Fill(TokenPieces(UnsafeTokens(s)), StyleFills(FragmentValues(s), target), target == MySql(true))) ==
            FragmentText(s, target)
  {
    FillTokens(UnsafeTokens(s), ToMap(s.parameters), target);
  }

  lemma ValuesRenderable(s: Select, target: DorisFragment.Target)
    requires Writable(s, target)
    ensures target.Flight? ==> Renderable(Values(s), target.literal)
    ensures target.Flight? ==> Renderable(FragmentValues(s), target.literal)
    ensures StyleFills(Values(s), target) == StyleFills(FragmentValues(s), target)
            + StyleFills(ConditionSlots(s), target)
  {
    if s.unsafe.Some? {
      FragmentFill(s, target);
    }
    StyleFillsAppend(FragmentValues(s), ConditionSlots(s), target);
  }

  lemma FillBothClauses(fragment: seq<Piece>, condition: seq<Piece>, x: seq<string>, y: seq<string>, protect: bool)
    requires |x| == SlotCount(fragment) && |y| == SlotCount(condition)
    ensures var ps := [Plain(" WHERE (")] + (fragment + ([Plain(") AND ")] + condition));
            && SlotCount(ps) == |x + y|
            && Fill(ps, x + y, protect) ==
              WhereText(Some(Fill(fragment, x, protect)), Some(Fill(condition, y, protect)))
  {
    hide Fill, SlotCount;
    FillPlain(") AND ", condition, y, protect);
    FillConcat(fragment, [Plain(") AND ")] + condition, x, y, protect);
    FillPlain(" WHERE (", fragment + ([Plain(") AND ")] + condition), x + y, protect);
    var f, c := Fill(fragment, x, protect), Fill(condition, y, protect);
    assert " WHERE (" + (f + (") AND " + c)) == " WHERE (" + f + ") AND " + c;
  }

  lemma FillFragmentClause(fragment: seq<Piece>, x: seq<string>, protect: bool)
    requires |x| == SlotCount(fragment)
    ensures var ps := [Plain(" WHERE (")] + (fragment + [Plain(")")]);
            SlotCount(ps) == |x| && Fill(ps, x, protect) == WhereText(Some(Fill(fragment, x, protect)), None)
  {
    hide Fill, SlotCount;
    FillLast(fragment, ")", x, protect);
    FillPlain(" WHERE (", fragment + [Plain(")")], x, protect);
    var f := Fill(fragment, x, protect);
    assert " WHERE (" + (f + ")") == " WHERE (" + f + ")";
  }

  lemma FillWhere(s: Select, target: DorisFragment.Target)
    requires Writable(s, target)
    ensures target.Flight? ==> Renderable(Values(s), target.literal)
    ensures SlotCount(WherePieces(s)) == |Values(s)|
    ensures Fill(WherePieces(s), StyleFills(Values(s), target), target == MySql(true)) ==
            WhereText(FragmentText(s, target), ConditionTextOf(s, target))
  {
    hide Fill, SlotCount, WhereText, TokensOut, TokensValues, Render, Filled, Slots, PiecesOf, StyleFills;
    var protect := target == MySql(true);
    ValuesRenderable(s, target);
    var x, y := StyleFills(FragmentValues(s), target), StyleFills(ConditionSlots(s), target);
    if s.unsafe.Some? {
      FragmentFill(s, target);
    }
    if s.condition.Some? {
      ConditionText(s.condition.value, target, protect);
    }
    if s.unsafe.Some? && s.condition.Some? {
      FillBothClauses(TokenPieces(UnsafeTokens(s)), PiecesOf(s.condition.value), x, y, protect);
    } else if s.unsafe.Some? {
      assert x + y == x;
      FillFragmentClause(TokenPieces(UnsafeTokens(s)), x, protect);
    } else if s.condition.Some? {
      assert x + y == y;
      ConditionOnly(PiecesOf(s.condition.value), y, protect);
    } else {
      assert x + y == [];
      NoClause(protect);
    }
  }

  lemma ConditionOnly(condition: seq<Piece>, y: seq<string>, protect: bool)
    requires |y| == SlotCount(condition)
    ensures SlotCount([Plain(" WHERE ")] + condition) == |y|
    ensures Fill([Plain(" WHERE ")] + condition, y, protect) == WhereText(None, Some(Fill(condition, y, protect)))
  {
    FillPlain(" WHERE ", condition, y, protect);
  }

  lemma NoClause(protect: bool)
    ensures SlotCount([]) == 0 && Fill([], [], protect) == WhereText(None, None)
  {
  }

  /** The whole statement filled in a style. */
  lemma FillSelect(s: Select, target: DorisFragment.Target)
    requires TabletsOk(s) && Writable(s, target)
    ensures target.Flight? ==> Renderable(Values(s), target.literal)
    ensures SlotCount(SelectPieces(s)) == |Values(s)|
    ensures Fill(SelectPieces(s), StyleFills(Values(s), target), target == MySql(true)) ==
            HeadText(s) + WhereText(FragmentText(s, target), ConditionTextOf(s, target)) + LimitText(s)
  {
    hide Fill, SlotCount, WhereText, HeadText, LimitText, HeadPieces, WherePieces, StyleFills, Values, FragmentText,
      ConditionTextOf;
    var protect := target == MySql(true);
    FillWhere(s, target);
    FillHead(s, protect);
    var fills := StyleFills(Values(s), target);
    FillLast(WherePieces(s), LimitText(s), fills, protect);
    FillConcat(HeadPieces(s), WherePieces(s) + [Plain(LimitText(s))], [], fills, protect);
    assert [] + fills == fills;
    var h, w, l := HeadText(s), WhereText(FragmentText(s, target), ConditionTextOf(s, target)), LimitText(s);
    assert h + (w + l) == h + w + l;
  }

  lemma OkIsWritable(s: Select, style: Style)
    requires SelectOk(s, style)
    ensures Writable(s, TargetOf(s, style))
  {
    OkIsBound(s, style);
  }

  /** `build_select`: accepts exactly the requests described by `SelectOk`; the text is the common
      list of pieces filled in the chosen style, and only the MySQL style returns parameters. */
  method BuildSelect(s: Select, style: Style) returns (r: Result<(string, seq<Scalar>)>)
    requires s.table.Valid() && (s.condition.Some? ==> WellFormed(s.condition.value))
    ensures r.Ok? <==> SelectOk(s, style)
    ensures r.Ok? ==>
              && Writable(s, TargetOf(s, style))
              && r.value.0 == StatementText(s, TargetOf(s, style))
              && r.value.1 == if style.Mysql? then Values(s) else []
  {
    hide HeadText, WhereText, LimitText, TokensOut, TokensValues, Render, Filled, Slots;
    if !ProjectionOk(s) || !TabletsOk(s) {
      return Err(Configuration);
    }
    var sql := HeadText(s);
    var condition: Option<string>, bound: seq<Scalar> := None, [];
    if s.condition.Some? {
      var rendered := RenderCondition(s.condition.value, style);
      if rendered.Err? {
        return Err(rendered.error);
      }
      condition, bound := Some(rendered.value.0), rendered.value.1;
    }
    var fragment: Option<string>, parameters: seq<Scalar> := None, [];
    if s.unsafe.Some? {
      var target := if style.FlightSql? then Flight(style.literal) else MySql(s.parameters != [] || bound != []);
      assert target == TargetOf(s, style);
      var rendered := RenderUnsafeFragment(s.unsafe.value, s.parameters, target);
      if rendered.Err? {
        return Err(rendered.error);
      }
      fragment, parameters := Some(rendered.value.0), rendered.value.1;
    } else if s.parameters != [] {
      return Err(Configuration);
    }
    sql := sql + WhereText(fragment, condition);
    if !LimitOk(s.limit, s.countName.Some?) {
      return Err(Configuration);
    }
    OkIsWritable(s, style);
    sql := sql + LimitText(s);
    r := Ok((sql, parameters + bound));
  }

  /** The text of an accepted statement. */
  ghost function StatementText(s: Select, target: DorisFragment.Target): string
    requires TabletsOk(s) && Writable(s, target)
  {
    HeadText(s) + WhereText(FragmentText(s, target), ConditionTextOf(s, target)) + LimitText(s)
  }

  // ----- style agreement ---------------------------------------------------------------------------

  /** What PyMySQL sends: the text as it is without parameters, formatted with them otherwise. */
  function Sent(sql: string, args: seq<string>): Option<string> {
    if args == [] then Some(sql) else FormatPositional(sql, args)
  }

  /** No database, table, projected or filtered column name contains a `%`. */
  ghost predicate SelectNamesPercentFree(s: Select) {
    && PercentFree(s.table.database) && PercentFree(s.table.table)
    && (if s.countName.Some? then PercentFree(s.countName.value)
        else forall i | 0 <= i < |s.columns| :: PercentFree(s.columns[i]))
    && (s.condition.Some? ==> ColumnsPercentFree(ReferencedColumns(s.condition.value)))
  }

  /** Parameters are bound exactly when some value is. */
  lemma BindsIffValues(s: Select)
    requires SelectOk(s, Mysql)
    ensures MarkersBound(s) && (TargetOf(s, Mysql) == MySql(true) <==> Values(s) != [])
  {
    OkIsBound(s, Mysql);
    if s.unsafe.Some? {
      var ts := UnsafeTokens(s);
      ValuesCountMarks(ts, ToMap(s.parameters));
      if s.parameters != [] {
        assert s.parameters[0].0 in Keys(s.parameters) by { assert Keys(s.parameters)[0] == s.parameters[0].0; }
        assert s.parameters[0].0 in MarkNames(ts);
      }
      if MarkNames(ts) != [] {
        assert MarkNames(ts)[0] in Keys(s.parameters);
      }
    }
  }

  /** Whatever Flight accepts the MySQL style accepts too. */
  lemma FlightOkIsMysqlOk(s: Select, literal: Literals)
    requires SelectOk(s, FlightSql(literal))
    ensures SelectOk(s, Mysql)
  {
    if s.unsafe.Some? {
      var ts, m := Tokens(None, None, s.unsafe.value).value, ToMap(s.parameters);
      forall i | 0 <= i < |ts| ensures Acceptable(ts[i], m, TargetOf(s, Mysql)) {
        assert Acceptable(ts[i], m, Flight(literal));
      }
    }
  }

  lemma ProjectionNames(s: Select)
    ensures SafePieces(ProjectionPieces(s))
    ensures NamesPercentFree(ProjectionPieces(s)) <==>
            if s.countName.Some? then PercentFree(s.countName.value)
            else forall i | 0 <= i < |s.columns| :: PercentFree(s.columns[i])
  {
    if s.countName.Some? {
      OnePiece(Name(s.countName.value));
      PlainAround("count(*) AS ", [Name(s.countName.value)]);
      assert ProjectionPieces(s) == [Plain("count(*) AS ")] + [Name(s.countName.value)];
    } else {
      NameListNames(s.columns);
    }
  }

  lemma {:induction false} JoinPercentFree(parts: seq<string>)
    requires forall i | 0 <= i < |parts| :: PercentFree(parts[i])
    ensures PercentFree(Join(parts))
  {
    if |parts| > 1 {
      JoinPercentFree(parts[1..]);
    }
  }

  lemma {:induction false} TabletTextsPercentFree(ids: seq<int>)
    requires forall t | t in ids :: t > 0
    ensures forall i | 0 <= i < |TabletTexts(ids)| :: PercentFree(TabletTexts(ids)[i])
  {
    if ids != [] {
      assert ids[0] in ids && forall t | t in ids[1..] :: t in ids;
      TabletTextsPercentFree(ids[1..]);
    }
  }

  lemma FixedTextsPercentFree(s: Select)
    requires TabletsOk(s)
    ensures PercentFree(TabletText(s)) && PercentFree(LimitText(s))
  {
    if s.tablets.Some? {
      TabletTextsPercentFree(s.tablets.value);
      JoinPercentFree(TabletTexts(s.tablets.value));
    }
  }

  lemma HeadNames(s: Select)
    requires TabletsOk(s)
    ensures SafePieces(HeadPieces(s))
    ensures NamesPercentFree(HeadPieces(s)) <==>
            && PercentFree(s.table.database) && PercentFree(s.table.table)
            && if s.countName.Some? then PercentFree(s.countName.value)
               else forall i | 0 <= i < |s.columns| :: PercentFree(s.columns[i])
  {
    hide SafePieces, NamesPercentFree, ProjectionPieces, TabletText;
    var table := [Plain(" FROM "), Name(s.table.database), Plain("."), Name(s.table.table), Plain(TabletText(s))];
    FixedTextsPercentFree(s);
    ProjectionNames(s);
    TableNames(s.table, TabletText(s));
    PiecesConcat(ProjectionPieces(s), table);
    PlainAround("SELECT ", ProjectionPieces(s) + table);
  }

  lemma WhereNames(s: Select)
    requires MarkersBound(s)
    ensures SafePieces(WherePieces(s))
    ensures NamesPercentFree(WherePieces(s)) <==>
            (s.condition.Some? ==> ColumnsPercentFree(ReferencedColumns(s.condition.value)))
  {
    hide SafePieces, NamesPercentFree, ColumnsPercentFree, PiecesOf, ReferencedColumns;
    var fragment := TokenPieces(UnsafeTokens(s));
    TokenNames(UnsafeTokens(s));
    if s.condition.Some? {
      var condition := PiecesOf(s.condition.value);
      PredicateNames(s.condition.value);
      PlainAround(") AND ", condition);
      PiecesConcat(fragment, [Plain(") AND ")] + condition);
      PlainAround(" WHERE (", fragment + ([Plain(") AND ")] + condition));
      PlainAround(" WHERE ", condition);
    } else {
      PlainAround(")", fragment);
      PlainAround(" WHERE (", fragment + [Plain(")")]);
      NoPieces();
    }
  }

  lemma SelectNames(s: Select)
    requires TabletsOk(s) && MarkersBound(s)
    ensures SafePieces(SelectPieces(s))
    ensures NamesPercentFree(SelectPieces(s)) <==> SelectNamesPercentFree(s)
  {
    hide SafePieces, NamesPercentFree, ColumnsPercentFree, HeadPieces, WherePieces, LimitText;
    HeadNames(s);
    WhereNames(s);
    FixedTextsPercentFree(s);
    PlainAround(LimitText(s), WherePieces(s));
    PiecesConcat(HeadPieces(s), WherePieces(s) + [Plain(LimitText(s))]);
  }

  ghost predicate BothWritable(s: Select, literal: Literals) {
    && TabletsOk(s) && MarkersBound(s) && Renderable(Values(s), literal)
    && Writable(s, TargetOf(s, Mysql)) && Writable(s, Flight(literal))
  }

  /** What PyMySQL sends with the Flight literals of the parameters is the Flight-style statement. */
  ghost predicate StylesAgree(s: Select, literal: Literals)
    requires BothWritable(s, literal)
  {
    Sent(StatementText(s, TargetOf(s, Mysql)), LiteralTexts(Values(s), literal)) ==
      Some(StatementText(s, Flight(literal)))
  }

  /** What PyMySQL sends for the MySQL-style statement, with the Flight literals of its parameters,
      is the Flight-style statement character for character: if and only if nothing is bound or no
      identifier contains a `%`. */
  lemma StyleAgreement(s: Select, literal: Literals)
    requires SelectOk(s, FlightSql(literal))
    ensures SelectOk(s, Mysql) && BothWritable(s, literal)
    ensures StylesAgree(s, literal) <==> Values(s) == [] || SelectNamesPercentFree(s)
  {
    FlightOkIsMysqlOk(s, literal);
    OkIsWritable(s, FlightSql(literal));
    OkIsWritable(s, Mysql);
    BindsIffValues(s);
    ValuesRenderable(s, Flight(literal));
    AgreementOfFills(s, literal);
  }

  lemma AgreementOfFills(s: Select, literal: Literals)
    requires BothWritable(s, literal)
    requires TargetOf(s, Mysql) == MySql(true) <==> Values(s) != []
    ensures StylesAgree(s, literal) <==> Values(s) == [] || SelectNamesPercentFree(s)
  {
    hide HeadText, WhereText, LimitText, FragmentText, ConditionTextOf, Values, SelectPieces, Fill, SlotCount,
      FormatPositional, LiteralTexts, SelectNamesPercentFree, NamesPercentFree, Repeat;
    var args := LiteralTexts(Values(s), literal);
    FillSelect(s, TargetOf(s, Mysql));
    FillSelect(s, Flight(literal));
    SelectNames(s);
    if Values(s) == [] {
      NoFills(s, literal);
    } else {
      PositionalBindingExact(SelectPieces(s), args);
    }
  }

  lemma NoFills(s: Select, literal: Literals)
    requires MarkersBound(s) && Values(s) == [] && Renderable(Values(s), literal)
    ensures StyleFills(Values(s), TargetOf(s, Mysql)) == [] && StyleFills(Values(s), Flight(literal)) == []
            && LiteralTexts(Values(s), literal) == []
  {
  }

  /** The planning statement of a task: the same request without tablets and limit. */
  function Planning(s: Select): Select {
    s.(tablets := None, limit := None)
  }

  /** The WHERE clause of a statement in the style of `target`. */
  ghost function WhereOf(s: Select, target: DorisFragment.Target): string
    requires Writable(s, target)
  {
    WhereText(FragmentText(s, target), ConditionTextOf(s, target))
  }

  /** The planning request is accepted whenever a task is, and binds and renders the same filter. */
  lemma PlanningIsAccepted(s: Select, style: Style)
    requires SelectOk(s, style)
    ensures SelectOk(Planning(s), style) && TargetOf(Planning(s), style) == TargetOf(s, style)
    ensures Writable(s, TargetOf(s, style)) && Writable(Planning(s), TargetOf(s, style))
    ensures WhereOf(Planning(s), TargetOf(s, style)) == WhereOf(s, TargetOf(s, style))
    ensures MarkersBound(Planning(s)) && Values(Planning(s)) == Values(s)
    ensures StatementText(Planning(s), TargetOf(s, style)) == HeadText(Planning(s)) + WhereOf(s, TargetOf(s, style))
  {
    hide Tokens, TokensOut, TokensValues, Render, Filled, Slots, HeadText, WhereText, FragmentOk;
    OkIsWritable(s, style);
    OkIsWritable(Planning(s), style);
    var p, target := Planning(s), TargetOf(s, style);
    assert WhereOf(p, target) == WhereOf(s, target);
    assert HeadText(p) + WhereOf(p, target) + "" == HeadText(p) + WhereOf(p, target);
  }

  /** For any tablets and limit: what PyMySQL sends for the planning statement ends in the WHERE clause
      of the Flight task, character for character, if and only if nothing is bound or no identifier
      contains a `%`. */
  lemma PlanningCarriesFilter(s: Select, literal: Literals)
    requires SelectOk(s, FlightSql(literal))
    ensures SelectOk(Planning(s), Mysql) && BothWritable(Planning(s), literal) && Writable(s, Flight(literal))
    ensures StatementText(s, Flight(literal)) == HeadText(s) + WhereOf(s, Flight(literal)) + LimitText(s)
    ensures Sent(StatementText(Planning(s), TargetOf(Planning(s), Mysql)),
            LiteralTexts(Values(Planning(s)), literal)) ==
              Some(HeadText(Planning(s)) + WhereOf(s, Flight(literal)))
            <==> Values(Planning(s)) == [] || SelectNamesPercentFree(s)
  {
    hide HeadText, WhereText, FragmentText, ConditionTextOf, SelectOk, Values, Writable, Sent, LiteralTexts, LimitText;
    PlanningIsAccepted(s, FlightSql(literal));
    StyleAgreement(Planning(s), literal);
  }

  /** A column named `a%b` next to a bound value. */
  function PercentExample(): Select {
    Select(QualifiedTable("d", "t"), ["a%b"], Some(Compare(Eq, Column("x"), Literal(Int(1)))), None, [], None, None,
      None)
  }

  lemma ExampleAccepted(literal: Literals)
    requires literal(Int(1)).Some?
    ensures SelectOk(PercentExample(), FlightSql(literal))
  {
    var s := PercentExample();
    assert ValidColumnList(s.columns);
    assert Slots(s.condition.value) == [Int(1)];
  }

  lemma ExampleNames()
    ensures !SelectNamesPercentFree(PercentExample()) && MarkersBound(PercentExample())
            && Values(PercentExample()) == [Int(1)]
  {
    var s := PercentExample();
    assert s.columns[0] == "a%b" && !PercentFree("a%b") by { assert "a%b"[1] == '%'; }
    assert ConditionSlots(s) == [Int(1)];
  }

  lemma ExampleText(target: DorisFragment.Target)
    requires MarkersBound(PercentExample()) && Writable(PercentExample(), target)
    ensures exists rest :: StatementText(PercentExample(), target) == "SELECT `a" + ("%b" + rest)
  {
    hide WhereText, FragmentText, ConditionTextOf, LimitText, PercentExample, HeadText, Writable, MarkersBound,
      TableText;
    ExampleHead();
    var s := PercentExample();
    SplitAtPercent(TableText(s.table), WhereOf(s, target), LimitText(s));
  }

  lemma SplitAtPercent(table: string, filter: string, limit: string)
    ensures "SELECT `a%b` FROM " + table + filter + limit ==
            "SELECT `a" + ("%b" + ("` FROM " + table + filter + limit))
  {
    assert "SELECT `a%b` FROM " == "SELECT `a" + ("%b" + "` FROM ");
  }

  lemma ExampleHead()
    ensures TabletsOk(PercentExample())
    ensures HeadText(PercentExample()) == "SELECT `a%b` FROM " + TableText(PercentExample().table)
  {
    assert Quote("a%b") == "`a%b`";
    assert QuotedList(PercentExample().columns) == ["`a%b`"];
  }

  /** Both styles accept that request, but PyMySQL cannot format it: only the Flight-style statement
      can be sent. */
  lemma PercentNameDisagrees(literal: Literals)
    requires literal(Int(1)).Some?
    ensures var s := PercentExample();
            && SelectOk(s, FlightSql(literal)) && SelectOk(s, Mysql)
            && BothWritable(s, literal) && !StylesAgree(s, literal)
            && Sent(StatementText(s, TargetOf(s, Mysql)), LiteralTexts(Values(s), literal)) == None
  {
    hide PercentExample, SelectOk, SelectNamesPercentFree, Values, StatementText, Writable, MarkersBound, TabletsOk,
      TargetOf;
    var s := PercentExample();
    ExampleAccepted(literal);
    ExampleNames();
    StyleAgreement(s, literal);
    ExampleText(TargetOf(s, Mysql));
    var rest :| StatementText(s, TargetOf(s, Mysql)) == "SELECT `a" + ("%b" + rest);
    var args := LiteralTexts(Values(s), literal);
    FormatPlain("SELECT `a", "%b" + rest, args);
    assert FormatSome("%b" + rest, args) == None;
  }
}
