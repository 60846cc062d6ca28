/** ClickHouse SELECT construction: projection with casts, the three kinds of named parameters,
    and the clauses of the WHERE condition. */
module ClickHouseSql {
  import opened Wrappers
  import opened Sequences
  import opened PredicateIr
  import opened Identifiers
  import opened PredicateText
  import opened SqlText
  import opened PredicatePieces
  import opened SelectText
  import opened FragmentTokens
  import opened ClickHouseFragment
  import opened NamedBinding
  import TransportTypes

  datatype Select = Select(
    table: QualifiedTable,
    columns: seq<string>,
    condition: Option<Predicate>,
    unsafe: Option<string>,
    parameters: seq<(string, Scalar)>,
    partitions: Option<seq<string>>,
    limit: Option<int>,
    countName: Option<string>,
    projection: Option<seq<(string, Option<string>)>>)

  // ----- the projection ---------------------------------------------------------------------

  predicate ColumnOk(column: (string, Option<string>)) {
    ValidIdentifier(column.0) && (column.1.Some? ==> TransportTypes.Valid(column.1.value))
  }

  function ColumnNames(projection: seq<(string, Option<string>)>): seq<string> {
    seq(|projection|, i requires 0 <= i < |projection| => projection[i].0)
  }

  predicate ProjectionOk(s: Select) {
    if s.countName.Some? then ValidIdentifier(s.countName.value)
    else if s.projection.None? then ValidColumnList(s.columns)
    else
      && ColumnNames(s.projection.value) == s.columns
      && forall i | 0 <= i < |s.projection.value| :: ColumnOk(s.projection.value[i])
  }

  function ColumnText(column: (string, Option<string>)): string {
    if column.1.None? then Quote(column.0)
    else "CAST(" + Quote(column.0) + " AS " + column.1.value + ") AS " + Quote(column.0)
  }

  function ColumnTexts(projection: seq<(string, Option<string>)>): seq<string> {
    seq(|projection|, i requires 0 <= i < |projection| => ColumnText(projection[i]))
  }

  function ProjectionText(s: Select): string {
    if s.countName.Some? then "count() AS " + Quote(s.countName.value)
    else if s.projection.None? then Join(QuotedList(s.columns))
    else Join(ColumnTexts(s.projection.value))
  }

  ghost predicate ColumnsOk(projection: seq<(string, Option<string>)>) {
    forall i | 0 <= i < |projection| :: ColumnOk(projection[i])
  }

  /** The cast expressions of a projection. */
  method RenderColumns(projection: seq<(string, Option<string>)>) returns (r: Result<seq<string>>)
    ensures r.Ok? <==> ColumnsOk(projection)
    ensures r.Ok? ==> r.value == ColumnTexts(projection)
  {
    hide TransportTypes.Valid, ColumnText;
    var expressions: seq<string> := [];
    for i := 0 to |projection|
      invariant expressions == ColumnTexts(projection[..i])
      invariant forall j | 0 <= j < i :: ColumnOk(projection[j])
    {
      if !ValidIdentifier(projection[i].0) {
        return Err(Configuration);
      }
      if projection[i].1.Some? && !TransportTypes.Valid(projection[i].1.value) {
        return Err(Schema);
      }
      expressions := expressions + [ColumnText(projection[i])];
    }
    assert projection[..|projection|] == projection;
    r := Ok(expressions);
  }

  /** `_render_projection`. */
  method RenderProjection(s: Select) returns (r: Result<string>)
    ensures r.Ok? <==> ProjectionOk(s)
    ensures r.Ok? ==> r.value == ProjectionText(s)
  {
    hide ValidColumnList, ValidIdentifier, Join, Quote, ColumnTexts, QuotedList, ColumnNames, ColumnOk;
    if s.countName.Some? {
      return if ValidIdentifier(s.countName.value) then Ok("count() AS " + Quote(s.countName.value))
        else Err(Configuration);
    }
    if s.projection.None? {
      return if ValidColumnList(s.columns) then Ok(Join(QuotedList(s.columns))) else Err(Configuration);
    }
    if ColumnNames(s.projection.value) != s.columns {
      return Err(Configuration);
    }
    var expressions := RenderColumns(s.projection.value);
    if expressions.Err? {
      return Err(expressions.error);
    }
    r := Ok(Join(expressions.value));
  }

  function ColumnPieces(column: (string, Option<string>)): seq<Piece> {
    if column.1.None? then [Name(column.0)]
    else [Plain("CAST("), Name(column.0), Plain(" AS "), Cast(column.1.value), Name(column.0)]
  }

  function ColumnListPieces(projection: seq<(string, Option<string>)>): seq<Piece> {
    if projection == [] then []
    else if |projection| == 1 then ColumnPieces(projection[0])
    else ColumnPieces(projection[0]) + ([Plain(", ")] + ColumnListPieces(projection[1..]))
  }

  function ProjectionPieces(s: Select): seq<Piece> {
    if s.countName.Some? then [Plain("count() AS "), Name(s.countName.value)]
    else if s.projection.None? then NameList(s.columns)
    else ColumnListPieces(s.projection.value)
  }

  lemma OneName(name: string, protect: bool)
    ensures SlotCount([Name(name)]) == 0 && Fill([Name(name)], [], protect) == Quote(name)
  {
    FillName(name, [], [], protect);
    assert [Name(name)] + [] == [Name(name)];
    assert Quote(name) + "" == Quote(name);
  }

  lemma FillCast(typeText: string, rest: seq<Piece>, protect: bool)
    requires SlotCount(rest) == 0
    ensures SlotCount([Cast(typeText)] + rest) == 0
    ensures Fill([Cast(typeText)] + rest, [], protect) == typeText + ") AS " + Fill(rest, [], protect)
  {
    assert ([Cast(typeText)] + rest)[1..] == rest;
  }

  lemma FillColumn(column: (string, Option<string>), protect: bool)
    ensures SlotCount(ColumnPieces(column)) == 0 && Fill(ColumnPieces(column), [], protect) == ColumnText(column)
  {
    hide Fill, SlotCount, Quote;
    var name := column.0;
    OneName(name, protect);
    if column.1.Some? {
      var t := column.1.value;
      FillCast(t, [Name(name)], protect);
      FillPlain(" AS ", [Cast(t)] + [Name(name)], [], protect);
      FillName(name, [Plain(" AS ")] + ([Cast(t)] + [Name(name)]), [], protect);
      FillPlain("CAST(", [Name(name)] + ([Plain(" AS ")] + ([Cast(t)] + [Name(name)])), [], protect);
      assert ColumnPieces(column) == [Plain("CAST(")] + ([Name(name)] + ([Plain(" AS ")] + ([Cast(t)] + [Name(name)])));
      var q := Quote(name);
      assert "CAST(" + (q + (" AS " + (t + ") AS " + q))) == "CAST(" + q + " AS " + t + ") AS " + q;
    }
  }

  lemma {:induction false} FillColumns(projection: seq<(string, Option<string>)>, protect: bool)
    ensures SlotCount(ColumnListPieces(projection)) == 0
    ensures Fill(ColumnListPieces(projection), [], protect) == Join(ColumnTexts(projection))
  {
    hide ColumnPieces, ColumnText;
    if projection != [] {
      FillColumn(projection[0], protect);
      if |projection| > 1 {
        FillColumns(projection[1..], protect);
        var rest := ColumnListPieces(projection[1..]);
        FillPlain(", ", rest, [], protect);
        FillConcat(ColumnPieces(projection[0]), [Plain(", ")] + rest, [], [], protect);
        NothingAdded();
        assert ColumnTexts(projection)[1..] == ColumnTexts(projection[1..]);
        var first, more := ColumnText(projection[0]), Join(ColumnTexts(projection[1..]));
        assert first + (", " + more) == first + ", " + more;
      }
    }
  }

  lemma FillProjection(s: Select, protect: bool)
    ensures SlotCount(ProjectionPieces(s)) == 0 && Fill(ProjectionPieces(s), [], protect) == ProjectionText(s)
  {
    hide Fill, SlotCount;
    if s.countName.Some? {
      var name := s.countName.value;
      OneName(name, protect);
      FillPlain("count() AS ", [Name(name)], [], protect);
      assert ProjectionPieces(s) == [Plain("count() AS ")] + [Name(name)];
    } else if s.projection.None? {
      FillNames(s.columns, protect);
    } else {
      FillColumns(s.projection.value, protect);
    }
  }

  // ----- parameters ---------------------------------------------------------------------------

  /** The generated name of the j-th partition parameter. */
  function PartitionName(j: nat): string {
    PARAMETER_PREFIX + "partition_" + Digits(j)
  }

  function PartitionDictionary(ids: seq<string>): map<string, Scalar> {
    if ids == [] then map[]
    else PartitionDictionary(ids[..|ids| - 1])[PartitionName(|ids| - 1) := Text(ids[|ids| - 1])]
  }

  function PartitionIds(s: Select): seq<string> {
    if s.partitions.Some? then s.partitions.value else []
  }

  function ConditionSlots(s: Select): seq<Scalar> {
    if s.condition.Some? then Slots(s.condition.value) else []
  }

  /** The returned dictionary: user, predicate and partition parameters. */
  function Parameters(s: Select): map<string, Scalar> {
    ToMap(s.parameters) + Dictionary(ConditionSlots(s), 0) + PartitionDictionary(PartitionIds(s))
  }

  /** Names and values in step, and the dictionary agrees. */
  ghost predicate Valued(keys: seq<string>, values: seq<Scalar>, m: map<string, Scalar>) {
    |keys| == |values| && forall i | 0 <= i < |keys| :: keys[i] in m && m[keys[i]] == values[i]
  }

  function ConditionKeys(n: nat): (r: seq<string>)
    ensures |r| == n && forall i | 0 <= i < n :: r[i] == ParameterName(i)
  {
    seq(n, i requires 0 <= i < n => ParameterName(i))
  }

  function PartitionKeys(n: nat): (r: seq<string>)
    ensures |r| == n && forall i | 0 <= i < n :: r[i] == PartitionName(i)
  {
    seq(n, i requires 0 <= i < n => PartitionName(i))
  }

  function PartitionValues(ids: seq<string>): (r: seq<Scalar>)
    ensures |r| == |ids| && forall i | 0 <= i < |ids| :: r[i] == Text(ids[i])
  {
    seq(|ids|, i requires 0 <= i < |ids| => Text(ids[i]))
  }

  predicate Reserved(name: string) {
    PARAMETER_PREFIX <= name
  }

  lemma PartitionNamesDistinct(i: nat, j: nat)
    ensures PartitionName(i) == PartitionName(j) <==> i == j
    ensures PartitionName(i) != ParameterName(j)
    ensures Reserved(PartitionName(i)) && Reserved(ParameterName(j))
  {
    var n := |PARAMETER_PREFIX|;
    assert PartitionName(i)[n..] == "partition_" + Digits(i);
    assert PartitionName(j)[n..] == "partition_" + Digits(j);
    assert PartitionName(i)[n..][10..] == Digits(i) && PartitionName(j)[n..][10..] == Digits(j);
    DigitsInvert(i);
    DigitsInvert(j);
    assert ParameterName(j)[n..] == Digits(j);
    assert Digits(j)[0] in Digits(j) && PartitionName(i)[n..][0] == 'p';
  }

  /** The predicate's dictionary holds exactly its numbered names. */
  lemma {:induction false} DictionaryExact(values: seq<Scalar>)
    ensures Valued(ConditionKeys(|values|), values, Dictionary(values, 0))
    ensures Dictionary(values, 0).Keys == (set k | k in ConditionKeys(|values|))
    ensures |Dictionary(values, 0)| == |values|
  {
    var keys := ConditionKeys(|values|);
    forall i | 0 <= i < |values| ensures keys[i] in Dictionary(values, 0)
      && Dictionary(values, 0)[keys[i]] == values[i] {
      DictionaryHas(values, 0, i);
      assert HasParameter(Dictionary(values, 0), 0 + i, values[i]);
    }
    if values != [] {
      var n := |values| - 1;
      DictionaryExact(values[..n]);
      assert keys == ConditionKeys(n) + [ParameterName(n)];
      forall i | 0 <= i < n ensures ParameterName(i) != ParameterName(n) {
        ParameterNamesDistinct(i, n);
      }
      assert Dictionary(values, 0).Keys == Dictionary(values[..n], 0).Keys + {ParameterName(n)};
      assert ParameterName(n) !in Dictionary(values[..n], 0).Keys;
    }
  }

  lemma PartitionFresh(n: nat)
    ensures PartitionName(n) !in PartitionKeys(n)
    ensures PartitionKeys(n + 1) == PartitionKeys(n) + [PartitionName(n)]
  {
    hide PartitionName;
    forall i | 0 <= i < n ensures PartitionName(i) != PartitionName(n) {
      PartitionNamesDistinct(i, n);
    }
  }

  lemma {:induction false} PartitionKeySet(ids: seq<string>)
    ensures PartitionDictionary(ids).Keys == (set k | k in PartitionKeys(|ids|))
    ensures |PartitionDictionary(ids)| == |ids|
  {
    hide PartitionName, PartitionKeys;
    if ids == [] {
      assert PartitionKeys(0) == [];
    } else {
      var n := |ids| - 1;
      var front := PartitionDictionary(ids[..n]);
      PartitionKeySet(ids[..n]);
      PartitionFresh(n);
      assert front[PartitionName(n) := Text(ids[n])].Keys == front.Keys + {PartitionName(n)};
    }
  }

  lemma {:induction false} PartitionHas(ids: seq<string>, i: nat)
    requires i < |ids|
    ensures PartitionName(i) in PartitionDictionary(ids) && PartitionDictionary(ids)[PartitionName(i)] == Text(ids[i])
    decreases |ids|
  {
    hide PartitionName;
    var n := |ids| - 1;
    if i < n {
      PartitionHas(ids[..n], i);
      PartitionNamesDistinct(i, n);
    }
  }

  lemma PartitionDictionaryExact(ids: seq<string>)
    ensures Valued(PartitionKeys(|ids|), PartitionValues(ids), PartitionDictionary(ids))
    ensures PartitionDictionary(ids).Keys == (set k | k in PartitionKeys(|ids|))
    ensures |PartitionDictionary(ids)| == |ids|
  {
    hide PartitionName, PartitionDictionary;
    PartitionKeySet(ids);
    forall i | 0 <= i < |ids| ensures PartitionKeys(|ids|)[i] in PartitionDictionary(ids)
      && PartitionDictionary(ids)[PartitionKeys(|ids|)[i]] == Text(ids[i]) {
      PartitionHas(ids, i);
    }
  }

  predicate NamesOk(parameters: seq<(string, Scalar)>) {
    Distinct(Keys(parameters)) && forall i | 0 <= i < |parameters| :: !Reserved(parameters[i].0)
  }

  lemma UserExact(parameters: seq<(string, Scalar)>)
    requires Distinct(Keys(parameters))
    ensures forall i | 0 <= i < |parameters| :: ToMap(parameters)[Keys(parameters)[i]] == parameters[i].1
    ensures |ToMap(parameters)| == |parameters|
  {
    hide ToMap, Distinct;
    forall i | 0 <= i < |parameters| ensures ToMap(parameters)[Keys(parameters)[i]] == parameters[i].1 {
      ToMapHas(parameters, i);
    }
    ToMapSize(parameters);
  }

  ghost predicate Apart(a: map<string, Scalar>, b: map<string, Scalar>) {
    a.Keys !! b.Keys
  }

  lemma KindsApart(s: Select)
    requires NamesOk(s.parameters)
    ensures Apart(ToMap(s.parameters), Dictionary(ConditionSlots(s), 0))
    ensures Apart(ToMap(s.parameters), PartitionDictionary(PartitionIds(s)))
    ensures Apart(Dictionary(ConditionSlots(s), 0), PartitionDictionary(PartitionIds(s)))
  {
    hide PartitionName, ParameterName, Reserved, ToMap, Dictionary, PartitionDictionary, ConditionSlots, PartitionIds,
      NamesOk;
    var a, b, c := ToMap(s.parameters), Dictionary(ConditionSlots(s), 0), PartitionDictionary(PartitionIds(s));
    UserNamesFree(s);
    ConditionNames(ConditionSlots(s));
    PartitionNames(PartitionIds(s));
    forall k | k in b ensures k !in a && k !in c {
      var j :| k == ParameterName(j);
      PartitionNamesDistinct(0, j);
      forall i: nat ensures PartitionName(i) != k {
        PartitionNamesDistinct(i, j);
      }
    }
    forall k | k in c ensures k !in a {
      var i :| k == PartitionName(i);
      PartitionNamesDistinct(i, 0);
    }
  }

  lemma UserNamesFree(s: Select)
    requires NamesOk(s.parameters)
    ensures forall k | k in ToMap(s.parameters) :: !Reserved(k)
  {
    hide ToMap, Reserved, Distinct;
    forall k | k in ToMap(s.parameters) ensures !Reserved(k) {
      var i :| 0 <= i < |s.parameters| && Keys(s.parameters)[i] == k;
      assert !Reserved(s.parameters[i].0);
    }
  }

  lemma ConditionNames(values: seq<Scalar>)
    ensures forall k | k in Dictionary(values, 0) :: exists j: nat :: k == ParameterName(j)
  {
    hide Dictionary, ParameterName;
    DictionaryExact(values);
    forall k | k in Dictionary(values, 0) ensures exists j: nat :: k == ParameterName(j) {
      assert k in Dictionary(values, 0).Keys;
      assert k in ConditionKeys(|values|);
    }
  }

  lemma PartitionNames(ids: seq<string>)
    ensures forall k | k in PartitionDictionary(ids) :: exists j: nat :: k == PartitionName(j)
  {
    hide PartitionDictionary, PartitionName;
    PartitionDictionaryExact(ids);
    forall k | k in PartitionDictionary(ids) ensures exists j: nat :: k == PartitionName(j) {
      assert k in PartitionDictionary(ids).Keys;
      assert k in PartitionKeys(|ids|);
    }
  }

  lemma UnionSize(a: map<string, Scalar>, b: map<string, Scalar>, c: map<string, Scalar>)
    requires Apart(a, b) && Apart(a, c) && Apart(b, c)
    ensures |a + b + c| == |a| + |b| + |c|
    ensures forall k | k in a :: k in a + b + c && (a + b + c)[k] == a[k]
    ensures forall k | k in b :: k in a + b + c && (a + b + c)[k] == b[k]
    ensures forall k | k in c :: k in a + b + c && (a + b + c)[k] == c[k]
  {
    assert (a + b).Keys == a.Keys + b.Keys;
    assert (a + b + c).Keys == (a + b).Keys + c.Keys;
    assert (a + b).Keys !! c.Keys;
  }

  /** User, predicate and partition names never collide: nothing is overwritten, and every parameter
      keeps its own value. */
  lemma ParametersNeverCollide(s: Select)
    requires NamesOk(s.parameters)
    ensures |Parameters(s)| == |s.parameters| + |ConditionSlots(s)| + |PartitionIds(s)|
    ensures forall i | 0 <= i < |s.parameters| ::
              Keys(s.parameters)[i] in Parameters(s) && Parameters(s)[Keys(s.parameters)[i]] == s.parameters[i].1
    ensures Valued(ConditionKeys(|ConditionSlots(s)|), ConditionSlots(s), Parameters(s))
    ensures Valued(PartitionKeys(|PartitionIds(s)|), PartitionValues(PartitionIds(s)), Parameters(s))
  {
    hide PartitionName, ParameterName, ToMap, Dictionary, PartitionDictionary, ConditionSlots, PartitionIds, Valued,
      Distinct;
    var a, b, c := ToMap(s.parameters), Dictionary(ConditionSlots(s), 0), PartitionDictionary(PartitionIds(s));
    KindsApart(s);
    UserExact(s.parameters);
    DictionaryExact(ConditionSlots(s));
    PartitionDictionaryExact(PartitionIds(s));
    UnionSize(a, b, c);
    StillValued(ConditionKeys(|ConditionSlots(s)|), ConditionSlots(s), b, Parameters(s));
    StillValued(PartitionKeys(|PartitionIds(s)|), PartitionValues(PartitionIds(s)), c, Parameters(s));
  }

  lemma StillValued(keys: seq<string>, values: seq<Scalar>, m: map<string, Scalar>, all: map<string, Scalar>)
    requires Valued(keys, values, m) && forall k | k in m :: k in all && all[k] == m[k]
    ensures Valued(keys, values, all)
  {
  }

  // ----- clauses ---------------------------------------------------------------------------------

  /** A clause of the WHERE condition, and the key of each of its slots. */
  datatype Clause = Clause(pieces: seq<Piece>, keys: seq<string>)

  function FragmentClause(fragment: string): Clause {
    Clause([Plain("(")] + (TokenPieces(Tokens(fragment)) + [Plain(")")]), MarkNames(Tokens(fragment)))
  }

  function ConditionClause(p: Predicate): Clause {
    Clause(PiecesOf(p), ConditionKeys(|Slots(p)|))
  }

  function PartitionClause(ids: seq<string>): Clause {
    Clause([Plain("(_partition_id IN (")] + (SlotList(|ids|) + [Plain("))")]), PartitionKeys(|ids|))
  }

  /** Fragment, predicate and partition restriction, as far as present. */
  function Clauses(s: Select): seq<Clause> {
    (if s.unsafe.Some? then [FragmentClause(s.unsafe.value)] else []) +
    (if s.condition.Some? then [ConditionClause(s.condition.value)] else []) +
    (if s.partitions.Some? then [PartitionClause(s.partitions.value)] else [])
  }

  ghost predicate Matched(c: Clause) {
    |c.keys| == SlotCount(c.pieces)
  }

  ghost predicate AllMatched(cs: seq<Clause>) {
    forall i | 0 <= i < |cs| :: Matched(cs[i])
  }

  ghost function ClauseText(c: Clause, bind: bool): string
    requires Matched(c)
  {
    Fill(c.pieces, Placeholders(c.keys), bind)
  }

  ghost function ClauseTexts(cs: seq<Clause>, bind: bool): (r: seq<string>)
    requires AllMatched(cs)
    ensures |r| == |cs| && forall i | 0 <= i < |cs| :: r[i] == ClauseText(cs[i], bind)
  {
    seq(|cs|, i requires 0 <= i < |cs| => ClauseText(cs[i], bind))
  }

  /** `" AND ".join(clauses)`. */
  function AndJoin(texts: seq<string>): string {
    if texts == [] then "" else if |texts| == 1 then texts[0]
    else texts[0] + " AND " + AndJoin(texts[1..])
  }

  function AndPieces(cs: seq<Clause>): seq<Piece> {
    if cs == [] then [] else if |cs| == 1 then cs[0].pieces
    else cs[0].pieces + ([Plain(" AND ")] + AndPieces(cs[1..]))
  }

  function AllKeys(cs: seq<Clause>): seq<string> {
    if cs == [] then [] else cs[0].keys + AllKeys(cs[1..])
  }

  lemma PlaceholdersConcat(a: seq<string>, b: seq<string>)
    ensures Placeholders(a + b) == Placeholders(a) + Placeholders(b)
  {
  }

  lemma {:induction false} FillAnd(cs: seq<Clause>, bind: bool)
    requires AllMatched(cs)
    ensures SlotCount(AndPieces(cs)) == |AllKeys(cs)|
    ensures Fill(AndPieces(cs), Placeholders(AllKeys(cs)), bind) == AndJoin(ClauseTexts(cs, bind))
  {
    hide Fill, SlotCount, Placeholder;
    if cs == [] {
      EmptyFill(bind);
      assert Placeholders([]) == [];
    } else if |cs| == 1 {
      assert AllKeys(cs[1..]) == [];
      assert cs[0].keys + [] == cs[0].keys;
      assert Matched(cs[0]);
    } else {
      var rest := cs[1..];
      FillAnd(rest, bind);
      assert Matched(cs[0]);
      assert ClauseTexts(cs, bind)[1..] == ClauseTexts(rest, bind);
      FillPlain(" AND ", AndPieces(rest), Placeholders(AllKeys(rest)), bind);
      PlaceholdersConcat(cs[0].keys, AllKeys(rest));
      FillConcat(cs[0].pieces, [Plain(" AND ")] + AndPieces(rest), Placeholders(cs[0].keys),
        Placeholders(AllKeys(rest)), bind);
      var first, more := ClauseText(cs[0], bind), AndJoin(ClauseTexts(rest, bind));
      assert first + (" AND " + more) == first + " AND " + more;
    }
  }

  // ----- each clause is rendered as its pieces -----------------------------------------------------

  lemma {:induction false} FillMarks(ts: seq<Token>, bind: bool)
    ensures SlotCount(TokenPieces(ts)) == |MarkNames(ts)|
    ensures Fill(TokenPieces(ts), Placeholders(MarkNames(ts)), bind) == TokensOut(ts, bind)
  {
    if ts != [] {
      FillMarks(ts[1..], bind);
      assert TokenPieces(ts)[1..] == TokenPieces(ts[1..]);
      if ts[0].Mark? {
        assert Placeholders(MarkNames(ts))[1..] == Placeholders(MarkNames(ts[1..]));
      }
    }
  }

  lemma FillParenthesised(open: string, pieces: seq<Piece>, close: string, fills: seq<string>, bind: bool)
    requires |fills| == SlotCount(pieces)
    ensures SlotCount([Plain(open)] + (pieces + [Plain(close)])) == |fills|
    ensures Fill([Plain(open)] + (pieces + [Plain(close)]), fills, bind) == open + Fill(pieces, fills, bind) + close
  {
    hide Fill, SlotCount;
    FillLast(pieces, close, fills, bind);
    FillPlain(open, pieces + [Plain(close)], fills, bind);
    var t := Fill(pieces, fills, bind);
    assert open + (t + close) == open + t + close;
  }

  lemma FragmentClauseText(fragment: string, bind: bool)
    ensures Matched(FragmentClause(fragment))
    ensures ClauseText(FragmentClause(fragment), bind) == "(" + TokensOut(Tokens(fragment), bind) + ")"
  {
    hide Fill, SlotCount, Tokens, TokensOut;
    FillMarks(Tokens(fragment), bind);
    FillParenthesised("(", TokenPieces(Tokens(fragment)), ")", Placeholders(MarkNames(Tokens(fragment))), bind);
  }

  lemma ConditionClauseText(p: Predicate, bind: bool)
    ensures Matched(ConditionClause(p))
    ensures ClauseText(ConditionClause(p), bind) == Render(p, Named, 0)
  {
    hide Fill, SlotCount, PiecesOf, Slots, Render, Filled, Placeholder, ParameterName;
    var keys := ConditionKeys(|Slots(p)|);
    assert Markers(Named, 0, |Slots(p)|) == Placeholders(keys);
    RenderIsFilled(p, Named, 0);
    FillPredicate(p, Placeholders(keys), bind);
  }

  lemma PartitionClauseText(ids: seq<string>, bind: bool)
    ensures Matched(PartitionClause(ids))
    ensures ClauseText(PartitionClause(ids), bind) == "(_partition_id IN (" + Join(Placeholders(PartitionKeys(|ids|)))
            + "))"
  {
    hide Fill, SlotCount;
    var fills := Placeholders(PartitionKeys(|ids|));
    FillSlotList(fills, bind);
    FillParenthesised("(_partition_id IN (", SlotList(|ids|), "))", fills, bind);
  }

  lemma ClausesMatched(s: Select)
    ensures AllMatched(Clauses(s))
  {
    hide Matched, FragmentClause, ConditionClause, PartitionClause;
    if s.unsafe.Some? {
      FragmentClauseText(s.unsafe.value, true);
    }
    if s.condition.Some? {
      ConditionClauseText(s.condition.value, true);
    }
    if s.partitions.Some? {
      PartitionClauseText(s.partitions.value, true);
    }
  }

  // ----- the statement ---------------------------------------------------------------------------

  function LimitText(s: Select): string {
    if LimitOk(s.limit, s.countName.Some?) then LimitClause(s.limit, s.countName.Some?) else ""
  }

  function HeadText(s: Select): string {
    "SELECT " + ProjectionText(s) + " FROM " + TableText(s.table)
  }

  function HeadPieces(s: Select): seq<Piece> {
    [Plain("SELECT ")]
      + (ProjectionPieces(s) + [Plain(" FROM "), Name(s.table.database), Plain("."), Name(s.table.table), Plain("")])
  }

  function WherePieces(cs: seq<Clause>): seq<Piece> {
    if cs == [] then [] else [Plain(" WHERE ")] + AndPieces(cs)
  }

  function WhereText(texts: seq<string>): string {
    if texts == [] then "" else " WHERE " + AndJoin(texts)
  }

  function SelectPieces(s: Select): seq<Piece> {
    HeadPieces(s) + (WherePieces(Clauses(s)) + [Plain(LimitText(s))])
  }

  /** The key of every placeholder of the statement, in order. */
  function SlotKeys(s: Select): seq<string> {
    AllKeys(Clauses(s))
  }

  lemma FillHead(s: Select, protect: bool)
    ensures SlotCount(HeadPieces(s)) == 0 && Fill(HeadPieces(s), [], protect) == HeadText(s)
  {
    hide Fill, SlotCount, ProjectionPieces, ProjectionText, TableText;
    var table := [Plain(" FROM "), Name(s.table.database), Plain("."), Name(s.table.table), Plain("")];
    FillProjection(s, protect);
    FillTable(s.table, "", protect);
    FillConcat(ProjectionPieces(s), table, [], [], protect);
    NothingAdded();
    FillPlain("SELECT ", ProjectionPieces(s) + table, [], protect);
    var p, t := ProjectionText(s), TableText(s.table);
    assert "SELECT " + (p + (" FROM " + t + "")) == "SELECT " + p + " FROM " + t;
  }

  lemma FillWhere(cs: seq<Clause>, bind: bool)
    requires AllMatched(cs)
    ensures SlotCount(WherePieces(cs)) == |AllKeys(cs)|
    ensures Fill(WherePieces(cs), Placeholders(AllKeys(cs)), bind) == WhereText(ClauseTexts(cs, bind))
  {
    hide Fill, SlotCount, AndPieces, AndJoin, Placeholder;
    if cs == [] {
      EmptyFill(bind);
      assert Placeholders([]) == [];
    } else {
      FillAnd(cs, bind);
      FillPlain(" WHERE ", AndPieces(cs), Placeholders(AllKeys(cs)), bind);
    }
  }

  lemma FillSelect(s: Select, bind: bool)
    ensures SlotCount(SelectPieces(s)) == |SlotKeys(s)| && AllMatched(Clauses(s))
    ensures Fill(SelectPieces(s), Placeholders(SlotKeys(s)), bind) == HeadText(s)
            + WhereText(ClauseTexts(Clauses(s), bind)) + LimitText(s)
  {
    hide Fill, SlotCount, HeadPieces, HeadText, WherePieces, WhereText, LimitText, Clauses, AllMatched, AllKeys,
      Placeholders, ClauseTexts;
    ClausesMatched(s);
    var fills := Placeholders(SlotKeys(s));
    FillHead(s, bind);
    FillWhere(Clauses(s), bind);
    FillLast(WherePieces(Clauses(s)), LimitText(s), fills, bind);
    FillConcat(HeadPieces(s), WherePieces(Clauses(s)) + [Plain(LimitText(s))], [], fills, bind);
    assert [] + fills == fills;
    var h, w, l := HeadText(s), WhereText(ClauseTexts(Clauses(s), bind)), LimitText(s);
    assert h + (w + l) == h + w + l;
  }

  ghost predicate SelectOk(s: Select) {
    && NamesOk(s.parameters)
    && ProjectionOk(s)
    && (s.condition.Some? ==> NullFree(s.condition.value))
    && (s.partitions.Some? ==> s.partitions.value != [])
    && (if s.unsafe.Some? then FragmentOk(s.unsafe.value, s.parameters) else s.parameters == [])
    && LimitOk(s.limit, s.countName.Some?)
  }

  /** The statement: every slot holds the placeholder of its key. */
  ghost function StatementText(s: Select): string {
    FillSelect(s, Parameters(s) != map[]);
    Fill(SelectPieces(s), Placeholders(SlotKeys(s)), Parameters(s) != map[])
  }

  // ----- construction ------------------------------------------------------------------------------

  /** `_render_partition_clause`: adds one parameter per id. */
  method RenderPartitionClause(ids: seq<string>, before: map<string, Scalar>)
    returns (r: Result<string>, parameters: map<string, Scalar>)
    ensures r.Ok? <==> ids != []
    ensures r.Ok? ==> r.value == "(_partition_id IN (" + Join(Placeholders(PartitionKeys(|ids|))) + "))"
    ensures r.Ok? ==> parameters == before + PartitionDictionary(ids)
    ensures r.Err? ==> r.error == Configuration
  {
    parameters := before;
    if ids == [] {
      return Err(Configuration), parameters;
    }
    var placeholders: seq<string> := [];
    for i := 0 to |ids|
      invariant placeholders == Placeholders(PartitionKeys(i))
      invariant parameters == before + PartitionDictionary(ids[..i])
    {
      var key := PartitionName(|placeholders|);
      parameters := parameters[key := Text(ids[i])];
      placeholders := placeholders + [Placeholder(key)];
      assert ids[..i + 1][..i] == ids[..i];
    }
    assert ids[..|ids|] == ids;
    r := Ok("(_partition_id IN (" + Join(placeholders) + "))");
  }

  /** `render_predicate`. */
  method RenderCondition(p: Predicate) returns (r: Result<(string, map<string, Scalar>)>)
    requires WellFormed(p)
    ensures r.Ok? <==> NullFree(p)
    ensures r.Ok? ==> r.value == (Render(p, Named, 0), Dictionary(Slots(p), 0))
    ensures r.Err? ==> r.error == UnsupportedPredicate
  {
    var renderer := new Renderer(Named);
    var text := renderer.RenderPredicate(p);
    if text.Err? {
      return Err(text.error);
    }
    assert [] + Slots(p) == Slots(p);
    r := Ok((text.value, Dictionary(renderer.parameters, 0)));
  }

  /** The texts of the clauses that are present. */
  ghost function Present(fragment: Option<string>, condition: Option<string>, partition: Option<string>): seq<string> {
    (if fragment.Some? then [fragment.value] else []) + (if condition.Some? then [condition.value] else []) +
    (if partition.Some? then [partition.value] else [])
  }

  lemma PresentTexts(s: Select, bind: bool)
    ensures AllMatched(Clauses(s))
    ensures ClauseTexts(Clauses(s), bind) == Present(
      if s.unsafe.Some? then Some("(" + TokensOut(Tokens(s.unsafe.value), bind) + ")") else None,
      if s.condition.Some? then Some(Render(s.condition.value, Named, 0)) else None,
      if s.partitions.Some? then Some("(_partition_id IN (" + Join(Placeholders(PartitionKeys(|s.partitions.value|)))
        + "))") else None)
  {
    hide Matched, FragmentClause, ConditionClause, PartitionClause, ClauseText, TokensOut, Tokens, Render, Join,
      Placeholders, PartitionKeys;
    ClausesMatched(s);
    if s.unsafe.Some? {
      FragmentClauseText(s.unsafe.value, bind);
    }
    if s.condition.Some? {
      ConditionClauseText(s.condition.value, bind);
    }
    if s.partitions.Some? {
      PartitionClauseText(s.partitions.value, bind);
    }
  }

  /** The clauses and the dictionary of a request. */
  method RenderClauses(s: Select) returns (r: Result<(seq<string>, map<string, Scalar>)>)
    requires s.condition.Some? ==> WellFormed(s.condition.value)
    ensures r.Ok? <==>
            && (s.condition.Some? ==> NullFree(s.condition.value))
            && (s.partitions.Some? ==> s.partitions.value != [])
            && (if s.unsafe.Some? then FragmentOk(s.unsafe.value, s.parameters) else s.parameters == [])
    ensures r.Ok? ==>
            r.value.1 == Parameters(s) && AllMatched(Clauses(s))
            && r.value.0 == ClauseTexts(Clauses(s), Parameters(s) != map[])
  {
    hide Clauses, AllMatched, ClauseTexts, TokensOut, Tokens, Render, Join, FragmentOk, ToMap, Dictionary,
      PartitionDictionary;
    var parameters := ToMap(s.parameters);
    var condition: Option<string>, partition: Option<string> := None, None;
    if s.condition.Some? {
      var rendered := RenderCondition(s.condition.value);
      if rendered.Err? {
        return Err(rendered.error);
      }
      condition, parameters := Some(rendered.value.0), parameters + rendered.value.1;
    }
    NoParameters(parameters);
    if s.partitions.Some? {
      var text;
      text, parameters := RenderPartitionClause(s.partitions.value, parameters);
      if text.Err? {
        return Err(text.error);
      }
      partition := Some(text.value);
    }
    assert parameters == Parameters(s);
    PresentTexts(s, parameters != map[]);
    var clauses: seq<string> := [];
    if s.unsafe.Some? {
      var fragment := RenderUnsafeFragment(s.unsafe.value, s.parameters, parameters != map[]);
      if fragment.Err? {
        return Err(fragment.error);
      }
      clauses := ["(" + fragment.value + ")"];
    } else if s.parameters != [] {
      return Err(Configuration);
    }
    if condition.Some? {
      clauses := clauses + [condition.value];
    }
    if partition.Some? {
      clauses := clauses + [partition.value];
    }
    r := Ok((clauses, parameters));
  }

  lemma NoParameters(m: map<string, Scalar>)
    ensures Dictionary([], 0) == map[] && PartitionDictionary([]) == map[] && m + map[] == m
  {
  }

  /** `build_select`: accepts exactly the requests described by `SelectOk`, and returns the statement
      and its dictionary. */
  method BuildSelect(s: Select) returns (r: Result<(string, map<string, Scalar>)>)
    requires s.table.Valid() && (s.condition.Some? ==> WellFormed(s.condition.value))
    ensures r.Ok? <==> SelectOk(s)
    ensures r.Ok? ==> r.value == (StatementText(s), Parameters(s))
  {
    hide ProjectionOk, ProjectionText, ClauseTexts, Clauses, Parameters, FragmentOk, LimitClause, SelectPieces,
      SlotKeys, Fill, SlotCount;
    if !NamesOk(s.parameters) {
      return Err(Configuration);
    }
    var projection := RenderProjection(s);
    if projection.Err? {
      return Err(projection.error);
    }
    var rendered := RenderClauses(s);
    if rendered.Err? {
      return Err(rendered.error);
    }
    var sql := "SELECT " + projection.value + " FROM " + TableText(s.table);
    sql := sql + WhereText(rendered.value.0);
    if !LimitOk(s.limit, s.countName.Some?) {
      return Err(Configuration);
    }
    sql := sql + LimitText(s);
    FillSelect(s, Parameters(s) != map[]);
    r := Ok((sql, rendered.value.1));
  }
}
