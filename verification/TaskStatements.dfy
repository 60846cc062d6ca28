/** The SQL statements of all tasks of a scan: planning and statement construction together,
    with count pushdown. */
module TaskStatements {
  import opened Wrappers
  import opened Sequences
  import opened PredicateIr
  import opened Identifiers
  import opened PredicateText
  import opened FilterCompiler
  import opened ScanSemantics
  import opened ScanPlanner
  import AdjacentGroups
  import WeightedGroups
  import PredicatePieces
  import TransportTypes
  import TransportMeaning
  import DorisFragment
  import DorisSql
  import ClickHouseFragment
  import ClickHouseSql

  // ----- count pushdown ------------------------------------------------------------------------

  /** An aggregation Daft asks for: whether it is the global count of all rows that this release can
      express, the columns it names, and the name of its output field. */
  datatype Aggregation = Aggregation(countAll: bool, columns: seq<string>, name: string)

  datatype Request = Request(pushdowns: Pushdowns, aggregation: Option<Aggregation>)

  /** `count_pushdown`: the output name of an unfiltered global count; anything else is refused. */
  function CountPushdown(request: Request): Result<Option<string>> {
    if request.aggregation.None? then Ok(None)
    else
      var a := request.aggregation.value;
      if !a.countAll || |a.columns| > 1 || request.pushdowns.filters.Some? then Err(Compatibility)
      else
        var name := if a.columns != [] then a.columns[0] else a.name;
        if name == "" then Err(Compatibility) else Ok(Some(name))
  }

  /** A count is pushed exactly for an unfiltered global count with at most one column and an output
      name, and any other aggregation is refused. */
  lemma CountPushedIff(request: Request, name: string)
    ensures CountPushdown(request) == Ok(None) <==> request.aggregation.None?
    ensures CountPushdown(request) == Ok(Some(name)) <==>
            && request.aggregation.Some? && request.aggregation.value.countAll && request.pushdowns.filters.None?
            && name != ""
            && (request.aggregation.value.columns == [name]
                || (request.aggregation.value.columns == [] && request.aggregation.value.name == name))
    ensures CountPushdown(request).Err? ==> CountPushdown(request).error == Compatibility
  {
  }

  /** The pushed count is the number of rows every correct answer to the unaggregated request has. */
  lemma CountIsAnswerSize<K(!new)>(request: Request, table: seq<Stored<K>>, query: Query, columns: seq<string>,
                                   answer: seq<Row>)
    requires CountPushdown(request).Ok? && CountPushdown(request).value.Some? && request.pushdowns.limit.None?
    requires Correct(request.pushdowns, table, query, columns, answer)
    ensures |answer| == |RowsWhere(table, Matching(query, None), {})|
  {
    assert |multiset(answer)| == |answer|;
    var rows := RowsWhere(table, Wanted(request.pushdowns, query), ColumnSet(columns));
    assert |multiset(rows)| == |rows|;
    var f, g := Wanted<K>(request.pushdowns, query), Matching<K>(query, None);
    assert request.pushdowns.filters.None?;
    forall r | r in table ensures f(r) == g(r) {
      assert Qualifies(request.pushdowns.filters, query.sem)(r.row);
    }
    CountIgnoresColumns(table, f, g, ColumnSet(columns), {});
  }

  lemma {:induction false} CountIgnoresColumns<K>(table: seq<Stored<K>>, f: Stored<K> -> bool, g: Stored<K> -> bool,
                                                  a: set<string>, b: set<string>)
    requires forall r | r in table :: f(r) == g(r)
    ensures |RowsWhere(table, f, a)| == |RowsWhere(table, g, b)|
  {
    if table != [] {
      assert table[0] in table;
      CountIgnoresColumns(table[1..], f, g, a, b);
    }
  }

  // ----- what a scan guarantees the builders --------------------------------------------------------

  lemma {:induction false} SelectedValid(schema: seq<string>, requested: set<string>)
    requires Distinct(schema)
    ensures Distinct(Selected(schema, requested))
  {
    if schema != [] {
      var rest := Selected(schema[1..], requested);
      SelectedValid(schema[1..], requested);
      assert schema[0] !in schema[1..];
      assert forall i | 0 <= i < |rest| :: rest[i] in schema[1..];
    }
  }

  /** Selected columns form a valid list, and a compiled condition can be rendered. */
  lemma ScanFitsBuilders(schema: seq<string>, pushdowns: Pushdowns, scan: Scan)
    requires ValidColumnList(schema) && ScanOf(schema, pushdowns) == Ok(scan)
    ensures ValidColumnList(scan.columns)
    ensures scan.condition.Some? ==> WellFormed(scan.condition.value) && NullFree(scan.condition.value)
  {
    SelectedValid(schema, RequestedColumns(pushdowns, schema));
    if scan.condition.Some? {
      VisitedColumnsValid(pushdowns.filters.value);
      CompiledShape(pushdowns.filters.value, scan.condition.value);
    }
  }

  // ----- Doris -------------------------------------------------------------------------------------

  datatype DorisSource = DorisSource(
    planning: Source,
    table: QualifiedTable,
    unsafe: Option<string>,
    parameters: seq<(string, Scalar)>,
    style: DorisSql.Style)
  {
    ghost predicate Valid() { planning.Valid() && table.Valid() && ValidColumnList(planning.schema) }
  }

  /** What a task over one group of tablets selects. */
  function DorisSelect(src: DorisSource, scan: Scan, tablets: Option<seq<int>>, limit: Option<nat>): DorisSql.Select {
    DorisSql.Select(src.table, scan.columns, scan.condition, src.unsafe, src.parameters, tablets, limit, None)
  }

  function DorisCount(src: DorisSource, name: string): DorisSql.Select {
    DorisSql.Select(src.table, [name], None, src.unsafe, src.parameters, None, None, Some(name))
  }

  /** Discovered tablets have positive identifiers. */
  ghost predicate PositiveTablets(discovery: TabletDiscovery) {
    discovery.Tablets? ==> forall t | t in discovery.ids :: t > 0
  }

  ghost predicate UsableGroup(group: Option<seq<int>>) {
    group.Some? ==> group.value != [] && forall t | t in group.value :: t > 0
  }

  /** Every planned group is the whole table or a non-empty list of positive identifiers. */
  lemma DorisGroupsUsable(source: Source, limit: Option<nat>, discovery: TabletDiscovery)
    requires source.Valid() && PositiveTablets(discovery) && TabletPlan(source, limit, discovery).Ok?
    ensures var groups := TabletPlan(source, limit, discovery).value.groups;
            groups != [] && forall i | 0 <= i < |groups| :: UsableGroup(groups[i])
  {
    hide AdjacentGroups.Groups, UsableGroup;
    NoGroupUsable();
    if discovery.Tablets? && discovery.ids != [] {
      TabletGroupsUsable(discovery.ids, source.target, source.max);
    }
  }

  lemma TabletGroupsUsable(ids: seq<int>, target: nat, max: nat)
    requires target >= 1 && max >= 1 && ids != [] && forall t | t in ids :: t > 0
    ensures var groups := AdjacentGroups.Groups(ids, target, max);
            groups != [] && forall i | 0 <= i < |groups| :: UsableGroup(Some(groups[i]))
  {
    hide AdjacentGroups.Groups;
    var groups := AdjacentGroups.Groups(ids, target, max);
    AdjacentGroups.GroupsChunkSorted(ids, target, max);
    assert |ids| == |multiset(ids)| && |Flatten(groups)| == |multiset(Flatten(groups))|;
    forall i | 0 <= i < |groups| ensures UsableGroup(Some(groups[i])) {
      forall t | t in groups[i] ensures t > 0 {
        WeightedGroups.InFlatten(groups, i, t);
        assert t in multiset(Flatten(groups));
        assert t in ids;
      }
    }
  }

  /** The literals of the compiled condition. */
  function ScanSlots(scan: Scan): seq<Scalar> {
    if scan.condition.Some? then Slots(scan.condition.value) else []
  }

  /** How the statements of a scan are to be rendered: MySQL statements bind if anything is bound. */
  function ScanTarget(src: DorisSource, scan: Scan): DorisFragment.Target {
    if src.style.FlightSql? then DorisFragment.Flight(src.style.literal)
    else DorisFragment.MySql(src.parameters != [] || ScanSlots(scan) != [])
  }

  /** The trusted fragment of the source can be rendered, and Flight can write the condition's literals. */
  ghost predicate DorisScanOk(src: DorisSource, scan: Scan) {
    && (if src.unsafe.Some? then DorisFragment.FragmentOk(src.unsafe.value, src.parameters, ScanTarget(src, scan))
        else src.parameters == [])
    && (src.style.FlightSql? ==> PredicatePieces.Renderable(ScanSlots(scan), src.style.literal))
  }

  /** The builder refuses a planned task only for its trusted fragment or for a literal that Flight
      cannot write, and it refuses all tasks of a scan or none. */
  lemma DorisTaskAccepted(src: DorisSource, pushdowns: Pushdowns, scan: Scan, group: Option<seq<int>>,
                          limit: Option<nat>)
    requires src.Valid() && ScanOf(src.planning.schema, pushdowns) == Ok(scan) && UsableGroup(group)
    ensures DorisSql.SelectOk(DorisSelect(src, scan, group, limit), src.style) <==> DorisScanOk(src, scan)
  {
    hide ScanOf, DorisFragment.FragmentOk;
    ScanFitsBuilders(src.planning.schema, pushdowns, scan);
    assert DorisSql.TargetOf(DorisSelect(src, scan, group, limit), src.style) == ScanTarget(src, scan);
  }

  /** A scan without a compiled condition, as for a count. */
  const UNFILTERED := Scan([], None, None)

  lemma DorisCountAccepted(src: DorisSource, name: string)
    ensures DorisSql.SelectOk(DorisCount(src, name), src.style) <==>
            ValidIdentifier(name)
            && DorisScanOk(src, UNFILTERED)
  {
    hide DorisFragment.FragmentOk;
    assert DorisSql.TargetOf(DorisCount(src, name), src.style) == ScanTarget(src, UNFILTERED);
  }

  /** A statement with its positional parameters is the one `build_select` specifies. */
  ghost predicate IsDorisStatement(s: DorisSql.Select, style: DorisSql.Style, statement: (string, seq<Scalar>)) {
    && DorisSql.TabletsOk(s) && DorisSql.Writable(s, DorisSql.TargetOf(s, style))
    && statement.0 == DorisSql.StatementText(s, DorisSql.TargetOf(s, style))
    && statement.1 == if style.Mysql? then DorisSql.Values(s) else []
  }

  /** `build_select` as the task loops call it. */
  method BuildDoris(s: DorisSql.Select, style: DorisSql.Style) returns (r: Result<(string, seq<Scalar>)>)
    requires s.table.Valid() && (s.condition.Some? ==> WellFormed(s.condition.value))
    ensures r.Ok? <==> DorisSql.SelectOk(s, style)
    ensures r.Ok? ==> IsDorisStatement(s, style, r.value)
  {
    r := DorisSql.BuildSelect(s, style);
  }

  /** The task loop: one statement per group, or none when the builder refuses them. */
  method DorisStatements(src: DorisSource, pushdowns: Pushdowns, scan: Scan, plan: Plan<int>)
    returns (r: Result<seq<(string, seq<Scalar>)>>)
    requires src.Valid() && ScanOf(src.planning.schema, pushdowns) == Ok(scan)
    requires plan.groups != [] && forall i | 0 <= i < |plan.groups| :: UsableGroup(plan.groups[i])
    ensures r.Ok? <==> DorisScanOk(src, scan)
    ensures r.Ok? ==>
              && |r.value| == |plan.groups|
              && forall i | 0 <= i < |plan.groups| ::
                   IsDorisStatement(DorisSelect(src, scan, plan.groups[i], TaskLimit(scan, plan)), src.style,
                     r.value[i])
  {
    hide ScanOf, DorisSql.SelectOk, DorisSql.UnsafeOk, IsDorisStatement, UsableGroup;
    ScanFitsBuilders(src.planning.schema, pushdowns, scan);
    NoGroupUsable();
    DorisTaskAccepted(src, pushdowns, scan, None, None);
    var limit := TaskLimit(scan, plan);
    var statements: seq<(string, seq<Scalar>)> := [];
    for i := 0 to |plan.groups|
      invariant |statements| == i && (i > 0 ==> DorisScanOk(src, scan))
      invariant forall j | 0 <= j < i ::
                  IsDorisStatement(DorisSelect(src, scan, plan.groups[j], limit), src.style, statements[j])
    {
      DorisTaskAccepted(src, pushdowns, scan, plan.groups[i], limit);
      var statement := BuildDoris(DorisSelect(src, scan, plan.groups[i], limit), src.style);
      if statement.Err? {
        return Err(statement.error);
      }
      statements := statements + [statement.value];
    }
    r := Ok(statements);
  }

  lemma NoGroupUsable()
    ensures UsableGroup(None)
  {
  }

  /** When `get_tasks` yields statements: a count without a limit, or a planned scan whose trusted
      fragment and literals the builder accepts. */
  ghost predicate DorisAccepts(src: DorisSource, request: Request, discovery: TabletDiscovery)
    requires src.Valid()
  {
    var count := CountPushdown(request);
    && count.Ok?
    && if count.value.Some? then
         request.pushdowns.limit.None? && ValidIdentifier(count.value.value) && DorisScanOk(src, UNFILTERED)
       else
         && DorisTasks(src.planning, request.pushdowns, discovery).Ok?
         && DorisScanOk(src, ScanOf(src.planning.schema, request.pushdowns).value)
  }

  /** `get_tasks` of the Doris source down to its statements, including the count branch and the
      planning statement that is built before discovery. */
  method DorisGetStatements(src: DorisSource, request: Request, discovery: TabletDiscovery)
    returns (r: Result<seq<(string, seq<Scalar>)>>)
    requires src.Valid() && PositiveTablets(discovery)
    ensures r.Ok? <==> DorisAccepts(src, request, discovery)
    ensures r.Ok? && CountPushdown(request).value.Some? ==>
              |r.value| == 1
                && IsDorisStatement(DorisCount(src, CountPushdown(request).value.value), src.style, r.value[0])
    ensures r.Ok? && CountPushdown(request).value.None? ==>
              var tasks := DorisTasks(src.planning, request.pushdowns, discovery).value;
              var scan := ScanOf(src.planning.schema, request.pushdowns).value;
              && |r.value| == |tasks|
              && forall i | 0 <= i < |tasks| ::
                   IsDorisStatement(DorisSelect(src, scan, tasks[i].ids, tasks[i].limit), src.style, r.value[i])
  {
    hide DorisSql.SelectOk, IsDorisStatement, ScanOf, TabletPlan, DorisScanOk, UsableGroup;
    NoGroupUsable();
    var count := CountPushdown(request);
    if count.Err? {
      return Err(count.error);
    }
    if count.value.Some? {
      if request.pushdowns.limit.Some? {
        return Err(Compatibility);
      }
      DorisCountAccepted(src, count.value.value);
      var statement := BuildDoris(DorisCount(src, count.value.value), src.style);
      if statement.Err? {
        return Err(statement.error);
      }
      return Ok([statement.value]);
    }
    var scan := ScanOf(src.planning.schema, request.pushdowns);
    if scan.Err? {
      return Err(scan.error);
    }
    if !src.planning.split.Single? && scan.value.limit != Some(0) {
      ScanFitsBuilders(src.planning.schema, request.pushdowns, scan.value);
      if DorisScanOk(src, scan.value) {
        PlanningAccepted(src, request.pushdowns, scan.value);
      }
      var planning := BuildDoris(DorisSelect(src, scan.value, None, None), DorisSql.Mysql);
      if planning.Err? {
        return Err(planning.error);
      }
    }
    var plan := TabletPlan(src.planning, scan.value.limit, discovery);
    if plan.Err? {
      return Err(plan.error);
    }
    DorisGroupsUsable(src.planning, scan.value.limit, discovery);
    r := DorisStatements(src, request.pushdowns, scan.value, plan.value);
  }

  /** Whenever tasks are accepted, so is the planning statement. */
  lemma PlanningAccepted(src: DorisSource, pushdowns: Pushdowns, scan: Scan)
    requires src.Valid() && ScanOf(src.planning.schema, pushdowns) == Ok(scan) && DorisScanOk(src, scan)
    ensures DorisSql.SelectOk(DorisSelect(src, scan, None, None), DorisSql.Mysql)
  {
    hide ScanOf, DorisScanOk, DorisSql.SelectOk;
    NoGroupUsable();
    DorisTaskAccepted(src, pushdowns, scan, None, None);
    if src.style.FlightSql? {
      DorisSql.FlightOkIsMysqlOk(DorisSelect(src, scan, None, None), src.style.literal);
    }
  }

  // ----- ClickHouse ----------------------------------------------------------------------------------

  /** `declared` holds the described columns with their types. */
  datatype ClickHouseSource = ClickHouseSource(
    planning: Source,
    table: QualifiedTable,
    declared: seq<(string, string)>,
    unsafe: Option<string>,
    parameters: seq<(string, Scalar)>)
  {
    ghost predicate Valid() {
      && planning.Valid() && table.Valid() && ValidColumnList(planning.schema)
      && |declared| == |planning.schema|
      && forall i | 0 <= i < |declared| :: declared[i].0 == planning.schema[i] && TransportTypes.Valid(declared[i].1)
    }
  }

  /** The explicit cast of a column, when its transport type differs from the declared one. */
  function CastType(declared: string): Option<string> {
    var t := TransportTypes.Transport(declared);
    if t.Ok? && t.value != declared then Some(t.value) else None
  }

  function DeclaredType(declared: seq<(string, string)>, name: string): string
    requires exists i | 0 <= i < |declared| :: declared[i].0 == name
  {
    if declared[0].0 == name then declared[0].1 else DeclaredType(declared[1..], name)
  }

  lemma {:induction false} DeclaredTypeIs(declared: seq<(string, string)>, name: string)
    requires exists i | 0 <= i < |declared| :: declared[i].0 == name
    requires forall i | 0 <= i < |declared| :: TransportTypes.Valid(declared[i].1)
    ensures TransportTypes.Valid(DeclaredType(declared, name))
  {
    hide TransportTypes.Valid;
    if declared[0].0 != name {
      DeclaredTypeIs(declared[1..], name);
    }
  }

  predicate Describes(declared: seq<(string, string)>, names: seq<string>) {
    forall k | 0 <= k < |names| :: exists i | 0 <= i < |declared| :: declared[i].0 == names[k]
  }

  /** `projection_for`. */
  function ProjectionFor(declared: seq<(string, string)>, names: seq<string>): (r: seq<(string, Option<string>)>)
    requires Describes(declared, names)
    ensures |r| == |names|
            && forall k | 0 <= k < |names| :: r[k] == (names[k], CastType(DeclaredType(declared, names[k])))
  {
    seq(|names|, k requires 0 <= k < |names| => (names[k], CastType(DeclaredType(declared, names[k]))))
  }

  /** The casts a scan emits pass the validation the builder repeats on them. */
  lemma ProjectionAccepted(declared: seq<(string, string)>, names: seq<string>)
    requires Describes(declared, names) && ValidColumnList(names)
    requires forall i | 0 <= i < |declared| :: TransportTypes.Valid(declared[i].1)
    ensures ClickHouseSql.ColumnNames(ProjectionFor(declared, names)) == names
    ensures ClickHouseSql.ColumnsOk(ProjectionFor(declared, names))
  {
    hide TransportTypes.Valid, TransportTypes.Transport;
    var projection := ProjectionFor(declared, names);
    forall k | 0 <= k < |projection| ensures ClickHouseSql.ColumnOk(projection[k]) {
      assert names[k] in names;
      DeclaredTypeIs(declared, names[k]);
      TransportTypes.TransportFixedPoint(DeclaredType(declared, names[k]));
    }
  }

  lemma {:induction false} DeclaredTypeOf(declared: seq<(string, string)>, name: string) returns (i: nat)
    requires exists i | 0 <= i < |declared| :: declared[i].0 == name
    ensures i < |declared| && declared[i] == (name, DeclaredType(declared, name))
  {
    if declared[0].0 == name {
      i := 0;
    } else {
      i := DeclaredTypeOf(declared[1..], name);
      i := i + 1;
    }
  }

  /** Every scanned column is delivered in a type that needs no further rewriting and from which the
      values of its declared type can be read: the cast if there is one, the declared type otherwise. */
  lemma ColumnsDelivered(declared: seq<(string, string)>, names: seq<string>, k: nat) returns (i: nat)
    requires Describes(declared, names) && k < |names|
    requires forall i | 0 <= i < |declared| :: TransportTypes.Valid(declared[i].1)
    ensures var column := ProjectionFor(declared, names)[k];
            && i < |declared| && declared[i].0 == names[k] && column.0 == names[k]
            && var t := if column.1.Some? then column.1.value else declared[i].1;
               && TransportTypes.Transport(t) == Ok(t)
               && TransportMeaning.Lossless(declared[i].1, t)
  {
    hide TransportTypes.Valid, TransportTypes.Transport, TransportMeaning.Lossless;
    i := DeclaredTypeOf(declared, names[k]);
    TransportTypes.TransportFixedPoint(declared[i].1);
    TransportMeaning.TransportLossless(declared[i].1);
  }

  /** What a task over one group of partitions selects. */
  function ClickHouseSelect(src: ClickHouseSource, scan: Scan, partitions: Option<seq<string>>,
                            limit: Option<nat>): ClickHouseSql.Select
    requires Describes(src.declared, scan.columns)
  {
    ClickHouseSql.Select(src.table, scan.columns, scan.condition, src.unsafe, src.parameters, partitions, limit, None,
                         Some(ProjectionFor(src.declared, scan.columns)))
  }

  function ClickHouseCount(src: ClickHouseSource, name: string): ClickHouseSql.Select {
    ClickHouseSql.Select(src.table, [name], None, src.unsafe, src.parameters, None, None, Some(name), None)
  }

  /** The caller's parameters are acceptable for the trusted fragment. */
  ghost predicate ParametersOk(src: ClickHouseSource) {
    && ClickHouseSql.NamesOk(src.parameters)
    && if src.unsafe.Some? then ClickHouseFragment.FragmentOk(src.unsafe.value, src.parameters)
      else src.parameters == []
  }

  lemma ScanIsDescribed(src: ClickHouseSource, pushdowns: Pushdowns, scan: Scan)
    requires src.Valid() && ScanOf(src.planning.schema, pushdowns) == Ok(scan)
    ensures Describes(src.declared, scan.columns)
  {
    hide CompileFilter, TransportTypes.Valid, ValidColumnList, RequestedColumns;
    forall k | 0 <= k < |scan.columns| ensures exists i | 0 <= i < |src.declared| ::
      src.declared[i].0 == scan.columns[k] {
      assert scan.columns[k] in scan.columns;
      var i :| 0 <= i < |src.planning.schema| && src.planning.schema[i] == scan.columns[k];
      assert src.declared[i].0 == scan.columns[k];
    }
  }

  /** The builder refuses a planned task only for the caller's fragment and parameters, and it refuses
      all tasks of a source or none: columns, casts, condition, partitions and limit always pass. */
  lemma ClickHouseTaskAccepted(src: ClickHouseSource, pushdowns: Pushdowns, scan: Scan, group: Option<seq<string>>,
                               limit: Option<nat>)
    requires src.Valid() && ScanOf(src.planning.schema, pushdowns) == Ok(scan) && (group.Some? ==> group.value != [])
    ensures Describes(src.declared, scan.columns)
    ensures ClickHouseSql.SelectOk(ClickHouseSelect(src, scan, group, limit)) <==> ParametersOk(src)
  {
    hide ScanOf, ClickHouseFragment.FragmentOk, TransportTypes.Valid, Describes;
    ScanIsDescribed(src, pushdowns, scan);
    ScanFitsBuilders(src.planning.schema, pushdowns, scan);
    ProjectionAccepted(src.declared, scan.columns);
  }

  /** Planned partition groups are never empty. */
  lemma ClickHouseGroupsUsable(source: Source, limit: Option<nat>, discovery: PartitionDiscovery)
    requires source.Valid() && PartitionPlan(source, limit, discovery).Ok?
    ensures var groups := PartitionPlan(source, limit, discovery).value.groups;
            groups != [] && forall i | 0 <= i < |groups| :: groups[i].Some? ==> groups[i].value != []
  {
    hide WeightedGroups.Groups;
    if discovery.Partitions? && discovery.items != [] {
      var groups := WeightedGroups.Groups(discovery.items, source.target, source.max);
      WeightedGroups.GroupsPartition(discovery.items, source.target, source.max);
      assert |multiset(Flatten(groups))| == |Flatten(groups)|;
      assert |multiset(WeightedGroups.Names(discovery.items))| == |discovery.items|;
    }
  }

  /** The task loop: one statement per group, or none when the builder refuses them. */
  method ClickHouseStatements(src: ClickHouseSource, pushdowns: Pushdowns, scan: Scan, plan: Plan<string>)
    returns (r: Result<seq<(string, map<string, Scalar>)>>)
    requires src.Valid() && ScanOf(src.planning.schema, pushdowns) == Ok(scan) && Describes(src.declared, scan.columns)
    requires plan.groups != [] && forall i | 0 <= i < |plan.groups| :: plan.groups[i].Some? ==>
            plan.groups[i].value != []
    ensures r.Ok? <==> ParametersOk(src)
    ensures r.Ok? ==>
              && |r.value| == |plan.groups|
              && forall i | 0 <= i < |plan.groups| ::
                   var s := ClickHouseSelect(src, scan, plan.groups[i], TaskLimit(scan, plan));
                   r.value[i] == (ClickHouseSql.StatementText(s), ClickHouseSql.Parameters(s))
  {
    hide ScanOf, ClickHouseSql.SelectOk, ParametersOk, ClickHouseSql.StatementText, ClickHouseSql.Parameters, Describes;
    ScanFitsBuilders(src.planning.schema, pushdowns, scan);
    var limit := TaskLimit(scan, plan);
    var statements: seq<(string, map<string, Scalar>)> := [];
    for i := 0 to |plan.groups|
      invariant |statements| == i && (i > 0 ==> ParametersOk(src))
      invariant forall j | 0 <= j < i ::
                  var s := ClickHouseSelect(src, scan, plan.groups[j], limit);
                  statements[j] == (ClickHouseSql.StatementText(s), ClickHouseSql.Parameters(s))
    {
      ClickHouseTaskAccepted(src, pushdowns, scan, plan.groups[i], limit);
      var statement := ClickHouseSql.BuildSelect(ClickHouseSelect(src, scan, plan.groups[i], limit));
      if statement.Err? {
        return Err(statement.error);
      }
      statements := statements + [statement.value];
    }
    r := Ok(statements);
  }

  ghost predicate ClickHouseAccepts(src: ClickHouseSource, request: Request, discovery: PartitionDiscovery)
    requires src.Valid()
  {
    var count := CountPushdown(request);
    && count.Ok?
    && ParametersOk(src)
    && if count.value.Some? then request.pushdowns.limit.None? && ValidIdentifier(count.value.value)
       else ClickHouseTasks(src.planning, request.pushdowns, discovery).Ok?
  }

  /** `get_tasks` of the ClickHouse source down to its statements, including the count branch. */
  method ClickHouseGetStatements(src: ClickHouseSource, request: Request, discovery: PartitionDiscovery)
    returns (r: Result<seq<(string, map<string, Scalar>)>>)
    requires src.Valid()
    ensures r.Ok? <==> ClickHouseAccepts(src, request, discovery)
    ensures r.Ok? && CountPushdown(request).value.Some? ==>
              var s := ClickHouseCount(src, CountPushdown(request).value.value);
              r.value == [(ClickHouseSql.StatementText(s), ClickHouseSql.Parameters(s))]
    ensures r.Ok? && CountPushdown(request).value.None? ==>
              var tasks := ClickHouseTasks(src.planning, request.pushdowns, discovery).value;
              var scan := ScanOf(src.planning.schema, request.pushdowns).value;
              && Describes(src.declared, scan.columns) && |r.value| == |tasks|
              && forall i | 0 <= i < |tasks| ::
                   var s := ClickHouseSelect(src, scan, tasks[i].ids, tasks[i].limit);
                   r.value[i] == (ClickHouseSql.StatementText(s), ClickHouseSql.Parameters(s))
  {
    hide ScanOf, PartitionPlan, ParametersOk, ClickHouseSql.StatementText, ClickHouseSql.Parameters, Describes,
      ClickHouseSql.SelectOk;
    var count := CountPushdown(request);
    if count.Err? {
      return Err(count.error);
    }
    if count.value.Some? {
      if request.pushdowns.limit.Some? {
        return Err(Compatibility);
      }
      CountAccepted(src, count.value.value);
      var statement := ClickHouseSql.BuildSelect(ClickHouseCount(src, count.value.value));
      if statement.Err? {
        return Err(statement.error);
      }
      return Ok([statement.value]);
    }
    var scan := ScanOf(src.planning.schema, request.pushdowns);
    if scan.Err? {
      return Err(scan.error);
    }
    ScanIsDescribed(src, request.pushdowns, scan.value);
    var plan := PartitionPlan(src.planning, scan.value.limit, discovery);
    if plan.Err? {
      return Err(plan.error);
    }
    ClickHouseGroupsUsable(src.planning, scan.value.limit, discovery);
    r := ClickHouseStatements(src, request.pushdowns, scan.value, plan.value);
  }

  lemma CountAccepted(src: ClickHouseSource, name: string)
    ensures ClickHouseSql.SelectOk(ClickHouseCount(src, name)) <==> ParametersOk(src) && ValidIdentifier(name)
  {
    hide ClickHouseFragment.FragmentOk;
  }
}
