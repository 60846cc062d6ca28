/** From the SQL text of the emitted statements to Daft's answer. */
module TaskAnswers {
  import opened Wrappers
  import opened Sequences
  import opened PredicateIr
  import opened Identifiers
  import opened PredicateText
  import opened FragmentTokens
  import opened FilterCompiler
  import opened ScanSemantics
  import opened ScanPlanner
  import opened StatementReader
  import opened TaskStatements
  import PredicatePieces
  import DorisFragment
  import DorisSql
  import DorisReader
  import ClickHouseFragment
  import ClickHouseSql
  import ClickHouseReader

  /** The names a projection delivers. */
  function NamesOf(columns: seq<(string, Option<string>)>): set<string> {
    set c | c in columns :: c.0
  }

  lemma UncastNames(names: seq<string>)
    ensures NamesOf(Uncast(names)) == ColumnSet(names)
  {
    forall c | c in names ensures c in NamesOf(Uncast(names)) {
      var i :| 0 <= i < |names| && names[i] == c;
      assert Uncast(names)[i] == (c, None) && (c, None) in Uncast(names);
    }
    forall c | c in NamesOf(Uncast(names)) ensures c in names {
      var column :| column in Uncast(names) && column.0 == c;
      var i :| 0 <= i < |names| && Uncast(names)[i] == column;
    }
  }

  // ----- Doris --------------------------------------------------------------------------------------

  /** The rows a statement selects: those of its tablets that the trusted fragment, if there is one, and
      the predicate let through. */
  function DorisFilter(st: DorisReader.Statement, trusted: bool, query: Query): Stored<int> -> bool {
    (r: Stored<int>) =>
      && (st.head.tablets.None? || r.id in st.head.tablets.value)
      && (trusted ==> query.trusted(r.row))
      && (st.condition.None? || Eval(st.condition.value, r.row, query.sem.compare).True?)
  }

  /** What a server returns for a statement it has read, before any limit. */
  function DorisRows(st: DorisReader.Statement, trusted: bool, tables: QualifiedTable -> seq<Stored<int>>, query: Query)
    : seq<Row>
    requires st.head.projection.ColumnsOf?
  {
    RowsWhere(tables(st.head.table), DorisFilter(st, trusted, query), NamesOf(st.head.projection.columns))
  }

  /** The trusted fragment of the source as its MySQL statements carry it, and the values it binds. */
  ghost function DorisRendered(src: DorisSource, scan: Scan): Option<string>
    requires src.style.Mysql? && DorisScanOk(src, scan)
  {
    if src.unsafe.None? then None
    else
      Some(DorisFragment.TokensOut(DorisFragment.Tokens(None, None, src.unsafe.value).value, ToMap(src.parameters),
                                   ScanTarget(src, scan)))
  }

  ghost function DorisBound(src: DorisSource, scan: Scan): seq<Scalar>
    requires src.style.Mysql? && DorisScanOk(src, scan)
  {
    if src.unsafe.None? then []
    else
      var ts := DorisFragment.Tokens(None, None, src.unsafe.value).value;
      MarksBound(ts, src.parameters, ScanTarget(src, scan));
      DorisFragment.TokensValues(ts, ToMap(src.parameters))
  }

  lemma MarksBound(ts: seq<Token>, parameters: seq<(string, Scalar)>, target: DorisFragment.Target)
    requires DorisFragment.AllAcceptable(ts, ToMap(parameters), target)
    ensures forall i | 0 <= i < |ts| :: ts[i].Mark? ==> ts[i].name in ToMap(parameters)
  {
    forall i | 0 <= i < |ts| ensures ts[i].Mark? ==> ts[i].name in ToMap(parameters) {
      assert DorisFragment.Acceptable(ts[i], ToMap(parameters), target);
    }
  }

  /** How a server reads a statement of this scan. */
  ghost function DorisReading(src: DorisSource, scan: Scan,
                              statement: (string, seq<Scalar>)): Option<DorisReader.Statement>
    requires src.style.Mysql? && DorisScanOk(src, scan)
  {
    if DorisBound(src, scan) <= statement.1 then
      DorisReader.ReadStatement(statement.0, DorisRendered(src, scan), InOrder(statement.1[|DorisBound(src, scan)|..]))
    else None
  }

  /** The statement of a task binds the fragment's values first and reads back as the task: its table,
      columns, tablets, predicate and limit, behind the trusted fragment of the source. */
  lemma DorisStatementIsTask(src: DorisSource, pushdowns: Pushdowns, scan: Scan, group: Option<seq<int>>,
                             limit: Option<nat>, statement: (string, seq<Scalar>))
    requires src.Valid() && src.style.Mysql? && ScanOf(src.planning.schema, pushdowns) == Ok(scan) && UsableGroup(group)
    requires DorisScanOk(src, scan) && IsDorisStatement(DorisSelect(src, scan, group, limit), src.style, statement)
    ensures DorisReading(src, scan, statement) ==
            Some(DorisReader.Statement(
              DorisReader.Head(ColumnsOf(Uncast(scan.columns)), src.table, group), scan.condition, limit))
  {
    hide ScanOf, DorisSql.StatementText, DorisReader.ReadStatement, DorisSql.SelectOk, DorisFragment.TokensOut,
      DorisFragment.TokensValues, Slots, UsableGroup;
    var s := DorisSelect(src, scan, group, limit);
    DorisTaskAccepted(src, pushdowns, scan, group, limit);
    ScanFitsBuilders(src.planning.schema, pushdowns, scan);
    DorisReader.MysqlReadBack(s);
    assert DorisSql.TargetOf(s, src.style) == ScanTarget(src, scan);
    var bound, slots := DorisBound(src, scan), ScanSlots(scan);
    assert statement.1 == bound + slots;
    assert (bound + slots)[|bound|..] == slots;
  }

  /** The count statement counts all rows of the table behind the trusted fragment. */
  lemma DorisCountReads(src: DorisSource, name: string, statement: (string, seq<Scalar>))
    requires src.style.Mysql? && ValidIdentifier(name) && DorisScanOk(src, UNFILTERED)
    requires IsDorisStatement(DorisCount(src, name), src.style, statement)
    ensures DorisReading(src, UNFILTERED, statement) ==
            Some(DorisReader.Statement(DorisReader.Head(CountAs(name), src.table, None), None, None))
  {
    hide DorisSql.StatementText, DorisReader.ReadStatement, DorisSql.SelectOk, DorisFragment.TokensOut,
      DorisFragment.TokensValues;
    var s := DorisCount(src, name);
    DorisCountAccepted(src, name);
    DorisReader.MysqlReadBack(s);
    assert DorisSql.TargetOf(s, src.style) == ScanTarget(src, UNFILTERED);
    var bound := DorisBound(src, UNFILTERED);
    assert statement.1 == bound + [] && (bound + [])[|bound|..] == [];
  }

  /** In Flight style the statement frames the filter of the source and the scan with the task's table,
      columns, tablets and limit. */
  lemma DorisFlightFrame(src: DorisSource, pushdowns: Pushdowns, scan: Scan, group: Option<seq<int>>,
                         limit: Option<nat>, statement: (string, seq<Scalar>))
    requires src.Valid() && src.style.FlightSql? && ScanOf(src.planning.schema, pushdowns) == Ok(scan)
    requires UsableGroup(group)
    requires DorisScanOk(src, scan) && IsDorisStatement(DorisSelect(src, scan, group, limit), src.style, statement)
    ensures statement.1 == []
    ensures DorisReader.ReadFrame(statement.0, FlightFilter(src, scan)) ==
            Some((DorisReader.Head(ColumnsOf(Uncast(scan.columns)), src.table, group), limit))
  {
    hide ScanOf, DorisSql.StatementText, DorisReader.ReadFrame, DorisSql.SelectOk, DorisFragment.TokensOut,
      DorisFragment.TokensValues, Slots, UsableGroup, PredicatePieces.Filled, PredicatePieces.LiteralTexts,
      DorisSql.WhereText;
    DorisTaskAccepted(src, pushdowns, scan, group, limit);
    DorisReader.FrameReadBack(DorisSelect(src, scan, group, limit), src.style);
  }

  /** The WHERE clause of a Flight statement: the fragment with literals for its markers, and the predicate
      with its literals. */
  ghost function FlightFilter(src: DorisSource, scan: Scan): string
    requires src.style.FlightSql? && DorisScanOk(src, scan)
  {
    var target := DorisFragment.Flight(src.style.literal);
    DorisSql.WhereText(
      if src.unsafe.None? then None
      else Some(DorisFragment.TokensOut(DorisFragment.Tokens(None, None, src.unsafe.value).value,
        ToMap(src.parameters), target)),
      if scan.condition.None? then None
      else
        Some(PredicatePieces.Filled(scan.condition.value,
                                    PredicatePieces.LiteralTexts(Slots(scan.condition.value), src.style.literal))))
  }

  /** Reading the statement of a task gives the rows the task stands for. */
  lemma DorisStatementRows(src: DorisSource, scan: Scan, task: Task<int>, tables: QualifiedTable -> seq<Stored<int>>,
                           query: Query)
    requires task == Task(task.ids, scan.columns, scan.condition, task.limit)
    requires src.unsafe.None? ==> forall row :: query.trusted(row)
    ensures var st := DorisReader.Statement(
                        DorisReader.Head(ColumnsOf(Uncast(scan.columns)), src.table, task.ids), scan.condition,
                          task.limit);
            DorisRows(st, src.unsafe.Some?, tables, query) == TaskRows(task, tables(src.table), query)
  {
    var st := DorisReader.Statement(
      DorisReader.Head(ColumnsOf(Uncast(scan.columns)), src.table, task.ids), scan.condition, task.limit);
    UncastNames(scan.columns);
    var f, g := DorisFilter(st, src.unsafe.Some?, query), InGroup(task.ids, Matching(query, task.condition));
    forall r | r in tables(src.table) ensures f(r) == g(r) {
      assert g(r) == ((task.ids.None? || r.id in task.ids.value) && Matching<int>(query, task.condition)(r));
      assert Matching<int>(query, task.condition)(r) == (query.trusted(r.row) && Pushed(task.condition, query, r.row));
    }
    RowsWhereAgree(tables(src.table), f, g, ColumnSet(scan.columns));
  }

  /** A server that has read the statement of a task delivers for it. */
  ghost predicate DorisDelivers(src: DorisSource, scan: Scan, statement: (string, seq<Scalar>), result: seq<Row>,
                                tables: QualifiedTable -> seq<Stored<int>>, query: Query)
    requires src.style.Mysql? && DorisScanOk(src, scan)
  {
    var st := DorisReading(src, scan, statement);
    && st.Some? && st.value.head.projection.ColumnsOf?
    && Delivers(DorisRows(st.value, src.unsafe.Some?, tables, query), st.value.limit, result)
  }

  lemma DorisDelivery(src: DorisSource, pushdowns: Pushdowns, scan: Scan, task: Task<int>,
                      statement: (string, seq<Scalar>), result: seq<Row>,
                      tables: QualifiedTable -> seq<Stored<int>>, query: Query)
    requires src.Valid() && src.style.Mysql? && ScanOf(src.planning.schema, pushdowns) == Ok(scan)
    requires task == Task(task.ids, scan.columns, scan.condition, task.limit) && UsableGroup(task.ids)
    requires DorisScanOk(src, scan)
    requires IsDorisStatement(DorisSelect(src, scan, task.ids, task.limit), src.style, statement)
    requires src.unsafe.None? ==> forall row :: query.trusted(row)
    requires DorisDelivers(src, scan, statement, result, tables, query)
    ensures Delivers(TaskRows(task, tables(src.table), query), task.limit, result)
  {
    hide ScanOf, DorisReading, DorisRows, TaskRows, Delivers, IsDorisStatement, DorisScanOk, UsableGroup;
    DorisStatementIsTask(src, pushdowns, scan, task.ids, task.limit, statement);
    DorisStatementRows(src, scan, task, tables, query);
  }

  /** A server can always read the statement of a task and deliver for it. */
  lemma DorisCanDeliver(src: DorisSource, pushdowns: Pushdowns, scan: Scan, group: Option<seq<int>>, limit: Option<nat>,
                        statement: (string, seq<Scalar>), tables: QualifiedTable -> seq<Stored<int>>, query: Query)
    returns (result: seq<Row>)
    requires src.Valid() && src.style.Mysql? && ScanOf(src.planning.schema, pushdowns) == Ok(scan) && UsableGroup(group)
    requires DorisScanOk(src, scan) && IsDorisStatement(DorisSelect(src, scan, group, limit), src.style, statement)
    ensures DorisDelivers(src, scan, statement, result, tables, query)
  {
    hide ScanOf, DorisReading, DorisRows, Delivers, IsDorisStatement, DorisScanOk, UsableGroup;
    DorisStatementIsTask(src, pushdowns, scan, group, limit, statement);
    var st := DorisReading(src, scan, statement).value;
    result := DeliveryExists(DorisRows(st, src.unsafe.Some?, tables, query), st.limit);
  }

  /** End to end: a server reads the emitted MySQL statements, delivers any rows their limits allow, and
      what Daft makes of them is a correct answer. */
  lemma DorisStatementsAnswer(src: DorisSource, pushdowns: Pushdowns, discovery: TabletDiscovery, scan: Scan,
                              statements: seq<(string, seq<Scalar>)>, results: seq<seq<Row>>, answer: seq<Row>,
                              tables: QualifiedTable -> seq<Stored<int>>, query: Query)
    requires src.Valid() && src.style.Mysql? && PositiveTablets(discovery) && Local(query.sem)
    requires ScanOf(src.planning.schema, pushdowns) == Ok(scan) && DorisScanOk(src, scan)
    requires DorisTasks(src.planning, pushdowns, discovery).Ok?
    requires TabletsSound(discovery, tables(src.table), query, scan.condition)
    requires src.unsafe.None? ==> forall row :: query.trusted(row)
    requires var tasks := DorisTasks(src.planning, pushdowns, discovery).value;
             && |statements| == |tasks| && |results| == |tasks|
             && forall i | 0 <= i < |tasks| ::
                  && IsDorisStatement(DorisSelect(src, scan, tasks[i].ids, tasks[i].limit), src.style, statements[i])
                  && DorisDelivers(src, scan, statements[i], results[i], tables, query)
    requires DaftAnswer(pushdowns, query.sem, results, answer)
    ensures Correct(pushdowns, tables(src.table), query, scan.columns, answer)
  {
    hide ScanOf, DorisDelivers, TaskRows, Delivers, IsDorisStatement, DorisScanOk, UsableGroup, TabletPlan, DorisSelect,
      DaftAnswer, Correct, TabletsSound;
    var tasks := DorisTasks(src.planning, pushdowns, discovery).value;
    DorisGroupsUsable(src.planning, scan.limit, discovery);
    forall i | 0 <= i < |tasks| ensures Delivers(TaskRows(tasks[i], tables(src.table), query), tasks[i].limit,
      results[i]) {
      DorisDelivery(src, pushdowns, scan, tasks[i], statements[i], results[i], tables, query);
    }
    DorisAnswerCorrect(src.planning, pushdowns, discovery, query, tables(src.table), scan, results, answer);
  }

  // ----- ClickHouse ----------------------------------------------------------------------------------

  lemma ProjectedNames(declared: seq<(string, string)>, names: seq<string>)
    requires Describes(declared, names)
    ensures NamesOf(ProjectionFor(declared, names)) == ColumnSet(names)
  {
    hide CastType, DeclaredType, Describes;
    var projection := ProjectionFor(declared, names);
    forall c | c in names ensures c in NamesOf(projection) {
      var i :| 0 <= i < |names| && names[i] == c;
      assert projection[i] in projection && projection[i].0 == c;
    }
    forall c | c in NamesOf(projection) ensures c in names {
      var column :| column in projection && column.0 == c;
      var i :| 0 <= i < |projection| && projection[i] == column;
    }
  }

  function ClickHouseFilter(st: ClickHouseReader.Statement, trusted: bool, query: Query): Stored<string> -> bool {
    (r: Stored<string>) =>
      && (st.partitions.None? || Text(r.id) in st.partitions.value)
      && (trusted ==> query.trusted(r.row))
      && (st.condition.None? || Eval(st.condition.value, r.row, query.sem.compare).True?)
  }

  /** What a server returns for a statement it has read, before any limit. */
  function ClickHouseRows(st: ClickHouseReader.Statement, trusted: bool,
                          tables: QualifiedTable -> seq<Stored<string>>, query: Query): seq<Row>
    requires st.projection.ColumnsOf?
  {
    RowsWhere(tables(st.table), ClickHouseFilter(st, trusted, query), NamesOf(st.projection.columns))
  }

  /** How a server reads a statement of this source: the trusted fragment is the source's own, with every
      literal `%` doubled if anything is bound. */
  function ClickHouseReading(src: ClickHouseSource, statement: (string, map<string, Scalar>))
    : Option<ClickHouseReader.Statement>
  {
    var fragment :=
      if src.unsafe.None? then None
      else Some(ClickHouseFragment.TokensOut(ClickHouseFragment.Tokens(src.unsafe.value), statement.1 != map[]));
    ClickHouseReader.ReadStatement(statement.0, fragment, ByName(statement.1))
  }

  function PartitionScalars(group: Option<seq<string>>): Option<seq<Scalar>> {
    if group.Some? then Some(ClickHouseSql.PartitionValues(group.value)) else None
  }

  /** The statement of a task reads back as the task: its table, columns with their casts, predicate,
      partitions and limit, behind the trusted fragment of the source, whose parameters keep their values. */
  lemma ClickHouseStatementIsTask(src: ClickHouseSource, pushdowns: Pushdowns, scan: Scan, group: Option<seq<string>>,
                                  limit: Option<nat>)
    requires src.Valid() && ScanOf(src.planning.schema, pushdowns) == Ok(scan) && (group.Some? ==> group.value != [])
    requires ParametersOk(src) && Describes(src.declared, scan.columns)
    ensures var s := ClickHouseSelect(src, scan, group, limit);
            var statement := (ClickHouseSql.StatementText(s), ClickHouseSql.Parameters(s));
            && ClickHouseReading(src, statement) ==
               Some(ClickHouseReader.Statement(ColumnsOf(ProjectionFor(src.declared, scan.columns)), src.table,
                                               scan.condition, PartitionScalars(group), limit))
            && forall i | 0 <= i < |src.parameters| ::
                 Keys(src.parameters)[i] in statement.1 && statement.1[Keys(src.parameters)[i]] == src.parameters[i].1
  {
    hide ScanOf, ClickHouseSql.StatementText, ClickHouseSql.Parameters, ClickHouseReader.ReadStatement,
      ClickHouseFragment.TokensOut, ClickHouseFragment.Tokens, ClickHouseFragment.FragmentOk, Describes, ProjectionFor,
      ClickHouseSql.SelectOk;
    var s := ClickHouseSelect(src, scan, group, limit);
    ClickHouseTaskAccepted(src, pushdowns, scan, group, limit);
    ScanFitsBuilders(src.planning.schema, pushdowns, scan);
    ClickHouseReader.ReadBack(s);
    ClickHouseSql.ParametersNeverCollide(s);
  }

  /** The count statement counts all rows of the table behind the trusted fragment. */
  lemma ClickHouseCountReads(src: ClickHouseSource, name: string)
    requires ValidIdentifier(name) && ParametersOk(src)
    ensures var s := ClickHouseCount(src, name);
            ClickHouseReading(src, (ClickHouseSql.StatementText(s), ClickHouseSql.Parameters(s))) ==
            Some(ClickHouseReader.Statement(CountAs(name), src.table, None, None, None))
  {
    hide ClickHouseSql.StatementText, ClickHouseSql.Parameters, ClickHouseReader.ReadStatement, ParametersOk,
      ClickHouseFragment.TokensOut, ClickHouseFragment.Tokens, ClickHouseSql.SelectOk;
    CountAccepted(src, name);
    ClickHouseReader.ReadBack(ClickHouseCount(src, name));
  }

  /** Reading the statement of a task gives the rows the task stands for. */
  lemma ClickHouseStatementRows(src: ClickHouseSource, scan: Scan, task: Task<string>,
                                tables: QualifiedTable -> seq<Stored<string>>, query: Query)
    requires task == Task(task.ids, scan.columns, scan.condition, task.limit) && Describes(src.declared, scan.columns)
    requires src.unsafe.None? ==> forall row :: query.trusted(row)
    ensures var st := ClickHouseReader.Statement(ColumnsOf(ProjectionFor(src.declared, scan.columns)), src.table,
                                                 scan.condition, PartitionScalars(task.ids), task.limit);
            ClickHouseRows(st, src.unsafe.Some?, tables, query) == TaskRows(task, tables(src.table), query)
  {
    hide Describes, ProjectionFor;
    var st := ClickHouseReader.Statement(ColumnsOf(ProjectionFor(src.declared, scan.columns)), src.table,
      scan.condition,
                                         PartitionScalars(task.ids), task.limit);
    ProjectedNames(src.declared, scan.columns);
    var f, g := ClickHouseFilter(st, src.unsafe.Some?, query), InGroup(task.ids, Matching(query, task.condition));
    forall r | r in tables(src.table) ensures f(r) == g(r) {
      if task.ids.Some? {
        ScalarMember(task.ids.value, r.id);
      }
      assert g(r) == ((task.ids.None? || r.id in task.ids.value) && Matching<string>(query, task.condition)(r));
      assert Matching<string>(query, task.condition)(r) ==
              (query.trusted(r.row) && Pushed(task.condition, query, r.row));
    }
    RowsWhereAgree(tables(src.table), f, g, ColumnSet(scan.columns));
  }

  lemma ScalarMember(ids: seq<string>, id: string)
    ensures Text(id) in ClickHouseSql.PartitionValues(ids) <==> id in ids
  {
    var values := ClickHouseSql.PartitionValues(ids);
    if id in ids {
      var i :| 0 <= i < |ids| && ids[i] == id;
      assert values[i] == Text(id);
    }
  }

  /** A server that has read the statement of a task delivers for it. */
  ghost predicate ClickHouseDelivers(src: ClickHouseSource, statement: (string, map<string, Scalar>), result: seq<Row>,
                                     tables: QualifiedTable -> seq<Stored<string>>, query: Query) {
    var st := ClickHouseReading(src, statement);
    && st.Some? && st.value.projection.ColumnsOf?
    && Delivers(ClickHouseRows(st.value, src.unsafe.Some?, tables, query), st.value.limit, result)
  }

  lemma ClickHouseDelivery(src: ClickHouseSource, pushdowns: Pushdowns, scan: Scan, task: Task<string>,
                           result: seq<Row>,
                           tables: QualifiedTable -> seq<Stored<string>>, query: Query)
    requires src.Valid() && ScanOf(src.planning.schema, pushdowns) == Ok(scan)
    requires ParametersOk(src) && Describes(src.declared, scan.columns)
    requires task == Task(task.ids, scan.columns, scan.condition, task.limit)
            && (task.ids.Some? ==> task.ids.value != [])
    requires src.unsafe.None? ==> forall row :: query.trusted(row)
    requires var s := ClickHouseSelect(src, scan, task.ids, task.limit);
             ClickHouseDelivers(src, (ClickHouseSql.StatementText(s), ClickHouseSql.Parameters(s)), result, tables,
               query)
    ensures Delivers(TaskRows(task, tables(src.table), query), task.limit, result)
  {
    hide ScanOf, ClickHouseReading, ClickHouseRows, TaskRows, Delivers, ParametersOk, Describes, ProjectionFor,
      ClickHouseSelect, ClickHouseSql.StatementText, ClickHouseSql.Parameters, PartitionScalars;
    ClickHouseStatementIsTask(src, pushdowns, scan, task.ids, task.limit);
    ClickHouseStatementRows(src, scan, task, tables, query);
  }

  /** A server can always read the statement of a task and deliver for it. */
  lemma ClickHouseCanDeliver(src: ClickHouseSource, pushdowns: Pushdowns, scan: Scan, group: Option<seq<string>>,
                             limit: Option<nat>, tables: QualifiedTable -> seq<Stored<string>>, query: Query)
    returns (result: seq<Row>)
    requires src.Valid() && ScanOf(src.planning.schema, pushdowns) == Ok(scan) && (group.Some? ==> group.value != [])
    requires ParametersOk(src) && Describes(src.declared, scan.columns)
    ensures var s := ClickHouseSelect(src, scan, group, limit);
            ClickHouseDelivers(src, (ClickHouseSql.StatementText(s), ClickHouseSql.Parameters(s)), result, tables,
                               query)
  {
    hide ScanOf, ClickHouseReading, ClickHouseRows, Delivers, ParametersOk, Describes, ProjectionFor, ClickHouseSelect,
      ClickHouseSql.StatementText, ClickHouseSql.Parameters, PartitionScalars;
    ClickHouseStatementIsTask(src, pushdowns, scan, group, limit);
    var s := ClickHouseSelect(src, scan, group, limit);
    var st := ClickHouseReading(src, (ClickHouseSql.StatementText(s), ClickHouseSql.Parameters(s))).value;
    result := DeliveryExists(ClickHouseRows(st, src.unsafe.Some?, tables, query), st.limit);
  }

  /** End to end: a server reads the emitted statements and their dictionaries, delivers any rows their
      limits allow, and what Daft makes of them is a correct answer. */
  lemma ClickHouseStatementsAnswer(src: ClickHouseSource, pushdowns: Pushdowns, discovery: PartitionDiscovery,
                                   scan: Scan,
                                   statements: seq<(string, map<string, Scalar>)>, results: seq<seq<Row>>,
                                   answer: seq<Row>, tables: QualifiedTable -> seq<Stored<string>>, query: Query)
    requires src.Valid() && Local(query.sem) && ParametersOk(src) && Describes(src.declared, scan.columns)
    requires ScanOf(src.planning.schema, pushdowns) == Ok(scan)
    requires ClickHouseTasks(src.planning, pushdowns, discovery).Ok?
    requires PartitionsSound(discovery, tables(src.table))
    requires src.unsafe.None? ==> forall row :: query.trusted(row)
    requires var tasks := ClickHouseTasks(src.planning, pushdowns, discovery).value;
             && |statements| == |tasks| && |results| == |tasks|
             && forall i | 0 <= i < |tasks| ::
                  var s := ClickHouseSelect(src, scan, tasks[i].ids, tasks[i].limit);
                  && statements[i] == (ClickHouseSql.StatementText(s), ClickHouseSql.Parameters(s))
                  && ClickHouseDelivers(src, statements[i], results[i], tables, query)
    requires DaftAnswer(pushdowns, query.sem, results, answer)
    ensures Correct(pushdowns, tables(src.table), query, scan.columns, answer)
  {
    hide ScanOf, ClickHouseDelivers, TaskRows, Delivers, ParametersOk, PartitionPlan, ClickHouseSelect, DaftAnswer,
      Correct,
      PartitionsSound, Describes, ClickHouseSql.StatementText, ClickHouseSql.Parameters;
    var tasks := ClickHouseTasks(src.planning, pushdowns, discovery).value;
    ClickHouseGroupsUsable(src.planning, scan.limit, discovery);
    forall i | 0 <= i < |tasks| ensures Delivers(TaskRows(tasks[i], tables(src.table), query), tasks[i].limit,
      results[i]) {
      ClickHouseDelivery(src, pushdowns, scan, tasks[i], results[i], tables, query);
    }
    ClickHouseAnswerCorrect(src.planning, pushdowns, discovery, query, tables(src.table), scan, results, answer);
  }
}
