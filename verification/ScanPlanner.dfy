/** Task planning of the ClickHouse and Doris data sources, end to end. */
module ScanPlanner {
  import opened Wrappers
  import opened Sequences
  import opened PredicateIr
  import opened FilterCompiler
  import opened ScanSemantics
  import WeightedGroups
  import AdjacentGroups

  datatype SplitMode = Single | Auto
  datatype DiscoveryPolicy = FallBack | Raise

  /** The planning options of one data source. */
  datatype Source = Source(schema: seq<string>, split: SplitMode, policy: DiscoveryPolicy, target: nat, max: nat) {
    ghost predicate Valid() { 1 <= target <= max }
  }

  /** One entry per task: a group of identifiers or the whole table. */
  datatype Plan<K> = Plan(groups: seq<Option<seq<K>>>, emptyResult: bool)

  function WholeTable<K>(): Plan<K> {
    Plan([None], false)
  }

  function Restricted<K>(groups: seq<seq<K>>): (r: seq<Option<seq<K>>>)
    ensures |r| == |groups| && forall i | 0 <= i < |groups| :: r[i] == Some(groups[i])
  {
    if groups == [] then [] else [Some(groups[0])] + Restricted(groups[1..])
  }

  // ----- ClickHouse partitions --------------------------------------------------

  datatype PartitionDiscovery = PartitionsUnknown | Partitions(supported: bool, items: seq<WeightedGroups.Item>)

  function PartitionPlan(source: Source, limit: Option<nat>, discovery: PartitionDiscovery): Result<Plan<string>>
    requires source.Valid()
  {
    if source.split.Single? || limit == Some(0) then Ok(WholeTable())
    else if "_partition_id" in source.schema then Ok(WholeTable())
    else
      match discovery
      case PartitionsUnknown => if source.policy.Raise? then Err(Discovery) else Ok(WholeTable())
      case Partitions(supported, items) =>
        if !supported || items == [] then Ok(WholeTable())
        else Ok(Plan(Restricted(WeightedGroups.Groups(items, source.target, source.max)), false))
  }

  /** The identifiers of restricted groups, in order. */
  function IdsOf<K>(groups: seq<Option<seq<K>>>): seq<K> {
    if groups == [] then [] else (if groups[0].Some? then groups[0].value else []) + IdsOf(groups[1..])
  }

  lemma {:induction false} RestrictedIds<K>(groups: seq<seq<K>>)
    ensures IdsOf(Restricted(groups)) == Flatten(groups)
  {
    if groups != [] {
      RestrictedIds(groups[1..]);
      assert Restricted(groups)[1..] == Restricted(groups[1..]);
    }
  }

  /** A ClickHouse scan is split exactly when splitting is on, rows are wanted, no physical column hides
      the virtual `_partition_id`, and a supported, non-empty partition list is known; then every
      partition is in one group. It fails exactly when discovery was needed, failed, and must not. */
  lemma PartitionSplitIff(source: Source, limit: Option<nat>, discovery: PartitionDiscovery)
    requires source.Valid()
    ensures var plan := PartitionPlan(source, limit, discovery);
            var asked := source.split.Auto? && limit != Some(0) && "_partition_id" !in source.schema;
            var listed := discovery.Partitions? && discovery.supported && discovery.items != [];
            && (plan.Err? <==> asked && discovery.PartitionsUnknown? && source.policy.Raise?)
            && (plan.Err? ==> plan.error == Discovery)
            && (plan.Ok? ==> !plan.value.emptyResult)
            && (plan.Ok? && !(asked && listed) ==> plan.value.groups == [None])
            && (asked && listed ==>
                  && (forall i | 0 <= i < |plan.value.groups| :: plan.value.groups[i].Some?)
                  && multiset(IdsOf(plan.value.groups)) == multiset(WeightedGroups.Names(discovery.items)))
  {
    hide WeightedGroups.Groups, WeightedGroups.Names, IdsOf, Flatten;
    if discovery.Partitions? {
      WeightedGroups.GroupsPartition(discovery.items, source.target, source.max);
      RestrictedIds(WeightedGroups.Groups(discovery.items, source.target, source.max));
    }
  }

  // ----- Doris tablets ------------------------------------------------------------

  datatype TabletDiscovery = TabletsUnknown | Tablets(ids: seq<int>)

  function TabletPlan(source: Source, limit: Option<nat>, discovery: TabletDiscovery): Result<Plan<int>>
    requires source.Valid()
  {
    if source.split.Single? || limit == Some(0) then Ok(WholeTable())
    else
      match discovery
      case TabletsUnknown => if source.policy.Raise? then Err(Discovery) else Ok(WholeTable())
      case Tablets(ids) =>
        if ids == [] then Ok(Plan([None], true))
        else Ok(Plan(Restricted(AdjacentGroups.Groups(ids, source.target, source.max)), false))
  }

  /** A Doris scan is split exactly when splitting is on, rows are wanted and pruning left tablets; when
      pruning left none the one task is marked as empty. */
  lemma TabletSplitIff(source: Source, limit: Option<nat>, discovery: TabletDiscovery)
    requires source.Valid()
    ensures var plan := TabletPlan(source, limit, discovery);
            var asked := source.split.Auto? && limit != Some(0);
            && (plan.Err? <==> asked && discovery.TabletsUnknown? && source.policy.Raise?)
            && (plan.Err? ==> plan.error == Discovery)
            && (plan.Ok? ==> (plan.value.emptyResult <==> asked && discovery == Tablets([])))
            && (plan.Ok? && !(asked && discovery.Tablets? && discovery.ids != []) ==> plan.value.groups == [None])
            && (asked && discovery.Tablets? && discovery.ids != [] ==>
                  && (forall i | 0 <= i < |plan.value.groups| :: plan.value.groups[i].Some?)
                  && multiset(IdsOf(plan.value.groups)) == multiset(discovery.ids))
  {
    hide AdjacentGroups.Groups, IdsOf, Flatten;
    if discovery.Tablets? {
      AdjacentGroups.GroupsChunkSorted(discovery.ids, source.target, source.max);
      RestrictedIds(AdjacentGroups.Groups(discovery.ids, source.target, source.max));
    }
  }

  // ----- task emission ----------------------------------------------------------------

  /** The columns, condition and limit shared by all tasks of one scan. */
  datatype Scan = Scan(columns: seq<string>, condition: Option<Predicate>, limit: Option<nat>)

  function ScanOf(schema: seq<string>, pushdowns: Pushdowns): Result<Scan> {
    var columns :- ScanColumns(pushdowns, schema);
    if columns == [] then Err(Compatibility)
    else
      var condition :- CompileFilter(pushdowns.filters);
      Ok(Scan(columns, condition, SafeDatabaseLimit(pushdowns, condition)))
  }

  function TaskLimit<K>(scan: Scan, plan: Plan<K>): Option<nat> {
    if plan.emptyResult then Some(0) else scan.limit
  }

  function TasksOf<K>(scan: Scan, plan: Plan<K>): (tasks: seq<Task<K>>)
    ensures |tasks| == |plan.groups|
    ensures forall i | 0 <= i < |tasks| ::
              tasks[i] == Task(plan.groups[i], scan.columns, scan.condition, TaskLimit(scan, plan))
  {
    seq(|plan.groups|, i requires 0 <= i < |plan.groups| =>
      Task(plan.groups[i], scan.columns, scan.condition, TaskLimit(scan, plan)))
  }

  method EmitTasks<K>(scan: Scan, plan: Plan<K>) returns (tasks: seq<Task<K>>)
    ensures tasks == TasksOf(scan, plan)
  {
    tasks := [];
    for i := 0 to |plan.groups|
      invariant tasks == TasksOf(scan, plan)[..i]
    {
      tasks := tasks + [Task(plan.groups[i], scan.columns, scan.condition, TaskLimit(scan, plan))];
    }
  }

  function ClickHouseTasks(source: Source, pushdowns: Pushdowns,
                           discovery: PartitionDiscovery): Result<seq<Task<string>>>
    requires source.Valid()
  {
    var scan :- ScanOf(source.schema, pushdowns);
    var plan :- PartitionPlan(source, scan.limit, discovery);
    Ok(TasksOf(scan, plan))
  }

  function DorisTasks(source: Source, pushdowns: Pushdowns, discovery: TabletDiscovery): Result<seq<Task<int>>>
    requires source.Valid()
  {
    var scan :- ScanOf(source.schema, pushdowns);
    var plan :- TabletPlan(source, scan.limit, discovery);
    Ok(TasksOf(scan, plan))
  }

  /** `get_tasks` of the ClickHouse source. */
  method ClickHouseGetTasks(source: Source, pushdowns: Pushdowns, discovery: PartitionDiscovery)
    returns (r: Result<seq<Task<string>>>)
    requires source.Valid()
    ensures r == ClickHouseTasks(source, pushdowns, discovery)
  {
    var columns := RequiredScanColumns(pushdowns, source.schema);
    if columns.Err? {
      return Err(columns.error);
    }
    if columns.value == [] {
      return Err(Compatibility);
    }
    var condition := CompileFilter(pushdowns.filters);
    if condition.Err? {
      return Err(condition.error);
    }
    var limit := SafeDatabaseLimit(pushdowns, condition.value);
    var plan := PartitionPlan(source, limit, discovery);
    if plan.Err? {
      return Err(plan.error);
    }
    var tasks := EmitTasks(Scan(columns.value, condition.value, limit), plan.value);
    r := Ok(tasks);
  }

  /** `get_tasks` of the Doris source. */
  method DorisGetTasks(source: Source, pushdowns: Pushdowns, discovery: TabletDiscovery)
    returns (r: Result<seq<Task<int>>>)
    requires source.Valid()
    ensures r == DorisTasks(source, pushdowns, discovery)
  {
    var columns := RequiredScanColumns(pushdowns, source.schema);
    if columns.Err? {
      return Err(columns.error);
    }
    if columns.value == [] {
      return Err(Compatibility);
    }
    var condition := CompileFilter(pushdowns.filters);
    if condition.Err? {
      return Err(condition.error);
    }
    var limit := SafeDatabaseLimit(pushdowns, condition.value);
    var plan := TabletPlan(source, limit, discovery);
    if plan.Err? {
      return Err(plan.error);
    }
    var tasks := EmitTasks(Scan(columns.value, condition.value, limit), plan.value);
    r := Ok(tasks);
  }

  /** Every task of a plan carries the scan's limit, except that a Doris scan whose pruning left no tablet
      becomes a single task that asks for no row. */
  lemma EmptyPruningAsksForNothing(source: Source, pushdowns: Pushdowns, discovery: TabletDiscovery, scan: Scan)
    requires source.Valid() && ScanOf(source.schema, pushdowns) == Ok(scan)
    requires DorisTasks(source, pushdowns, discovery).Ok?
    ensures var tasks := DorisTasks(source, pushdowns, discovery).value;
            if source.split.Auto? && scan.limit != Some(0) && discovery == Tablets([]) then
              tasks == [Task(None, scan.columns, scan.condition, Some(0))]
            else forall i | 0 <= i < |tasks| :: tasks[i].limit == scan.limit
  {
    hide ScanOf, AdjacentGroups.Groups;
    TabletSplitIff(source, scan.limit, discovery);
  }

  // ----- correctness --------------------------------------------------------------------

  lemma ScanSettingHolds(schema: seq<string>, pushdowns: Pushdowns, scan: Scan, query: Query)
    requires ScanOf(schema, pushdowns) == Ok(scan) && Local(query.sem)
    ensures ScanSetting(pushdowns, scan.condition, scan.columns, query)
    ensures scan.limit == SafeDatabaseLimit(pushdowns, scan.condition)
    ensures ColumnSet(scan.columns) == RequestedColumns(pushdowns, schema)
  {
  }

  /** One task over the whole table answers correctly; with an empty plan nothing matches. */
  lemma WholeTableAnswer<K(!new)>(pushdowns: Pushdowns, scan: Scan, query: Query, plan: Plan<K>, table: seq<Stored<K>>,
                                  results: seq<seq<Row>>, answer: seq<Row>)
    requires ScanSetting(pushdowns, scan.condition, scan.columns, query)
    requires scan.limit == SafeDatabaseLimit(pushdowns, scan.condition)
    requires plan.groups == [None]
    requires plan.emptyResult ==> forall r | r in table :: !Matching(query, scan.condition)(r)
    requires Results(TasksOf(scan, plan), table, query, results)
    requires DaftAnswer(pushdowns, query.sem, results, answer)
    ensures Correct(pushdowns, table, query, scan.columns, answer)
  {
    var base, cols := Matching<K>(query, scan.condition), ColumnSet(scan.columns);
    var parts := [RowsWhere(table, base, cols)];
    assert Flatten(parts) == RowsWhere(table, base, cols);
    RowsWhereAgree(table, InGroup(None, base), base, cols);
    assert Delivers(TaskRows(TasksOf(scan, plan)[0], table, query), TaskLimit(scan, plan), results[0]);
    PartsAnswer(pushdowns, scan.condition, TaskLimit(scan, plan), scan.columns, query, table, parts, results, answer);
  }

  /** One task per group of a tiling answers correctly. */
  lemma SplitAnswer<K(!new)>(pushdowns: Pushdowns, scan: Scan, query: Query, groups: seq<seq<K>>, table: seq<Stored<K>>,
                             results: seq<seq<Row>>, answer: seq<Row>)
    requires ScanSetting(pushdowns, scan.condition, scan.columns, query)
    requires scan.limit == SafeDatabaseLimit(pushdowns, scan.condition)
    requires Tiling(groups, table, Matching(query, scan.condition))
    requires Results(TasksOf(scan, Plan(Restricted(groups), false)), table, query, results)
    requires DaftAnswer(pushdowns, query.sem, results, answer)
    ensures Correct(pushdowns, table, query, scan.columns, answer)
  {
    var base, cols := Matching<K>(query, scan.condition), ColumnSet(scan.columns);
    var plan := Plan(Restricted(groups), false);
    var parts := GroupRows(groups, table, base, cols);
    TilingSelectsAll(groups, table, base, cols);
    forall i | 0 <= i < |parts| ensures Delivers(parts[i], scan.limit, results[i]) {
      assert TasksOf(scan, plan)[i].ids == Some(groups[i]);
      assert Delivers(TaskRows(TasksOf(scan, plan)[i], table, query), scan.limit, results[i]);
    }
    PartsAnswer(pushdowns, scan.condition, scan.limit, scan.columns, query, table, parts, results, answer);
  }

  lemma DistinctPermutation<K(!new)>(a: seq<K>, b: seq<K>)
    requires multiset(a) == multiset(b) && Distinct(a)
    ensures Distinct(b)
    ensures forall x :: x in a <==> x in b
  {
    forall x ensures x in a <==> x in b {
      assert x in multiset(a) <==> x in a;
      assert x in multiset(b) <==> x in b;
    }
    forall i, j | 0 <= i < j < |b| ensures b[i] != b[j] {
      if b[i] == b[j] {
        RepeatedCount(b, i, j);
        DistinctCount(a, b[i]);
      }
    }
  }

  lemma RepeatedCount<K>(s: seq<K>, i: nat, j: nat)
    requires i < j < |s| && s[i] == s[j]
    ensures multiset(s)[s[i]] >= 2
  {
    assert s == s[..i] + [s[i]] + s[i + 1..j] + [s[j]] + s[j + 1..];
  }

  lemma {:induction false} DistinctCount<K>(s: seq<K>, x: K)
    requires Distinct(s)
    ensures multiset(s)[x] <= 1
  {
    if s != [] {
      assert s == [s[0]] + s[1..];
      if s[0] == x {
        assert x !in s[1..];
      }
      DistinctCount(s[1..], x);
    }
  }

  /** What partition discovery guarantees: distinct partition names that hold every row. */
  ghost predicate PartitionsSound(discovery: PartitionDiscovery, table: seq<Stored<string>>) {
    discovery.Partitions? && discovery.supported && discovery.items != [] ==>
      && Distinct(WeightedGroups.Names(discovery.items))
      && forall r | r in table :: r.id in WeightedGroups.Names(discovery.items)
  }

  /** For every table, filter, trusted fragment, limit and split option, and whatever rows the
      database picks under a limit, Daft's answer from the ClickHouse tasks is correct. */
  lemma ClickHouseAnswerCorrect(source: Source, pushdowns: Pushdowns, discovery: PartitionDiscovery, query: Query,
                                table: seq<Stored<string>>, scan: Scan, results: seq<seq<Row>>, answer: seq<Row>)
    requires source.Valid() && Local(query.sem) && PartitionsSound(discovery, table)
    requires ScanOf(source.schema, pushdowns) == Ok(scan)
    requires ClickHouseTasks(source, pushdowns, discovery).Ok?
    requires Results(ClickHouseTasks(source, pushdowns, discovery).value, table, query, results)
    requires DaftAnswer(pushdowns, query.sem, results, answer)
    ensures Correct(pushdowns, table, query, scan.columns, answer)
  {
    ScanSettingHolds(source.schema, pushdowns, scan, query);
    var plan := PartitionPlan(source, scan.limit, discovery).value;
    if plan == WholeTable() {
      WholeTableAnswer(pushdowns, scan, query, plan, table, results, answer);
    } else {
      var items := discovery.items;
      var groups := WeightedGroups.Groups(items, source.target, source.max);
      WeightedGroups.GroupsPartition(items, source.target, source.max);
      DistinctPermutation(WeightedGroups.Names(items), Flatten(groups));
      SplitAnswer(pushdowns, scan, query, groups, table, results, answer);
    }
  }

  /** What tablet pruning guarantees for the planning query: distinct tablets that hold every row
      the query matches. */
  ghost predicate TabletsSound(discovery: TabletDiscovery, table: seq<Stored<int>>, query: Query,
                               condition: Option<Predicate>) {
    discovery.Tablets? ==>
      && Distinct(discovery.ids)
      && forall r | r in table && Matching(query, condition)(r) :: r.id in discovery.ids
  }

  /** The same for Doris, including the empty pruning result that becomes a single LIMIT 0 task. */
  lemma DorisAnswerCorrect(source: Source, pushdowns: Pushdowns, discovery: TabletDiscovery, query: Query,
                           table: seq<Stored<int>>, scan: Scan, results: seq<seq<Row>>, answer: seq<Row>)
    requires source.Valid() && Local(query.sem)
    requires ScanOf(source.schema, pushdowns) == Ok(scan)
    requires TabletsSound(discovery, table, query, scan.condition)
    requires DorisTasks(source, pushdowns, discovery).Ok?
    requires Results(DorisTasks(source, pushdowns, discovery).value, table, query, results)
    requires DaftAnswer(pushdowns, query.sem, results, answer)
    ensures Correct(pushdowns, table, query, scan.columns, answer)
  {
    ScanSettingHolds(source.schema, pushdowns, scan, query);
    var plan := TabletPlan(source, scan.limit, discovery).value;
    if plan.groups == [None] {
      WholeTableAnswer(pushdowns, scan, query, plan, table, results, answer);
    } else {
      var ids := discovery.ids;
      var groups := AdjacentGroups.Groups(ids, source.target, source.max);
      AdjacentGroups.GroupsChunkSorted(ids, source.target, source.max);
      DistinctPermutation(ids, Flatten(groups));
      SplitAnswer(pushdowns, scan, query, groups, table, results, answer);
    }
  }
}
