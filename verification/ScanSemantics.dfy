/** What scan tasks return, what Daft does with the results, and when the answer is right. */
module ScanSemantics {
  import opened Wrappers
  import opened Sequences
  import opened PredicateIr
  import opened FilterCompiler

  /** A stored row with the partition or tablet that holds it. */
  datatype Stored<K> = Stored(id: K, row: Row)

  /** One SQL task: its partition or tablet group (none for the whole table), the selected
      columns, the pushed predicate and the pushed limit. */
  datatype Task<K> = Task(ids: Option<seq<K>>, columns: seq<string>, condition: Option<Predicate>, limit: Option<nat>)

  /** The query as the caller meant it: the trusted SQL fragment and Daft's semantics. */
  datatype Query = Query(trusted: Row -> bool, sem: Semantics)

  function ColumnSet(columns: seq<string>): set<string> {
    set c | c in columns
  }

  // ----- filtering -------------------------------------------------------------

  function Filter<T>(s: seq<T>, keep: T -> bool): seq<T> {
    if s == [] then []
    else if keep(s[0]) then [s[0]] + Filter(s[1..], keep)
    else Filter(s[1..], keep)
  }

  /** The projected rows of the table entries that satisfy `keep`. */
  function RowsWhere<K>(table: seq<Stored<K>>, keep: Stored<K> -> bool, columns: set<string>): seq<Row> {
    if table == [] then []
    else if keep(table[0]) then [Project(table[0].row, columns)] + RowsWhere(table[1..], keep, columns)
    else RowsWhere(table[1..], keep, columns)
  }

  lemma {:induction false} FilterCount<T>(s: seq<T>, keep: T -> bool, x: T)
    ensures multiset(Filter(s, keep))[x] == if keep(x) then multiset(s)[x] else 0
  {
    if s != [] {
      FilterCount(s[1..], keep, x);
      assert s == [s[0]] + s[1..];
    }
  }

  lemma FilterPermutation<T(!new)>(a: seq<T>, b: seq<T>, keep: T -> bool)
    requires multiset(a) == multiset(b)
    ensures multiset(Filter(a, keep)) == multiset(Filter(b, keep))
  {
    var fa, fb := multiset(Filter(a, keep)), multiset(Filter(b, keep));
    forall x ensures fa[x] == fb[x] {
      FilterCount(a, keep, x);
      FilterCount(b, keep, x);
    }
    assert fa == fb;
  }

  lemma {:induction false} FilterAll<T>(s: seq<T>, keep: T -> bool)
    requires forall x | x in s :: keep(x)
    ensures Filter(s, keep) == s
  {
    if s != [] {
      FilterAll(s[1..], keep);
      assert s[0] in s;
    }
  }

  lemma {:induction false} RowsWhereAgree<K>(table: seq<Stored<K>>, f: Stored<K> -> bool, g: Stored<K> -> bool,
                                             columns: set<string>)
    requires forall r | r in table :: f(r) == g(r)
    ensures RowsWhere(table, f, columns) == RowsWhere(table, g, columns)
  {
    if table != [] {
      assert table[0] in table;
      RowsWhereAgree(table[1..], f, g, columns);
    }
  }

  lemma {:induction false} RowsWhereNone<K>(table: seq<Stored<K>>, f: Stored<K> -> bool, columns: set<string>)
    requires forall r | r in table :: !f(r)
    ensures RowsWhere(table, f, columns) == []
  {
    if table != [] {
      assert table[0] in table;
      RowsWhereNone(table[1..], f, columns);
    }
  }

  /** Rows selected by exactly one of two conditions split between them. */
  lemma {:induction false} RowsWhereSplit<K>(table: seq<Stored<K>>, f: Stored<K> -> bool,
                                             g: Stored<K> -> bool, h: Stored<K> -> bool, columns: set<string>)
    requires forall r | r in table :: f(r) == (g(r) || h(r)) && !(g(r) && h(r))
    ensures multiset(RowsWhere(table, f, columns)) ==
            multiset(RowsWhere(table, g, columns)) + multiset(RowsWhere(table, h, columns))
  {
    if table != [] {
      assert table[0] in table;
      RowsWhereSplit(table[1..], f, g, h, columns);
    }
  }

  /** Filtering projected rows is selecting by both conditions. */
  lemma {:induction false} FilterRows<K>(table: seq<Stored<K>>, f: Stored<K> -> bool, keep: Row -> bool,
                                         columns: set<string>)
    ensures Filter(RowsWhere(table, f, columns), keep) ==
            RowsWhere(table, (r: Stored<K>) => f(r) && keep(Project(r.row, columns)), columns)
  {
    if table != [] {
      FilterRows(table[1..], f, keep, columns);
    }
  }

  lemma {:induction false} RowsWhereMember<K>(table: seq<Stored<K>>, f: Stored<K> -> bool, columns: set<string>, x: Row)
    requires x in RowsWhere(table, f, columns)
    ensures exists r | r in table :: f(r) && Project(r.row, columns) == x
  {
    if f(table[0]) && Project(table[0].row, columns) == x {
      assert table[0] in table;
    } else {
      RowsWhereMember(table[1..], f, columns, x);
      var r :| r in table[1..] && f(r) && Project(r.row, columns) == x;
      assert r in table;
    }
  }

  // ----- the database ------------------------------------------------------------

  function Min(a: nat, b: nat): nat {
    if a <= b then a else b
  }

  /** `result` is what a source may deliver for `rows` under an optional limit: all of them, or any
      `min(limit, |rows|)` of them. */
  ghost predicate Delivers(rows: seq<Row>, limit: Option<nat>, result: seq<Row>) {
    match limit
    case None => multiset(result) == multiset(rows)
    case Some(n) => multiset(result) <= multiset(rows) && |result| == Min(n, |rows|)
  }

  /** Something can always be delivered. */
  lemma DeliveryExists(rows: seq<Row>, limit: Option<nat>) returns (result: seq<Row>)
    ensures Delivers(rows, limit, result)
  {
    result := if limit.None? || |rows| <= limit.value then rows else rows[..limit.value];
    if limit.Some? && limit.value < |rows| {
      assert rows == rows[..limit.value] + rows[limit.value..];
    }
  }

  predicate Pushed(condition: Option<Predicate>, query: Query, row: Row) {
    condition.None? || Eval(condition.value, row, query.sem.compare).True?
  }

  /** The WHERE clause without the group restriction. */
  function Matching<K>(query: Query, condition: Option<Predicate>): Stored<K> -> bool {
    (r: Stored<K>) => query.trusted(r.row) && Pushed(condition, query, r.row)
  }

  function InGroup<K(==)>(ids: Option<seq<K>>, base: Stored<K> -> bool): Stored<K> -> bool {
    (r: Stored<K>) => (ids.None? || r.id in ids.value) && base(r)
  }

  function TaskRows<K(==)>(task: Task<K>, table: seq<Stored<K>>, query: Query): seq<Row> {
    RowsWhere(table, InGroup(task.ids, Matching(query, task.condition)), ColumnSet(task.columns))
  }

  /** One delivered result per task. */
  ghost predicate Results<K>(tasks: seq<Task<K>>, table: seq<Stored<K>>, query: Query, results: seq<seq<Row>>) {
    && |results| == |tasks|
    && forall i | 0 <= i < |tasks| :: Delivers(TaskRows(tasks[i], table, query), tasks[i].limit, results[i])
  }

  // ----- Daft ----------------------------------------------------------------------

  function Qualifies(filters: Option<Expr>, sem: Semantics): Row -> bool {
    (row: Row) => filters.None? || EvalExpr(filters.value, row, sem).True?
  }

  /** Daft reapplies its filter to everything the tasks returned and takes its limit. */
  ghost predicate DaftAnswer(pushdowns: Pushdowns, sem: Semantics, results: seq<seq<Row>>, answer: seq<Row>) {
    Delivers(Filter(Flatten(results), Qualifies(pushdowns.filters, sem)), pushdowns.limit, answer)
  }

  function Wanted<K>(pushdowns: Pushdowns, query: Query): Stored<K> -> bool {
    (r: Stored<K>) => query.trusted(r.row) && Qualifies(pushdowns.filters, query.sem)(r.row)
  }

  /** The answer a single unsplit, unoptimised scan would give: exactly the qualifying rows, or
      `min(limit, count)` of them, projected to the scanned columns. */
  ghost predicate Correct<K>(pushdowns: Pushdowns, table: seq<Stored<K>>, query: Query, columns: seq<string>,
                             answer: seq<Row>) {
    Delivers(RowsWhere(table, Wanted(pushdowns, query), ColumnSet(columns)), pushdowns.limit, answer)
  }

  // ----- tasks that tile the table ---------------------------------------------------

  /** Every entry satisfying `base` lies in exactly one of the groups. */
  ghost predicate Tiling<K(!new)>(groups: seq<seq<K>>, table: seq<Stored<K>>, base: Stored<K> -> bool) {
    && Distinct(Flatten(groups))
    && forall r | r in table && base(r) :: r.id in Flatten(groups)
  }

  function GroupRows<K(==)>(groups: seq<seq<K>>, table: seq<Stored<K>>, base: Stored<K> -> bool,
                            columns: set<string>): (r: seq<seq<Row>>)
    ensures |r| == |groups|
    ensures forall i | 0 <= i < |groups| :: r[i] == RowsWhere(table, InGroup(Some(groups[i]), base), columns)
  {
    if groups == [] then []
    else [RowsWhere(table, InGroup(Some(groups[0]), base), columns)] + GroupRows(groups[1..], table, base, columns)
  }

  /** The groups together select each entry once. */
  lemma {:induction false} GroupRowsUnion<K(!new)>(groups: seq<seq<K>>, table: seq<Stored<K>>, base: Stored<K> -> bool,
                                                   columns: set<string>)
    requires Distinct(Flatten(groups))
    ensures multiset(Flatten(GroupRows(groups, table, base, columns))) ==
            multiset(RowsWhere(table, InGroup(Some(Flatten(groups)), base), columns))
  {
    if groups == [] {
      RowsWhereNone(table, InGroup(Some([]), base), columns);
    } else {
      var head, rest := groups[0], Flatten(groups[1..]);
      DistinctParts(head, rest);
      GroupRowsUnion(groups[1..], table, base, columns);
      forall r | r in table
        ensures InGroup(Some(head + rest), base)(r) == (InGroup(Some(head), base)(r) || InGroup(Some(rest), base)(r))
        ensures !(InGroup(Some(head), base)(r) && InGroup(Some(rest), base)(r))
      {
      }
      RowsWhereSplit(table, InGroup(Some(head + rest), base), InGroup(Some(head), base), InGroup(Some(rest), base),
        columns);
    }
  }

  lemma DistinctParts<K>(a: seq<K>, b: seq<K>)
    requires Distinct(a + b)
    ensures Distinct(a) && Distinct(b)
    ensures forall x :: !(x in a && x in b)
  {
    var s := a + b;
    forall i, j | 0 <= i < j < |a| ensures a[i] != a[j] {
      assert s[i] != s[j];
    }
    forall i, j | 0 <= i < j < |b| ensures b[i] != b[j] {
      assert s[|a| + i] != s[|a| + j];
    }
    forall x | x in a ensures x !in b {
      var i :| 0 <= i < |a| && a[i] == x;
      forall j | 0 <= j < |b| ensures b[j] != x {
        assert s[i] != s[|a| + j];
      }
    }
  }

  lemma TilingSelectsAll<K(!new)>(groups: seq<seq<K>>, table: seq<Stored<K>>, base: Stored<K> -> bool,
                                  columns: set<string>)
    requires Tiling(groups, table, base)
    ensures multiset(Flatten(GroupRows(groups, table, base, columns))) == multiset(RowsWhere(table, base, columns))
  {
    GroupRowsUnion(groups, table, base, columns);
    RowsWhereAgree(table, InGroup(Some(Flatten(groups)), base), base, columns);
  }

  // ----- delivered results -------------------------------------------------------------

  ghost predicate AllDelivered(parts: seq<seq<Row>>, limit: Option<nat>, results: seq<seq<Row>>) {
    |results| == |parts| && forall i | 0 <= i < |parts| :: Delivers(parts[i], limit, results[i])
  }

  /** Without a limit nothing is lost; with one, enough rows arrive and none twice. */
  lemma {:induction false} DeliveredTogether(parts: seq<seq<Row>>, limit: Option<nat>, results: seq<seq<Row>>)
    requires AllDelivered(parts, limit, results)
    ensures limit.None? ==> multiset(Flatten(results)) == multiset(Flatten(parts))
    ensures limit.Some? ==> multiset(Flatten(results)) <= multiset(Flatten(parts))
    ensures limit.Some? ==> Min(limit.value, |Flatten(parts)|) <= |Flatten(results)| <= |Flatten(parts)|
  {
    if parts != [] {
      assert Delivers(parts[0], limit, results[0]);
      assert AllDelivered(parts[1..], limit, results[1..]) by {
        forall i | 0 <= i < |parts| - 1 ensures Delivers(parts[1..][i], limit, results[1..][i]) {
          assert Delivers(parts[i + 1], limit, results[i + 1]);
        }
      }
      DeliveredTogether(parts[1..], limit, results[1..]);
    }
  }

  // ----- the end-to-end argument -----------------------------------------------------

  /** The limit that may be pushed together with `condition`, or any smaller number of rows once
      nothing can match. */
  ghost predicate PushableLimit<K(!new)>(pushdowns: Pushdowns, condition: Option<Predicate>, limit: Option<nat>,
                                         table: seq<Stored<K>>, query: Query) {
    || limit == SafeDatabaseLimit(pushdowns, condition)
    || (limit == Some(0) && forall r | r in table :: !Matching(query, condition)(r))
  }

  ghost predicate ScanSetting(pushdowns: Pushdowns, condition: Option<Predicate>, columns: seq<string>, query: Query) {
    && Local(query.sem)
    && FilterColumns(pushdowns) <= ColumnSet(columns)
    && CompileFilter(pushdowns.filters) == Ok(condition)
  }

  /** On projected rows Daft's filter keeps its value. */
  lemma QualifiesProjected(pushdowns: Pushdowns, columns: set<string>, sem: Semantics, row: Row)
    requires Local(sem) && FilterColumns(pushdowns) <= columns
    ensures Qualifies(pushdowns.filters, sem)(Project(row, columns)) == Qualifies(pushdowns.filters, sem)(row)
  {
    if pushdowns.filters.Some? {
      EvalExprProjected(pushdowns.filters.value, row, columns, sem);
    }
  }

  /** The pushed condition never drops a wanted row, and with a pushed predicate or without any
      filter it selects exactly the wanted rows. */
  lemma MatchingVersusWanted<K>(pushdowns: Pushdowns, condition: Option<Predicate>, query: Query, r: Stored<K>)
    requires CompileFilter(pushdowns.filters) == Ok(condition)
    ensures Wanted(pushdowns, query)(r) ==> Matching(query, condition)(r)
    ensures pushdowns.filters.None? || condition.Some? ==> Matching(query, condition)(r) == Wanted(pushdowns, query)(r)
  {
    assert Matching<K>(query, condition)(r) == (query.trusted(r.row) && Pushed(condition, query, r.row));
    assert Wanted<K>(pushdowns, query)(r) == (query.trusted(r.row) && Qualifies(pushdowns.filters, query.sem)(r.row));
    if condition.Some? {
      PushedFilterMeaning(pushdowns.filters.value, condition.value, r.row, query.sem);
      assert Pushed(condition, query, r.row) == EvalExpr(pushdowns.filters.value, r.row, query.sem).True?;
      assert Qualifies(pushdowns.filters, query.sem)(r.row) ==
              EvalExpr(pushdowns.filters.value, r.row, query.sem).True?;
    }
  }

  /** Reapplying the filter to all matching rows leaves the wanted ones. */
  lemma FilteredMatching<K(!new)>(pushdowns: Pushdowns, condition: Option<Predicate>, columns: seq<string>,
                                  query: Query, table: seq<Stored<K>>)
    requires ScanSetting(pushdowns, condition, columns, query)
    ensures Filter(RowsWhere(table, Matching(query, condition), ColumnSet(columns)),
            Qualifies(pushdowns.filters, query.sem))
            == RowsWhere(table, Wanted(pushdowns, query), ColumnSet(columns))
  {
    var cols, base, keep := ColumnSet(columns), Matching<K>(query, condition), Qualifies(pushdowns.filters, query.sem);
    FilterRows(table, base, keep, cols);
    var both := (r: Stored<K>) => base(r) && keep(Project(r.row, cols));
    forall r | r in table ensures both(r) == Wanted(pushdowns, query)(r) {
      QualifiesProjected(pushdowns, cols, query.sem, r.row);
      MatchingVersusWanted(pushdowns, condition, query, r);
    }
    RowsWhereAgree(table, both, Wanted(pushdowns, query), cols);
  }

  /** When the pushed condition is exact, Daft's filter keeps everything it is given. */
  lemma ExactConditionKeepsAll<K(!new)>(pushdowns: Pushdowns, condition: Option<Predicate>, columns: seq<string>,
                                        query: Query, table: seq<Stored<K>>, rows: seq<Row>)
    requires ScanSetting(pushdowns, condition, columns, query)
    requires pushdowns.filters.None? || condition.Some?
    requires multiset(rows) <= multiset(RowsWhere(table, Matching(query, condition), ColumnSet(columns)))
    ensures Filter(rows, Qualifies(pushdowns.filters, query.sem)) == rows
  {
    var cols, base := ColumnSet(columns), Matching<K>(query, condition);
    forall x | x in rows ensures Qualifies(pushdowns.filters, query.sem)(x) {
      assert x in multiset(rows);
      assert x in multiset(RowsWhere(table, base, cols));
      RowsWhereMember(table, base, cols, x);
      var r :| r in table && base(r) && Project(r.row, cols) == x;
      MatchingVersusWanted(pushdowns, condition, query, r);
      QualifiesProjected(pushdowns, cols, query.sem, r.row);
    }
    FilterAll(rows, Qualifies(pushdowns.filters, query.sem));
  }

  lemma ExactConditionRows<K(!new)>(pushdowns: Pushdowns, condition: Option<Predicate>, columns: seq<string>,
                                    query: Query, table: seq<Stored<K>>)
    requires ScanSetting(pushdowns, condition, columns, query)
    requires pushdowns.filters.None? || condition.Some?
    ensures RowsWhere(table, Matching(query, condition), ColumnSet(columns))
            == RowsWhere(table, Wanted(pushdowns, query), ColumnSet(columns))
  {
    forall r | r in table ensures Matching<K>(query, condition)(r) == Wanted(pushdowns, query)(r) {
      MatchingVersusWanted(pushdowns, condition, query, r);
    }
    RowsWhereAgree(table, Matching(query, condition), Wanted(pushdowns, query), ColumnSet(columns));
  }

  /** Whatever way of cutting the matching rows into parts, delivering each part under the pushed
      limit, refiltering and taking the global limit gives a correct answer. */
  lemma PartsAnswer<K(!new)>(pushdowns: Pushdowns, condition: Option<Predicate>, limit: Option<nat>,
                             columns: seq<string>,
                             query: Query, table: seq<Stored<K>>, parts: seq<seq<Row>>, results: seq<seq<Row>>,
                             answer: seq<Row>)
    requires ScanSetting(pushdowns, condition, columns, query)
    requires PushableLimit(pushdowns, condition, limit, table, query)
    requires multiset(Flatten(parts)) == multiset(RowsWhere(table, Matching(query, condition), ColumnSet(columns)))
    requires AllDelivered(parts, limit, results)
    requires DaftAnswer(pushdowns, query.sem, results, answer)
    ensures Correct(pushdowns, table, query, columns, answer)
  {
    DeliveredTogether(parts, limit, results);
    var cols, base := ColumnSet(columns), Matching<K>(query, condition);
    var matched, wanted := RowsWhere(table, base, cols), RowsWhere(table, Wanted(pushdowns, query), cols);
    var keep := Qualifies(pushdowns.filters, query.sem);
    assert |Flatten(parts)| == |multiset(Flatten(parts))| == |multiset(matched)| == |matched|;
    if limit.None? {
      UnlimitedAnswer(pushdowns, condition, columns, query, table, results, answer);
    } else if limit == Some(0) {
      EmptyAnswer(pushdowns, condition, columns, query, table, results, answer);
    } else {
      ExactConditionKeepsAll(pushdowns, condition, columns, query, table, Flatten(results));
      ExactConditionRows(pushdowns, condition, columns, query, table);
    }
  }

  lemma UnlimitedAnswer<K(!new)>(pushdowns: Pushdowns, condition: Option<Predicate>, columns: seq<string>,
                                 query: Query, table: seq<Stored<K>>, results: seq<seq<Row>>, answer: seq<Row>)
    requires ScanSetting(pushdowns, condition, columns, query)
    requires multiset(Flatten(results)) == multiset(RowsWhere(table, Matching(query, condition), ColumnSet(columns)))
    requires DaftAnswer(pushdowns, query.sem, results, answer)
    ensures Correct(pushdowns, table, query, columns, answer)
  {
    var keep := Qualifies(pushdowns.filters, query.sem);
    var matched := RowsWhere(table, Matching(query, condition), ColumnSet(columns));
    FilterPermutation(Flatten(results), matched, keep);
    FilteredMatching(pushdowns, condition, columns, query, table);
    var wanted := RowsWhere(table, Wanted(pushdowns, query), ColumnSet(columns));
    var kept := Filter(Flatten(results), keep);
    assert |kept| == |multiset(kept)| == |multiset(wanted)| == |wanted|;
  }

  lemma EmptyAnswer<K(!new)>(pushdowns: Pushdowns, condition: Option<Predicate>, columns: seq<string>,
                             query: Query, table: seq<Stored<K>>, results: seq<seq<Row>>, answer: seq<Row>)
    requires ScanSetting(pushdowns, condition, columns, query)
    requires pushdowns.limit == Some(0) || forall r | r in table :: !Matching(query, condition)(r)
    requires multiset(Flatten(results)) <= multiset(RowsWhere(table, Matching(query, condition), ColumnSet(columns)))
    requires DaftAnswer(pushdowns, query.sem, results, answer)
    ensures Correct(pushdowns, table, query, columns, answer)
  {
    var cols := ColumnSet(columns);
    if pushdowns.limit == Some(0) {
      assert answer == [];
    } else {
      RowsWhereNone(table, Matching(query, condition), cols);
      forall r | r in table ensures !Wanted(pushdowns, query)(r) {
        MatchingVersusWanted(pushdowns, condition, query, r);
      }
      RowsWhereNone(table, Wanted(pushdowns, query), cols);
      assert |Flatten(results)| == |multiset(Flatten(results))| == 0;
      assert answer == [];
    }
  }
}
