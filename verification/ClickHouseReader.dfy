/** A reader for ClickHouse SELECT statements, and that it inverts their construction. */
module ClickHouseReader {
  import opened Wrappers
  import opened Sequences
  import opened PredicateIr
  import opened Identifiers
  import opened PredicateText
  import opened SelectText
  import opened NamedBinding
  import opened StatementReader
  import TypeArguments
  import TransportTypes
  import ClickHouseFragment
  import ClickHouseSql

  datatype Statement = Statement(
    projection: Projection,
    table: QualifiedTable,
    condition: Option<Predicate>,
    partitions: Option<seq<Scalar>>,
    limit: Option<nat>)

  // ----- reading ---------------------------------------------------------------------------------------

  /** A type up to the parenthesis that closes the cast: the first one outside its own nesting and
      quotes. */
  function ReadType(l: TypeArguments.Lex, s: string): (r: Option<(string, string)>)
    ensures r.Some? ==> |r.value.1| < |s|
    decreases |s|
  {
    if s == [] then None
    else if s[0] == ')' && l == TypeArguments.NEUTRAL then Some(("", s[1..]))
    else Consing(s[0], ReadType(TypeArguments.LexStep(l, s[0]), s[1..]))
  }

  /** A column: its name, or a cast of it under the same name. */
  function ReadColumn(s: string): (r: Option<((string, Option<string>), string)>)
    ensures r.Some? ==> |r.value.1| < |s|
  {
    var cast := After(s, "CAST(");
    if cast.None? then
      var name := ReadQuoted(s);
      if name.Some? then Some(((name.value.0, None), name.value.1)) else None
    else
      var name := ReadQuoted(cast.value);
      if name.None? then None
      else
        var typ := After(name.value.1, " AS ");
        if typ.None? then None
        else
          var text := ReadType(TypeArguments.NEUTRAL, typ.value);
          if text.None? then None
          else
            var again := After(text.value.1, " AS ");
            if again.None? then None
            else
              var name' := ReadQuoted(again.value);
              if name'.Some? && name'.value.0 == name.value.0
              then Some(((name.value.0, Some(text.value.0)), name'.value.1)) else None
  }

  function ReadColumns(s: string): Option<(seq<(string, Option<string>)>, string)>
    decreases |s|
  {
    var first := ReadColumn(s);
    if first.None? then None
    else
      var more := After(first.value.1, ", ");
      if more.None? then Some(([first.value.0], first.value.1))
      else
        var rest := ReadColumns(more.value);
        if rest.Some? then Some(([first.value.0] + rest.value.0, rest.value.1)) else None
  }

  function ReadProjection(s: string): Option<(Projection, string)> {
    var count := After(s, "count() AS ");
    if count.Some? then
      var name := ReadQuoted(count.value);
      if name.Some? then Some((CountAs(name.value.0), name.value.1)) else None
    else if " FROM " <= s then Some((ColumnsOf([]), s))
    else
      var columns := ReadColumns(s);
      if columns.Some? then Some((ColumnsOf(columns.value.0), columns.value.1)) else None
  }

  function ReadHead(s: string): Option<((Projection, QualifiedTable), string)> {
    var select := After(s, "SELECT ");
    if select.None? then None
    else
      var projection := ReadProjection(select.value);
      if projection.None? then None
      else
        var table := ReadTable(projection.value.1);
        if table.None? then None else Some(((projection.value.0, table.value.0), table.value.1))
  }

  /** What introduces the next clause. */
  function Opening(started: bool): string {
    if started then " AND " else " WHERE "
  }

  /** The trusted fragment, whose rendered form is given: whether a clause was read, and the rest. */
  function ReadFragment(s: string, fragment: Option<string>): Option<(bool, string)> {
    if fragment.None? then Some((false, s))
    else
      var rest := After(s, " WHERE (" + fragment.value + ")");
      if rest.Some? then Some((true, rest.value)) else None
  }

  function ReadCondition(s: string, started: bool, bound: Bound): Option<(Option<Predicate>, bool, string)> {
    var clause := After(s, Opening(started));
    if clause.None? || "(_partition_id" <= clause.value then Some((None, started, s))
    else
      var p := ReadPredicate(clause.value, bound);
      if p.Some? then Some((Some(p.value.item), true, p.value.tail)) else None
  }

  function ReadPartitions(s: string, started: bool, bound: Bound): Option<(Option<seq<Scalar>>, string)> {
    var list := After(s, Opening(started) + "(_partition_id IN (");
    if list.None? then Some((None, s))
    else
      var ids := ReadItems(list.value, bound);
      if ids.Some? then Some((Some(ids.value.item), ids.value.tail)) else None
  }

  function ReadWhere(s: string, fragment: Option<string>, bound: Bound): Option<(Option<Predicate>,
                     Option<seq<Scalar>>, string)> {
    var first := ReadFragment(s, fragment);
    if first.None? then None
    else
      var condition := ReadCondition(first.value.1, first.value.0, bound);
      if condition.None? then None
      else
        var partitions := ReadPartitions(condition.value.2, condition.value.1, bound);
        if partitions.None? then None else Some((condition.value.0, partitions.value.0, partitions.value.1))
  }

  function ReadStatement(s: string, fragment: Option<string>, bound: Bound): Option<Statement> {
    var head := ReadHead(s);
    if head.None? then None
    else
      var clauses := ReadWhere(head.value.1, fragment, bound);
      if clauses.None? then None
      else
        var limit := ReadLimit(clauses.value.2);
        if limit.None? then None
        else Some(Statement(head.value.0.0, head.value.0.1, clauses.value.0, clauses.value.1, limit.value))
  }

  // ----- the projection ----------------------------------------------------------------------------------

  lemma {:induction false} ReadTypeInverts(l: TypeArguments.Lex, t: string, rest: string)
    requires TypeArguments.LexRun(l, t) == TypeArguments.NEUTRAL
    ensures ReadType(l, t + (")" + rest)) == Some((t, rest))
    decreases |t|
  {
    var text := t + (")" + rest);
    if t == [] {
      assert text == ")" + rest;
      assert text[1..] == rest;
    } else {
      assert text[1..] == t[1..] + (")" + rest);
      ReadTypeInverts(TypeArguments.LexStep(l, t[0]), t[1..], rest);
      if t[0] == ')' && l == TypeArguments.NEUTRAL {
        TypeArguments.BrokenStays(t[1..]);
      }
      assert [t[0]] + t[1..] == t;
    }
  }

  /** An accepted type is balanced, also with white space around it. */
  lemma ValidIsBalanced(t: string)
    requires TransportTypes.Valid(t)
    ensures TypeArguments.LexRun(TypeArguments.NEUTRAL, t) == TypeArguments.NEUTRAL
  {
    hide TransportTypes.Parse;
    TransportTypes.ParsedIsArgument(t);
    var lead, trail := TypeArguments.StripSplits(t);
    var core := TypeArguments.Strip(t);
    TypeArguments.LexConcat(TypeArguments.NEUTRAL, lead + core, trail);
    TypeArguments.LexConcat(TypeArguments.NEUTRAL, lead, core);
    TypeArguments.LexSpaces(TypeArguments.NEUTRAL, lead);
    TypeArguments.LexSpaces(TypeArguments.NEUTRAL, trail);
  }

  lemma ReadColumnInverts(column: (string, Option<string>), rest: string)
    requires ClickHouseSql.ColumnOk(column) && EndsQuoted(rest)
    ensures ReadColumn(ClickHouseSql.ColumnText(column) + rest) == Some((column, rest))
  {
    hide Quote, ReadQuoted, ReadType, TransportTypes.Valid;
    var name := column.0;
    if column.1.None? {
      NoCast(name, rest);
      QuoteInverts(name, rest);
    } else {
      var t := column.1.value;
      var last := Quote(name) + rest;
      CastShape(Quote(name), t, rest);
      AfterPrefix("CAST(", Quote(name) + (" AS " + (t + (")" + (" AS " + last)))));
      assert (" AS " + (t + (")" + (" AS " + last))))[0] == ' ';
      QuoteInverts(name, " AS " + (t + (")" + (" AS " + last))));
      AfterPrefix(" AS ", t + (")" + (" AS " + last)));
      ValidIsBalanced(t);
      ReadTypeInverts(TypeArguments.NEUTRAL, t, " AS " + last);
      AfterPrefix(" AS ", last);
      QuoteInverts(name, rest);
    }
  }

  predicate EndsQuoted(s: string) {
    s == [] || s[0] != '`'
  }

  lemma NoCast(name: string, rest: string)
    ensures After(Quote(name) + rest, "CAST(").None?
  {
    assert (Quote(name) + rest)[0] == '`' && "CAST("[0] == 'C';
  }

  lemma CastShape(q: string, t: string, rest: string)
    ensures "CAST(" + q + " AS " + t + ") AS " + q + rest == "CAST("
            + (q + (" AS " + (t + (")" + (" AS " + (q + rest))))))
  {
    assert ") AS " == ")" + " AS ";
  }

  lemma {:induction false} ReadColumnsInverts(columns: seq<(string, Option<string>)>, rest: string)
    requires columns != [] && ClickHouseSql.ColumnsOk(columns) && EndsName(rest)
    ensures ReadColumns(Join(ClickHouseSql.ColumnTexts(columns)) + rest) == Some((columns, rest))
  {
    hide ClickHouseSql.ColumnText, ReadColumn, ClickHouseSql.ColumnOk;
    var texts := ClickHouseSql.ColumnTexts(columns);
    assert ClickHouseSql.ColumnOk(columns[0]);
    if |columns| == 1 {
      ReadColumnInverts(columns[0], rest);
      NoItem(rest);
      assert columns == [columns[0]];
    } else {
      var more := Join(ClickHouseSql.ColumnTexts(columns[1..])) + rest;
      assert texts[1..] == ClickHouseSql.ColumnTexts(columns[1..]);
      assert Join(texts) + rest == texts[0] + (", " + more);
      assert (", " + more)[0] == ',';
      ReadColumnInverts(columns[0], ", " + more);
      AfterPrefix(", ", more);
      ReadColumnsInverts(columns[1..], rest);
      assert columns == [columns[0]] + columns[1..];
    }
  }

  /** What the request asks to project. */
  function ProjectionOf(s: ClickHouseSql.Select): Projection {
    if s.countName.Some? then CountAs(s.countName.value)
    else if s.projection.Some? then ColumnsOf(s.projection.value)
    else ColumnsOf(Uncast(s.columns))
  }

  lemma UncastTexts(names: seq<string>)
    requires forall c | c in names :: ValidIdentifier(c)
    ensures ClickHouseSql.ColumnsOk(Uncast(names)) && ClickHouseSql.ColumnTexts(Uncast(names)) == QuotedList(names)
  {
    forall i | 0 <= i < |names| ensures ClickHouseSql.ColumnOk(Uncast(names)[i]) {
      assert names[i] in names;
    }
  }

  lemma ColumnsStart(columns: seq<(string, Option<string>)>, rest: string)
    requires columns != []
    ensures var text := Join(ClickHouseSql.ColumnTexts(columns)) + rest;
            After(text, "count() AS ").None? && !(" FROM " <= text)
  {
    var text := Join(ClickHouseSql.ColumnTexts(columns)) + rest;
    var first := ClickHouseSql.ColumnTexts(columns)[0];
    assert first[0] == '`' || first[0] == 'C';
    assert text[0] == first[0] && "count() AS "[0] == 'c' && " FROM "[0] == ' ';
  }

  lemma ReadProjectionInverts(s: ClickHouseSql.Select, rest: string)
    requires ClickHouseSql.ProjectionOk(s) && EndsName(rest) && " FROM " <= rest
    ensures ReadProjection(ClickHouseSql.ProjectionText(s) + rest) == Some((ProjectionOf(s), rest))
  {
    hide Quote, ReadQuoted, ReadColumns, ClickHouseSql.ColumnTexts, Join, ClickHouseSql.ColumnOk;
    if s.countName.Some? {
      var name := s.countName.value;
      assert ClickHouseSql.ProjectionText(s) + rest == "count() AS " + (Quote(name) + rest);
      AfterPrefix("count() AS ", Quote(name) + rest);
      QuoteInverts(name, rest);
    } else {
      ListedColumns(s);
      var columns := ProjectionOf(s).columns;
      if columns == [] {
        EmptyProjection(rest);
      } else {
        ColumnsStart(columns, rest);
        ReadColumnsInverts(columns, rest);
      }
    }
  }

  lemma EmptyProjection(rest: string)
    requires " FROM " <= rest
    ensures Join(ClickHouseSql.ColumnTexts([])) + rest == rest && After(rest, "count() AS ").None?
  {
    assert rest[0] == " FROM "[0] && "count() AS "[0] == 'c';
  }

  /** A plain column list is a projection without casts. */
  lemma ListedColumns(s: ClickHouseSql.Select)
    requires ClickHouseSql.ProjectionOk(s) && s.countName.None?
    ensures ClickHouseSql.ColumnsOk(ProjectionOf(s).columns)
    ensures ClickHouseSql.ProjectionText(s) == Join(ClickHouseSql.ColumnTexts(ProjectionOf(s).columns))
  {
    if s.projection.None? {
      UncastTexts(s.columns);
    }
  }

  lemma ReadHeadInverts(s: ClickHouseSql.Select, rest: string)
    requires ClickHouseSql.ProjectionOk(s) && EndsName(rest)
    ensures ReadHead(ClickHouseSql.HeadText(s) + rest) == Some(((ProjectionOf(s), s.table), rest))
  {
    hide ReadProjection, ReadTable, ClickHouseSql.ProjectionText, Quote;
    var table := " FROM " + (Quote(s.table.database) + ("." + (Quote(s.table.table) + rest)));
    HeadShape(ClickHouseSql.ProjectionText(s), Quote(s.table.database), Quote(s.table.table), rest);
    AfterPrefix("SELECT ", ClickHouseSql.ProjectionText(s) + table);
    assert table[0] == ' ';
    ReadProjectionInverts(s, table);
    ReadTableInverts(s.table, rest);
  }

  lemma HeadShape(p: string, d: string, t: string, rest: string)
    ensures "SELECT " + p + " FROM " + (d + "." + t) + rest == "SELECT " + (p + (" FROM " + (d + ("." + (t + rest)))))
  {
  }

  // ----- the clauses -------------------------------------------------------------------------------------

  lemma ReadPlaceholder(key: string, m: map<string, Scalar>, rest: string)
    requires key in m && IsKey(key)
    ensures ReadMarker(Placeholder(key) + rest, ByName(m)) == Some(Read(m[key], rest, ByName(m)))
  {
    assert forall i | 0 <= i < |key| :: key[i] != ')';
    assert Placeholder(key) + rest == "%(" + (key + ")" + ("s" + rest));
    AfterPrefix("%(", key + ")" + ("s" + rest));
    ReadNameInverts(key, "s" + rest);
    AfterPrefix("s", rest);
  }

  lemma {:induction false} ReadPlaceholders(keys: seq<string>, values: seq<Scalar>, m: map<string, Scalar>,
                                            rest: string)
    requires keys != [] && ClickHouseSql.Valued(keys, values, m) && forall i | 0 <= i < |keys| :: IsKey(keys[i])
    ensures ReadItems(Join(Placeholders(keys)) + ("))" + rest), ByName(m)) == Some(Read(values, rest, ByName(m)))
  {
    hide Placeholder, ReadMarker, IsKey;
    var texts := Placeholders(keys);
    if |keys| == 1 {
      ReadPlaceholder(keys[0], m, "))" + rest);
      assert ("))" + rest)[0] == ')';
      AfterPrefix("))", rest);
      assert values == [values[0]];
    } else {
      var more := Join(Placeholders(keys[1..])) + ("))" + rest);
      assert texts[1..] == Placeholders(keys[1..]);
      assert Join(texts) + ("))" + rest) == Placeholder(keys[0]) + (", " + more);
      ReadPlaceholder(keys[0], m, ", " + more);
      assert (", " + more)[0] == ',';
      AfterPrefix(", ", more);
      ReadPlaceholders(keys[1..], values[1..], m, rest);
      assert values == [values[0]] + values[1..];
    }
  }

  /** A rendered predicate never looks like the partition clause. */
  lemma {:induction false} RenderStart(p: Predicate, n: nat)
    ensures var t := Render(p, Named, n); |t| >= 2 && t[0] == '(' && t[1] != '_'
  {
    match p
    case And(a, _) => RenderStart(a, n);
    case Or(a, _) => RenderStart(a, n);
    case _ =>
  }

  lemma NotPartition(p: Predicate, rest: string)
    ensures !("(_partition_id" <= Render(p, Named, 0) + rest)
  {
    hide Render;
    RenderStart(p, 0);
    assert "(_partition_id"[1] == '_' && (Render(p, Named, 0) + rest)[1] == Render(p, Named, 0)[1];
  }

  /** The text of the partition clause after the opening of a clause. */
  function PartitionText(ids: seq<string>): string {
    "(_partition_id IN (" + Join(Placeholders(ClickHouseSql.PartitionKeys(|ids|))) + "))"
  }

  /** The rest of the WHERE clause once the predicate was read. */
  function PartitionPart(partitions: Option<seq<string>>, started: bool): string {
    if partitions.Some? then Opening(started) + PartitionText(partitions.value) else ""
  }

  function ConditionPart(condition: Option<Predicate>, started: bool): string {
    if condition.Some? then Opening(started) + Render(condition.value, Named, 0) else ""
  }

  lemma ReadPartitionsInverts(ids: seq<string>, m: map<string, Scalar>, started: bool, rest: string)
    requires ids != []
            && ClickHouseSql.Valued(ClickHouseSql.PartitionKeys(|ids|), ClickHouseSql.PartitionValues(ids), m)
    ensures ReadPartitions(PartitionPart(Some(ids), started) + rest, started, ByName(m)) ==
            Some((Some(ClickHouseSql.PartitionValues(ids)), rest))
  {
    hide ReadItems, Join, ClickHouseSql.PartitionName;
    var keys := ClickHouseSql.PartitionKeys(|ids|);
    var list := Join(Placeholders(keys)) + ("))" + rest);
    PartitionShape(Opening(started), Join(Placeholders(keys)), rest);
    AfterPrefix(Opening(started) + "(_partition_id IN (", list);
    forall i | 0 <= i < |keys| ensures IsKey(keys[i]) {
      GeneratedIsKey(i);
    }
    ReadPlaceholders(keys, ClickHouseSql.PartitionValues(ids), m, rest);
  }

  lemma PartitionShape(opening: string, list: string, rest: string)
    ensures opening + ("(_partition_id IN (" + list + "))") + rest == (opening + "(_partition_id IN (")
            + (list + ("))" + rest))
  {
  }

  lemma GeneratedIsKey(n: nat)
    ensures IsKey(ClickHouseSql.PartitionName(n))
  {
    var d := Digits(n);
    forall i | 0 <= i < |d| ensures '0' <= d[i] <= '9' {
      assert d[i] in d;
    }
    var prefix := PARAMETER_PREFIX + "partition_";
    assert forall i | 0 <= i < |prefix| :: prefix[i] == '_' || 'a' <= prefix[i] <= 'z';
    assert ClickHouseSql.PartitionName(n) == prefix + d;
  }

  lemma NoPartitions(started: bool, bound: Bound, rest: string)
    requires AtEnd(rest)
    ensures ReadPartitions(rest, started, bound) == Some((None, rest))
  {
    var opening := Opening(started) + "(_partition_id IN (";
    if rest != [] {
      assert rest[1] == " LIMIT "[1];
    }
    assert opening[1] == if started then 'A' else 'W';
  }

  /** Once the fragment is read, the predicate reads back whether or not partitions follow. */
  lemma ReadConditionInverts(condition: Option<Predicate>, partitions: Option<seq<string>>, m: map<string, Scalar>,
                             started: bool, rest: string)
    requires AtEnd(rest)
    requires condition.Some? ==> WellFormed(condition.value) && Supplies(ByName(m), Named, 0, Slots(condition.value))
    ensures var next := started || condition.Some?;
            ReadCondition(ConditionPart(condition, started) + (PartitionPart(partitions, next) + rest), started,
              ByName(m)) ==
            Some((condition, next, PartitionPart(partitions, next) + rest))
  {
    hide ReadPredicate, Render, Slots, PartitionText, Supplies, PartitionPart, ReadCondition;
    var tail := PartitionPart(partitions, started || condition.Some?) + rest;
    if condition.Some? {
      ReadSomeCondition(condition.value, m, started, tail);
    } else {
      assert ConditionPart(condition, started) + tail == tail;
      ReadNoCondition(partitions, ByName(m), started, rest);
    }
  }

  lemma ReadSomeCondition(p: Predicate, m: map<string, Scalar>, started: bool, tail: string)
    requires WellFormed(p) && Supplies(ByName(m), Named, 0, Slots(p))
    ensures ReadCondition(ConditionPart(Some(p), started) + tail, started, ByName(m)) == Some((Some(p), true, tail))
  {
    hide ReadPredicate, Render, Slots, Supplies, Opening;
    assert ConditionPart(Some(p), started) + tail == Opening(started) + (Render(p, Named, 0) + tail);
    AfterPrefix(Opening(started), Render(p, Named, 0) + tail);
    NotPartition(p, tail);
    ReadPredicateInverts(p, Named, 0, ByName(m), tail);
  }

  lemma ReadNoCondition(partitions: Option<seq<string>>, bound: Bound, started: bool, rest: string)
    requires AtEnd(rest)
    ensures ReadCondition(PartitionPart(partitions, started) + rest, started, bound) ==
            Some((None, started, PartitionPart(partitions, started) + rest))
  {
    hide PartitionText, ReadPredicate;
    if partitions.Some? {
      var text := PartitionText(partitions.value) + rest;
      assert PartitionPart(partitions, started) + rest == Opening(started) + text;
      AfterPrefix(Opening(started), text);
      PartitionStart(partitions.value, rest);
    } else {
      assert PartitionPart(partitions, started) + rest == rest;
      EndIsNoClause(rest);
    }
  }

  lemma PartitionStart(ids: seq<string>, rest: string)
    ensures "(_partition_id" <= PartitionText(ids) + rest
  {
    assert "(_partition_id IN (" == "(_partition_id" + " IN (";
  }

  function FragmentPart(fragment: Option<string>): string {
    if fragment.Some? then " WHERE (" + fragment.value + ")" else ""
  }

  lemma ReadFragmentInverts(fragment: Option<string>, rest: string)
    ensures ReadFragment(FragmentPart(fragment) + rest, fragment) == Some((fragment.Some?, rest))
  {
    if fragment.Some? {
      AfterPrefix(" WHERE (" + fragment.value + ")", rest);
    } else {
      assert "" + rest == rest;
    }
  }

  /** The WHERE clause is its three parts, each with its own opening. */
  lemma WhereParts(fragment: Option<string>, condition: Option<Predicate>, partitions: Option<seq<string>>)
    ensures ClickHouseSql.WhereText(ClickHouseSql.Present(
              if fragment.Some? then Some("(" + fragment.value + ")") else None,
              if condition.Some? then Some(Render(condition.value, Named, 0)) else None,
              if partitions.Some? then Some(PartitionText(partitions.value)) else None)) ==
            FragmentPart(fragment) +
            (ConditionPart(condition, fragment.Some?) + PartitionPart(partitions, fragment.Some? || condition.Some?))
  {
    hide Render, PartitionText;
    var f := if fragment.Some? then Some("(" + fragment.value + ")") else None;
    var c := if condition.Some? then Some(Render(condition.value, Named, 0)) else None;
    var p := if partitions.Some? then Some(PartitionText(partitions.value)) else None;
    JoinThree(f, c, p);
    if fragment.Some? {
      assert " WHERE (" + fragment.value + ")" == " WHERE " + ("(" + fragment.value + ")");
    }
  }

  lemma JoinThree(f: Option<string>, c: Option<string>, p: Option<string>)
    ensures ClickHouseSql.WhereText(ClickHouseSql.Present(f, c, p)) ==
            (if f.Some? then " WHERE " + f.value else "") +
            ((if c.Some? then Opening(f.Some?) + c.value else "") +
             (if p.Some? then Opening(f.Some? || c.Some?) + p.value else ""))
  {
    if f.Some? && c.Some? && p.Some? {
      JoinAll(f.value, c.value, p.value);
    } else if f.Some? && c.Some? {
      JoinTwo(f.value, c.value);
      assert ClickHouseSql.Present(f, c, p) == [f.value, c.value] && (" AND " + c.value) + "" == " AND " + c.value;
    } else if f.Some? && p.Some? {
      JoinTwo(f.value, p.value);
      assert ClickHouseSql.Present(f, c, p) == [f.value, p.value] && "" + (" AND " + p.value) == " AND " + p.value;
    } else if c.Some? && p.Some? {
      JoinTwo(c.value, p.value);
      assert ClickHouseSql.Present(f, c, p) == [c.value, p.value];
      assert "" + (" WHERE " + c.value + (" AND " + p.value)) == " WHERE " + c.value + (" AND " + p.value);
    }
  }

  lemma JoinTwo(a: string, b: string)
    ensures ClickHouseSql.WhereText([a, b]) == " WHERE " + a + (" AND " + b)
  {
    var all := [a, b];
    assert all[1..] == [b];
    assert ClickHouseSql.AndJoin([b]) == b;
    assert ClickHouseSql.AndJoin(all) == a + " AND " + b;
    assert " WHERE " + (a + " AND " + b) == " WHERE " + a + (" AND " + b);
  }

  lemma JoinAll(f: string, c: string, p: string)
    ensures ClickHouseSql.WhereText(ClickHouseSql.Present(Some(f), Some(c), Some(p))) ==
            " WHERE " + f + ((" AND " + c) + (" AND " + p))
  {
    var all := [f, c, p];
    assert ClickHouseSql.Present(Some(f), Some(c), Some(p)) == all;
    assert all[1..] == [c, p] && [c, p][1..] == [p];
    assert ClickHouseSql.AndJoin([c, p]) == c + " AND " + p;
    assert " WHERE " + (f + " AND " + (c + " AND " + p)) == " WHERE " + f + ((" AND " + c) + (" AND " + p));
  }

  lemma ReadWhereInverts(fragment: Option<string>, condition: Option<Predicate>, partitions: Option<seq<string>>,
                         m: map<string, Scalar>, rest: string)
    requires AtEnd(rest) && (partitions.Some? ==> partitions.value != [])
    requires condition.Some? ==> WellFormed(condition.value) && Supplies(ByName(m), Named, 0, Slots(condition.value))
    requires partitions.Some? ==>
               ClickHouseSql.Valued(ClickHouseSql.PartitionKeys(|partitions.value|),
                                    ClickHouseSql.PartitionValues(partitions.value), m)
    ensures var started := fragment.Some?;
            ReadWhere(FragmentPart(fragment) +
                      (ConditionPart(condition, started)
                        + (PartitionPart(partitions, started || condition.Some?) + rest)),
                      fragment, ByName(m)) ==
            Some((condition, if partitions.Some? then Some(ClickHouseSql.PartitionValues(partitions.value)) else None,
              rest))
  {
    hide ReadFragment, ReadCondition, ReadPartitions, FragmentPart, ConditionPart, Supplies, ClickHouseSql.Valued,
      Slots;
    var started, next := fragment.Some?, fragment.Some? || condition.Some?;
    var tail := PartitionPart(partitions, next) + rest;
    ReadFragmentInverts(fragment, ConditionPart(condition, started) + tail);
    ReadConditionInverts(condition, partitions, m, started, rest);
    if partitions.Some? {
      ReadPartitionsInverts(partitions.value, m, next, rest);
    } else {
      assert tail == rest;
      NoPartitions(next, ByName(m), rest);
    }
  }

  // ----- the whole statement -----------------------------------------------------------------------------

  function LimitOf(s: ClickHouseSql.Select): Option<nat>
    requires LimitOk(s.limit, s.countName.Some?)
  {
    if s.countName.Some? || s.limit.None? then None else Some(s.limit.value)
  }

  lemma ReadLimitOf(s: ClickHouseSql.Select)
    requires LimitOk(s.limit, s.countName.Some?)
    ensures ReadLimit(ClickHouseSql.LimitText(s)) == Some(LimitOf(s)) && AtEnd(ClickHouseSql.LimitText(s))
  {
    if s.limit.Some? && s.countName.None? {
      ReadLimitInverts(s.limit.value);
    }
  }

  /** The trusted fragment as it is rendered. */
  function FragmentOut(s: ClickHouseSql.Select): Option<string> {
    if s.unsafe.None? then None
    else Some(ClickHouseFragment.TokensOut(ClickHouseFragment.Tokens(s.unsafe.value),
      ClickHouseSql.Parameters(s) != map[]))
  }

  lemma StatementParts(s: ClickHouseSql.Select)
    ensures ClickHouseSql.StatementText(s) ==
            ClickHouseSql.HeadText(s) +
            (FragmentPart(FragmentOut(s)) +
             (ConditionPart(s.condition, s.unsafe.Some?) +
              (PartitionPart(s.partitions, s.unsafe.Some? || s.condition.Some?) + ClickHouseSql.LimitText(s))))
  {
    hide ClickHouseSql.HeadText, ClickHouseSql.LimitText, ClickHouseSql.Parameters, ClickHouseSql.Clauses,
      ClickHouseSql.ClauseTexts, ClickHouseSql.WhereText, ClickHouseSql.AllMatched, ClickHouseSql.SelectPieces,
      ClickHouseSql.SlotKeys, FragmentPart, ConditionPart, ClickHouseFragment.TokensOut, ClickHouseFragment.Tokens,
      ClickHouseSql.Present;
    var bind := ClickHouseSql.Parameters(s) != map[];
    ClickHouseSql.FillSelect(s, bind);
    ClickHouseSql.PresentTexts(s, bind);
    WhereParts(FragmentOut(s), s.condition, s.partitions);
    var h, l := ClickHouseSql.HeadText(s), ClickHouseSql.LimitText(s);
    var f, c := FragmentPart(FragmentOut(s)), ConditionPart(s.condition, s.unsafe.Some?);
    var p := PartitionPart(s.partitions, s.unsafe.Some? || s.condition.Some?);
    assert h + (f + (c + p)) + l == h + (f + (c + (p + l)));
  }

  lemma WhereEndsName(f: string, c: string, p: string, l: string)
    requires f == [] || f[0] == ' '
    requires c == [] || c[0] == ' '
    requires p == [] || p[0] == ' '
    requires l == [] || l[0] == ' '
    ensures EndsName(f + (c + (p + l)))
  {
  }

  lemma PartsStart(s: ClickHouseSql.Select)
    ensures EndsName(FragmentPart(FragmentOut(s)) +
                     (ConditionPart(s.condition, s.unsafe.Some?) +
                      (PartitionPart(s.partitions, s.unsafe.Some? || s.condition.Some?) + ClickHouseSql.LimitText(s))))
  {
    hide Render, PartitionText, FragmentOut;
    WhereEndsName(FragmentPart(FragmentOut(s)), ConditionPart(s.condition, s.unsafe.Some?),
      PartitionPart(s.partitions, s.unsafe.Some? || s.condition.Some?), ClickHouseSql.LimitText(s));
  }

  lemma ParametersSupply(s: ClickHouseSql.Select)
    requires ClickHouseSql.NamesOk(s.parameters)
    ensures s.condition.Some? ==> Supplies(ByName(ClickHouseSql.Parameters(s)), Named, 0, Slots(s.condition.value))
    ensures s.partitions.Some? ==>
              ClickHouseSql.Valued(ClickHouseSql.PartitionKeys(|s.partitions.value|),
                                   ClickHouseSql.PartitionValues(s.partitions.value), ClickHouseSql.Parameters(s))
  {
    hide ClickHouseSql.Parameters, Slots, ParameterName;
    ClickHouseSql.ParametersNeverCollide(s);
    if s.condition.Some? {
      var m, values := ClickHouseSql.Parameters(s), Slots(s.condition.value);
      var keys := ClickHouseSql.ConditionKeys(|values|);
      forall i | 0 <= i < |values| ensures HasParameter(m, 0 + i, values[i]) {
        assert keys[i] == ParameterName(i) && m[keys[i]] == values[i];
      }
    }
  }

  /** The text and dictionary of an accepted request read back as exactly what was asked for: table,
      projection with casts, predicate, partition ids and limit. */
  lemma ReadBack(s: ClickHouseSql.Select)
    requires ClickHouseSql.SelectOk(s) && (s.condition.Some? ==> WellFormed(s.condition.value))
    ensures ReadStatement(ClickHouseSql.StatementText(s), FragmentOut(s), ByName(ClickHouseSql.Parameters(s))) ==
            Some(Statement(ProjectionOf(s), s.table, s.condition,
                           if s.partitions.Some? then Some(ClickHouseSql.PartitionValues(s.partitions.value)) else None,
                           LimitOf(s)))
  {
    hide ReadHead, ReadWhere, ReadLimit, FragmentOut, FragmentPart, ConditionPart, PartitionPart,
      ClickHouseSql.HeadText,
      ClickHouseSql.LimitText, ClickHouseSql.StatementText, ClickHouseSql.Parameters, Slots, Supplies, ProjectionOf,
      ClickHouseSql.Valued;
    var m := ClickHouseSql.Parameters(s);
    StatementParts(s);
    PartsStart(s);
    ReadLimitOf(s);
    ParametersSupply(s);
    FragmentKept(s);
    var rest := FragmentPart(FragmentOut(s)) +
      (ConditionPart(s.condition, s.unsafe.Some?) +
       (PartitionPart(s.partitions, s.unsafe.Some? || s.condition.Some?) + ClickHouseSql.LimitText(s)));
    ReadHeadInverts(s, rest);
    ReadWhereInverts(FragmentOut(s), s.condition, s.partitions, m, ClickHouseSql.LimitText(s));
  }

  lemma FragmentKept(s: ClickHouseSql.Select)
    ensures FragmentOut(s).Some? <==> s.unsafe.Some?
  {
  }
}
