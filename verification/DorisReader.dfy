/** A reader for Doris SELECT statements, and that it inverts their construction. */
module DorisReader {
  import opened Wrappers
  import opened Sequences
  import opened PredicateIr
  import opened Identifiers
  import opened PredicateText
  import opened SelectText
  import opened StatementReader
  import DorisFragment
  import DorisSql

  /** Everything before the WHERE clause. */
  datatype Head = Head(projection: Projection, table: QualifiedTable, tablets: Option<seq<int>>)

  datatype Statement = Statement(head: Head, condition: Option<Predicate>, limit: Option<nat>)

  function ReadProjection(s: string): Option<(Projection, string)> {
    var count := After(s, "count(*) AS ");
    if count.Some? then
      var name := ReadQuoted(count.value);
      if name.Some? then Some((CountAs(name.value.0), name.value.1)) else None
    else
      var names := ReadNames(s);
      if names.Some? then Some((ColumnsOf(Uncast(names.value.0)), names.value.1)) else None
  }

  function ReadTablets(s: string): Option<(Option<seq<int>>, string)> {
    var t := After(s, " TABLET(");
    if t.None? then Some((None, s))
    else
      var ids := ReadNumbers(t.value);
      if ids.Some? then Some((Some(ids.value.0), ids.value.1)) else None
  }

  function ReadHead(s: string): Option<(Head, string)> {
    var select := After(s, "SELECT ");
    if select.None? then None
    else
      var projection := ReadProjection(select.value);
      if projection.None? then None
      else
        var table := ReadTable(projection.value.1);
        if table.None? then None
        else
          var tablets := ReadTablets(table.value.1);
          if tablets.None? then None
          else Some((Head(projection.value.0, table.value.0, tablets.value.0), tablets.value.1))
  }

  function ReadCondition(s: string, bound: Bound): Option<(Option<Predicate>, string)> {
    var p := ReadPredicate(s, bound);
    if p.Some? then Some((Some(p.value.item), p.value.tail)) else None
  }

  /** The WHERE clause. The trusted fragment is free text that only its author can delimit, so its
      rendered form is given. */
  function ReadWhere(s: string, fragment: Option<string>, bound: Bound): Option<(Option<Predicate>, string)> {
    if fragment.Some? then
      var rest := After(s, " WHERE (" + fragment.value + ")");
      if rest.None? then None
      else if After(rest.value, " AND ").Some? then ReadCondition(After(rest.value, " AND ").value, bound)
      else Some((None, rest.value))
    else if After(s, " WHERE ").Some? then ReadCondition(After(s, " WHERE ").value, bound)
    else Some((None, s))
  }

  function ReadStatement(s: string, fragment: Option<string>, bound: Bound): Option<Statement> {
    var head := ReadHead(s);
    if head.None? then None
    else
      var condition := ReadWhere(head.value.1, fragment, bound);
      if condition.None? then None
      else
        var limit := ReadLimit(condition.value.1);
        if limit.Some? then Some(Statement(head.value.0, condition.value.0, limit.value)) else None
  }

  /** The reading when the whole WHERE clause is given: what frames it. */
  function ReadFrame(s: string, filter: string): Option<(Head, Option<nat>)> {
    var head := ReadHead(s);
    if head.None? then None
    else
      var rest := After(head.value.1, filter);
      if rest.None? then None
      else
        var limit := ReadLimit(rest.value);
        if limit.Some? then Some((head.value.0, limit.value)) else None
  }

  // ----- the head --------------------------------------------------------------------------------------

  /** What follows the head of a statement. */
  predicate AfterHead(s: string) {
    s == [] || " WHERE " <= s || " LIMIT " <= s
  }

  lemma {:induction false} ReadNumbersInverts(ids: seq<int>, rest: string)
    requires ids != [] && forall t | t in ids :: t > 0
    ensures ReadNumbers(Join(DorisSql.TabletTexts(ids)) + (")" + rest)) == Some((ids, rest))
  {
    hide Digits, ReadNumber;
    assert ids[0] in ids;
    var texts := DorisSql.TabletTexts(ids);
    if |ids| == 1 {
      assert Join(texts) == Digits(ids[0]);
      ReadNumberInverts(ids[0], ")" + rest);
      AfterPrefix(")", rest);
      assert ids == [ids[0]];
    } else {
      assert forall t | t in ids[1..] :: t in ids;
      var more := Join(DorisSql.TabletTexts(ids[1..])) + (")" + rest);
      assert texts[1..] == DorisSql.TabletTexts(ids[1..]) && texts[0] == Digits(ids[0]);
      assert Join(texts) + (")" + rest) == Digits(ids[0]) + (", " + more);
      ReadNumberInverts(ids[0], ", " + more);
      AfterPrefix(", ", more);
      NotClosed(more);
      ReadNumbersInverts(ids[1..], rest);
      assert ids == [ids[0]] + ids[1..];
    }
  }

  lemma NotClosed(more: string)
    ensures After(", " + more, ")").None?
  {
    assert (", " + more)[0] != ")"[0];
  }

  /** What the request asks to project. */
  function ProjectionOf(s: DorisSql.Select): Projection {
    if s.countName.Some? then CountAs(s.countName.value) else ColumnsOf(Uncast(s.columns))
  }

  lemma ReadProjectionInverts(s: DorisSql.Select, rest: string)
    requires DorisSql.ProjectionOk(s) && EndsName(rest)
    ensures ReadProjection(DorisSql.ProjectionText(s) + rest) == Some((ProjectionOf(s), rest))
  {
    hide Quote, ReadQuoted, ReadNames;
    if s.countName.Some? {
      var name := s.countName.value;
      assert DorisSql.ProjectionText(s) + rest == "count(*) AS " + (Quote(name) + rest);
      AfterPrefix("count(*) AS ", Quote(name) + rest);
      QuoteInverts(name, rest);
    } else {
      NamesStart(s.columns, rest);
      ReadNamesInverts(s.columns, rest);
    }
  }

  lemma NamesStart(names: seq<string>, rest: string)
    requires names != []
    ensures After(Join(QuotedList(names)) + rest, "count(*) AS ").None?
  {
    var text := Join(QuotedList(names)) + rest;
    assert QuotedList(names)[0][0] == '`';
    assert text[0] == '`' && "count(*) AS "[0] == 'c';
  }

  lemma ReadTabletsInverts(s: DorisSql.Select, rest: string)
    requires DorisSql.TabletsOk(s) && AfterHead(rest)
    ensures ReadTablets(DorisSql.TabletText(s) + rest) == Some((s.tablets, rest))
  {
    if s.tablets.Some? {
      var ids := s.tablets.value;
      var list := Join(DorisSql.TabletTexts(ids)) + (")" + rest);
      assert DorisSql.TabletText(s) + rest == " TABLET(" + list;
      AfterPrefix(" TABLET(", list);
      ReadNumbersInverts(ids, rest);
    } else {
      assert DorisSql.TabletText(s) + rest == rest;
      NoTablets(rest);
    }
  }

  lemma NoTablets(rest: string)
    requires AfterHead(rest)
    ensures After(rest, " TABLET(").None?
  {
    if " WHERE " <= rest {
      assert rest[1] == " WHERE "[1];
    } else if " LIMIT " <= rest {
      assert rest[1] == " LIMIT "[1];
    }
    assert " TABLET("[1] == 'T';
  }

  lemma TabletsEndName(s: DorisSql.Select, rest: string)
    requires DorisSql.TabletsOk(s) && AfterHead(rest)
    ensures EndsName(DorisSql.TabletText(s) + rest)
  {
    var text := DorisSql.TabletText(s) + rest;
    if s.tablets.Some? {
      assert text[0] == ' ';
    } else if rest != [] {
      assert text == rest;
      if " WHERE " <= rest {
        assert rest[0] == " WHERE "[0];
      } else {
        assert rest[0] == " LIMIT "[0];
      }
    }
  }

  function HeadOf(s: DorisSql.Select): Head {
    Head(ProjectionOf(s), s.table, s.tablets)
  }

  /** The head of every accepted statement can be read back, in both styles. */
  lemma ReadHeadInverts(s: DorisSql.Select, rest: string)
    requires DorisSql.ProjectionOk(s) && DorisSql.TabletsOk(s) && AfterHead(rest)
    ensures ReadHead(DorisSql.HeadText(s) + rest) == Some((HeadOf(s), rest))
  {
    hide ReadProjection, ReadTable, ReadTablets, DorisSql.ProjectionText, DorisSql.TabletText, Quote;
    var tablets := DorisSql.TabletText(s) + rest;
    var table := " FROM " + (Quote(s.table.database) + ("." + (Quote(s.table.table) + tablets)));
    HeadShape(DorisSql.ProjectionText(s), Quote(s.table.database), Quote(s.table.table), DorisSql.TabletText(s), rest);
    AfterPrefix("SELECT ", DorisSql.ProjectionText(s) + table);
    assert table[0] == ' ';
    ReadProjectionInverts(s, table);
    TabletsEndName(s, rest);
    ReadTableInverts(s.table, tablets);
    ReadTabletsInverts(s, rest);
  }

  lemma HeadShape(p: string, d: string, t: string, tablets: string, rest: string)
    ensures "SELECT " + p + " FROM " + (d + "." + t) + tablets + rest ==
            "SELECT " + (p + (" FROM " + (d + ("." + (t + (tablets + rest))))))
  {
  }

  // ----- the whole statement ---------------------------------------------------------------------------

  function LimitOf(s: DorisSql.Select): Option<nat>
    requires LimitOk(s.limit, s.countName.Some?)
  {
    if s.countName.Some? || s.limit.None? then None else Some(s.limit.value)
  }

  lemma ReadLimitOf(s: DorisSql.Select)
    requires LimitOk(s.limit, s.countName.Some?)
    ensures ReadLimit(DorisSql.LimitText(s)) == Some(LimitOf(s))
    ensures DorisSql.LimitText(s) == [] || " LIMIT " <= DorisSql.LimitText(s)
  {
    if s.limit.Some? && s.countName.None? {
      ReadLimitInverts(s.limit.value);
    }
  }

  lemma ReadConditionInverts(p: Predicate, rest: string)
    requires WellFormed(p)
    ensures ReadCondition(Render(p, Positional, 0) + rest, InOrder(Slots(p))) == Some((Some(p), rest))
  {
    hide ReadPredicate, Render, Slots;
    ReadPredicateInverts(p, Positional, 0, InOrder(Slots(p)), rest);
  }

  lemma ReadWhereInverts(fragment: Option<string>, condition: Option<Predicate>, bound: Bound, rest: string)
    requires AtEnd(rest)
            && (condition.Some? ==> WellFormed(condition.value) && bound == InOrder(Slots(condition.value)))
    ensures var text := if condition.Some? then Some(Render(condition.value, Positional, 0)) else None;
            ReadWhere(DorisSql.WhereText(fragment, text) + rest, fragment, bound) == Some((condition, rest))
  {
    hide ReadCondition, Render, Slots, ReadWhere, DorisSql.WhereText;
    if condition.Some? {
      ReadConditionInverts(condition.value, rest);
      WhereWithCondition(fragment, Render(condition.value, Positional, 0), bound, rest);
    } else {
      WhereWithout(fragment, bound, rest);
    }
  }

  lemma WhereWithCondition(fragment: Option<string>, c: string, bound: Bound, rest: string)
    ensures ReadWhere(DorisSql.WhereText(fragment, Some(c)) + rest, fragment, bound) == ReadCondition(c + rest, bound)
  {
    hide ReadCondition;
    if fragment.Some? {
      var f := fragment.value;
      assert DorisSql.WhereText(fragment, Some(c)) + rest == (" WHERE (" + f + ")") + (" AND " + (c + rest));
      AfterPrefix(" WHERE (" + f + ")", " AND " + (c + rest));
      AfterPrefix(" AND ", c + rest);
    } else {
      assert DorisSql.WhereText(None, Some(c)) + rest == " WHERE " + (c + rest);
      AfterPrefix(" WHERE ", c + rest);
    }
  }

  lemma WhereWithout(fragment: Option<string>, bound: Bound, rest: string)
    requires AtEnd(rest)
    ensures ReadWhere(DorisSql.WhereText(fragment, None) + rest, fragment, bound) == Some((None, rest))
  {
    hide ReadCondition;
    EndIsNoClause(rest);
    if fragment.Some? {
      assert DorisSql.WhereText(fragment, None) + rest == (" WHERE (" + fragment.value + ")") + rest;
      AfterPrefix(" WHERE (" + fragment.value + ")", rest);
    } else {
      assert DorisSql.WhereText(None, None) + rest == rest;
    }
  }

  lemma WhereFollowsHead(filter: string, limit: string)
    requires (filter == [] || " WHERE " <= filter) && AtEnd(limit)
    ensures AfterHead(filter + limit)
  {
    if filter == [] {
      assert filter + limit == limit;
    }
  }

  lemma WhereStarts(fragment: Option<string>, condition: Option<string>)
    ensures DorisSql.WhereText(fragment, condition) == [] || " WHERE " <= DorisSql.WhereText(fragment, condition)
  {
    if fragment.Some? {
      assert " WHERE (" == " WHERE " + "(";
    }
  }

  /** The MySQL-style text of an accepted request, with the values bound after its fragment, reads back
      as exactly what was asked for: table, projection, tablets, predicate and limit. */
  lemma MysqlReadBack(s: DorisSql.Select)
    requires DorisSql.SelectOk(s, DorisSql.Mysql) && (s.condition.Some? ==> WellFormed(s.condition.value))
    ensures var target := DorisSql.TargetOf(s, DorisSql.Mysql);
            && DorisSql.Writable(s, target)
            && DorisSql.Values(s) == DorisSql.FragmentValues(s) + DorisSql.ConditionSlots(s)
            && ReadStatement(DorisSql.StatementText(s, target), DorisSql.FragmentText(s, target),
                             InOrder(DorisSql.ConditionSlots(s))) ==
               Some(Statement(HeadOf(s), s.condition, LimitOf(s)))
  {
    hide DorisSql.HeadText, DorisSql.LimitText, DorisSql.WhereText, DorisSql.FragmentText, ReadHead, ReadWhere,
      ReadLimit,
      Render, Slots, DorisSql.UnsafeOk, DorisSql.Writable;
    DorisSql.OkIsWritable(s, DorisSql.Mysql);
    var target := DorisSql.TargetOf(s, DorisSql.Mysql);
    var filter, limit := DorisSql.WhereOf(s, target), DorisSql.LimitText(s);
    ReadLimitOf(s);
    WhereStarts(DorisSql.FragmentText(s, target), DorisSql.ConditionTextOf(s, target));
    WhereFollowsHead(filter, limit);
    assert DorisSql.StatementText(s, target) == DorisSql.HeadText(s) + (filter + limit);
    ReadHeadInverts(s, filter + limit);
    ReadWhereInverts(DorisSql.FragmentText(s, target), s.condition, InOrder(DorisSql.ConditionSlots(s)), limit);
  }

  /** In either style the text frames its WHERE clause with what was asked for. */
  lemma FrameReadBack(s: DorisSql.Select, style: DorisSql.Style)
    requires DorisSql.SelectOk(s, style)
    ensures var target := DorisSql.TargetOf(s, style);
            && DorisSql.Writable(s, target)
            && ReadFrame(DorisSql.StatementText(s, target), DorisSql.WhereOf(s, target)) ==
              Some((HeadOf(s), LimitOf(s)))
  {
    hide DorisSql.HeadText, DorisSql.LimitText, DorisSql.WhereText, ReadHead, ReadLimit, DorisSql.UnsafeOk,
      DorisSql.Writable;
    DorisSql.OkIsWritable(s, style);
    var target := DorisSql.TargetOf(s, style);
    var filter, limit := DorisSql.WhereOf(s, target), DorisSql.LimitText(s);
    ReadLimitOf(s);
    WhereStarts(DorisSql.FragmentText(s, target), DorisSql.ConditionTextOf(s, target));
    WhereFollowsHead(filter, limit);
    assert DorisSql.StatementText(s, target) == DorisSql.HeadText(s) + (filter + limit);
    ReadHeadInverts(s, filter + limit);
    AfterPrefix(filter, limit);
  }

  /** The fragment cannot be delimited from the text alone: one that closes its own parenthesis reads
      like a shorter fragment and a further clause. */
  lemma FragmentMayCloseItself(fragment: string, clause: string)
    ensures DorisSql.WhereText(Some(fragment + ") AND (" + clause), None) ==
            DorisSql.WhereText(Some(fragment), Some("(" + clause + ")"))
  {
    assert " WHERE (" + (fragment + ") AND (" + clause) + ")" == " WHERE (" + fragment + ") AND "
            + ("(" + clause + ")");
  }
}
