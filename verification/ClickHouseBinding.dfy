/** Binding of the named parameters of a ClickHouse SELECT. */
module ClickHouseBinding {
  import opened Wrappers
  import opened Characters
  import opened PredicateIr
  import opened Identifiers
  import opened PredicateText
  import opened SqlText
  import opened PredicatePieces
  import opened SelectText
  import opened FragmentTokens
  import opened ClickHouseFragment
  import opened NamedBinding
  import opened ClickHouseSql

  function LookupScalars(keys: seq<string>, m: map<string, Scalar>): (r: seq<Scalar>)
    requires forall i | 0 <= i < |keys| :: keys[i] in m
    ensures |r| == |keys| && forall i | 0 <= i < |keys| :: r[i] == m[keys[i]]
  {
    seq(|keys|, i requires 0 <= i < |keys| => m[keys[i]])
  }

  ghost predicate MarkersBound(s: Select) {
    s.unsafe.Some? ==>
      forall i | 0 <= i < |MarkNames(Tokens(s.unsafe.value))| ::
      MarkNames(Tokens(s.unsafe.value))[i] in ToMap(s.parameters)
  }

  lemma OkIsBound(s: Select)
    requires SelectOk(s)
    ensures MarkersBound(s)
  {
    hide ProjectionOk, NamesOk, Tokens, MarkNames, LimitOk;
  }

  /** What each slot stands for: the caller's value of each marker, the literals of the predicate, the
      partition ids. */
  ghost function Values(s: Select): seq<Scalar>
    requires MarkersBound(s)
  {
    (if s.unsafe.Some? then LookupScalars(MarkNames(Tokens(s.unsafe.value)), ToMap(s.parameters)) else [])
    + ConditionSlots(s) + PartitionValues(PartitionIds(s))
  }

  ghost function FragmentKeys(s: Select): seq<string> {
    if s.unsafe.Some? then MarkNames(Tokens(s.unsafe.value)) else []
  }

  lemma SlotKeysSplit(s: Select)
    ensures SlotKeys(s) == FragmentKeys(s) + ConditionKeys(|ConditionSlots(s)|) + PartitionKeys(|PartitionIds(s)|)
  {
    hide Tokens, MarkNames, PiecesOf, Slots, ConditionKeys, PartitionKeys;
    var a := if s.unsafe.Some? then [FragmentClause(s.unsafe.value)] else [];
    var b := if s.condition.Some? then [ConditionClause(s.condition.value)] else [];
    var c := if s.partitions.Some? then [PartitionClause(s.partitions.value)] else [];
    AllKeysConcat(a + b, c);
    AllKeysConcat(a, b);
    AtMostOne(a);
    AtMostOne(b);
    AtMostOne(c);
    assert ConditionKeys(0) == [] && PartitionKeys(0) == [];
  }

  lemma AtMostOne(cs: seq<Clause>)
    requires |cs| <= 1
    ensures AllKeys(cs) == if cs == [] then [] else cs[0].keys
  {
    if cs != [] {
      assert cs[1..] == [];
      assert cs[0].keys + [] == cs[0].keys;
    }
  }

  lemma {:induction false} AllKeysConcat(a: seq<Clause>, b: seq<Clause>)
    ensures AllKeys(a + b) == AllKeys(a) + AllKeys(b)
  {
    if a == [] {
      assert a + b == b;
    } else {
      assert (a + b)[1..] == a[1..] + b;
      AllKeysConcat(a[1..], b);
    }
  }

  lemma ValuedConcat(a: seq<string>, x: seq<Scalar>, b: seq<string>, y: seq<Scalar>, m: map<string, Scalar>)
    requires Valued(a, x, m) && Valued(b, y, m)
    ensures Valued(a + b, x + y, m)
  {
  }

  lemma FragmentValued(s: Select)
    requires SelectOk(s)
    ensures MarkersBound(s)
            && Valued(FragmentKeys(s),
            if s.unsafe.Some? then LookupScalars(MarkNames(Tokens(s.unsafe.value)), ToMap(s.parameters)) else [],
            Parameters(s))
  {
    hide Tokens, MarkNames, ToMap, Dictionary, PartitionDictionary, ConditionSlots, PartitionIds;
    OkIsBound(s);
    KindsApart(s);
    UnionSize(ToMap(s.parameters), Dictionary(ConditionSlots(s), 0), PartitionDictionary(PartitionIds(s)));
  }

  /** Every slot's key is bound to what the slot stands for. */
  lemma SlotsHoldTheirValues(s: Select)
    requires SelectOk(s)
    ensures MarkersBound(s) && Valued(SlotKeys(s), Values(s), Parameters(s))
  {
    hide Valued, SlotKeys, FragmentKeys, ConditionKeys, PartitionKeys, ConditionSlots, PartitionIds, PartitionValues,
      Parameters, Tokens, MarkNames, LookupScalars, ToMap;
    OkIsBound(s);
    FragmentValued(s);
    ParametersNeverCollide(s);
    SlotKeysSplit(s);
    var u := if s.unsafe.Some? then LookupScalars(MarkNames(Tokens(s.unsafe.value)), ToMap(s.parameters)) else [];
    ValuedConcat(FragmentKeys(s), u, ConditionKeys(|ConditionSlots(s)|), ConditionSlots(s), Parameters(s));
    ValuedConcat(FragmentKeys(s) + ConditionKeys(|ConditionSlots(s)|), u + ConditionSlots(s),
      PartitionKeys(|PartitionIds(s)|), PartitionValues(PartitionIds(s)), Parameters(s));
  }

  lemma UserKeysUsed(s: Select, k: string)
    requires SelectOk(s)
    ensures k in ToMap(s.parameters) <==> k in FragmentKeys(s)
  {
    hide Tokens, MarkNames, ProjectionOk, NamesOk, LimitOk;
  }

  /** The placeholders of the statement are exactly the keys of the dictionary. */
  lemma SlotsAreTheParameters(s: Select)
    requires SelectOk(s)
    ensures forall k :: k in Parameters(s) <==> k in SlotKeys(s)
  {
    hide SelectOk, SlotKeys, FragmentKeys, ToMap, Dictionary, PartitionDictionary, ConditionSlots, PartitionIds;
    SlotKeysSplit(s);
    DictionaryExact(ConditionSlots(s));
    PartitionDictionaryExact(PartitionIds(s));
    var a, b, c := FragmentKeys(s), ConditionKeys(|ConditionSlots(s)|), PartitionKeys(|PartitionIds(s)|);
    forall k ensures k in Parameters(s) <==> k in SlotKeys(s) {
      UserKeysUsed(s, k);
      assert k in Dictionary(ConditionSlots(s), 0).Keys <==> k in b;
      assert k in PartitionDictionary(PartitionIds(s)).Keys <==> k in c;
      assert k in a + b + c <==> k in a || k in b || k in c;
    }
  }

  lemma GeneratedIsKey(n: nat)
    ensures IsKey(ParameterName(n)) && IsKey(PartitionName(n))
  {
    var d := Digits(n);
    forall i | 0 <= i < |d| ensures IsWord(d[i]) {
      assert d[i] in d;
    }
    assert IsKey(d) && IsKey(PARAMETER_PREFIX) && IsKey("partition_");
    KeyConcat(PARAMETER_PREFIX, d);
    KeyConcat(PARAMETER_PREFIX, "partition_");
    KeyConcat(PARAMETER_PREFIX + "partition_", d);
  }

  lemma KeyConcat(a: string, b: string)
    requires IsKey(a) && IsKey(b)
    ensures IsKey(a + b)
  {
  }

  /** Every key is a word, so no quoted text can be part of it. */
  lemma ParameterIsKey(s: Select, k: string)
    requires SelectOk(s) && k in Parameters(s)
    ensures IsKey(k)
  {
    hide SelectOk, IsKey, ToMap, Dictionary, PartitionDictionary, ConditionSlots, PartitionIds, ParameterName,
      PartitionName;
    ConditionNames(ConditionSlots(s));
    PartitionNames(PartitionIds(s));
    if k in ToMap(s.parameters) {
      UserIsKey(s, k);
    } else if k in Dictionary(ConditionSlots(s), 0) {
      var j :| k == ParameterName(j);
      GeneratedIsKey(j);
    } else {
      var j :| k == PartitionName(j);
      GeneratedIsKey(j);
    }
  }

  lemma UserIsKey(s: Select, k: string)
    requires SelectOk(s) && k in ToMap(s.parameters)
    ensures IsKey(k)
  {
    hide SelectOk, ToMap, Tokens, MarkNames;
    UserKeysUsed(s, k);
    if s.unsafe.Some? {
      MarkNamesAreWords(s.unsafe.value, k);
    }
  }

  /** The driver's text of every value. */
  function TextMap(m: map<string, Scalar>, text: Scalar -> string): map<string, string> {
    map k | k in m :: text(m[k])
  }

  function TextsOf(values: seq<Scalar>, text: Scalar -> string): (r: seq<string>)
    ensures |r| == |values| && forall i | 0 <= i < |values| :: r[i] == text(values[i])
  {
    seq(|values|, i requires 0 <= i < |values| => text(values[i]))
  }

  /** What clickhouse-connect sends: the statement as it is without parameters, formatted with them
      otherwise. */
  function Sent(sql: string, parameters: map<string, Scalar>, text: Scalar -> string): Option<string> {
    if parameters == map[] then Some(sql) else FormatNamed(sql, TextMap(parameters, text))
  }

  /** What is sent is the statement with every slot replaced by the text of its own value and nothing
      else changed. */
  ghost predicate BindsExactly(s: Select, text: Scalar -> string)
    requires SelectOk(s)
  {
    OkIsBound(s);
    SlotsHoldTheirValues(s);
    FillSelect(s, true);
    Sent(StatementText(s), Parameters(s), text) == Some(Fill(SelectPieces(s), TextsOf(Values(s), text), false))
  }

  lemma TextsLookedUp(keys: seq<string>, values: seq<Scalar>, m: map<string, Scalar>, text: Scalar -> string)
    requires Valued(keys, values, m)
    ensures AllBound(keys, TextMap(m, text)) && Lookup(keys, TextMap(m, text)) == TextsOf(values, text)
  {
  }

  lemma KeysAreWords(s: Select, text: Scalar -> string)
    requires SelectOk(s)
    ensures WordKeys(TextMap(Parameters(s), text))
  {
    hide SelectOk, Parameters;
    forall k | k in TextMap(Parameters(s), text) ensures IsKey(k) {
      ParameterIsKey(s, k);
    }
  }

  /** No table, database, projected or filtered column and no cast type contains a `%`. */
  ghost predicate SelectNamesPercentFree(s: Select) {
    && PercentFree(s.table.database) && PercentFree(s.table.table)
    && ProjectionPercentFree(s)
    && (s.condition.Some? ==> ColumnsPercentFree(ReferencedColumns(s.condition.value)))
  }

  predicate ColumnPercentFree(column: (string, Option<string>)) {
    PercentFree(column.0) && (column.1.Some? ==> PercentFree(column.1.value))
  }

  ghost predicate ProjectionPercentFree(s: Select) {
    if s.countName.Some? then PercentFree(s.countName.value)
    else if s.projection.None? then forall i | 0 <= i < |s.columns| :: PercentFree(s.columns[i])
    else forall i | 0 <= i < |s.projection.value| :: ColumnPercentFree(s.projection.value[i])
  }

  lemma ColumnPieceNames(column: (string, Option<string>))
    ensures SafePieces(ColumnPieces(column))
    ensures NamesPercentFree(ColumnPieces(column)) <==> ColumnPercentFree(column)
  {
    var ps := ColumnPieces(column);
    if column.1.None? {
      OnePiece(Name(column.0));
    } else {
      assert Unprotected(ps[1]) == column.0 && Unprotected(ps[3]) == column.1.value && Unprotected(ps[4]) == column.0;
    }
  }

  lemma {:induction false} ColumnListNames(projection: seq<(string, Option<string>)>)
    ensures SafePieces(ColumnListPieces(projection))
    ensures NamesPercentFree(ColumnListPieces(projection)) <==>
            forall i | 0 <= i < |projection| :: ColumnPercentFree(projection[i])
  {
    hide SafePieces, NamesPercentFree, ColumnPieces, ColumnPercentFree;
    if projection == [] {
      NoPieces();
    } else {
      ColumnPieceNames(projection[0]);
      if |projection| > 1 {
        var rest := projection[1..];
        ColumnListNames(rest);
        PlainAround(", ", ColumnListPieces(rest));
        PiecesConcat(ColumnPieces(projection[0]), [Plain(", ")] + ColumnListPieces(rest));
        assert projection == [projection[0]] + rest;
      }
    }
  }

  lemma ProjectionNames(s: Select)
    ensures SafePieces(ProjectionPieces(s))
    ensures NamesPercentFree(ProjectionPieces(s)) <==> ProjectionPercentFree(s)
  {
    hide SafePieces, NamesPercentFree, PercentFree, ColumnPercentFree, ColumnListPieces, NameList;
    if s.countName.Some? {
      CountNames(s.countName.value);
    } else if s.projection.None? {
      NameListNames(s.columns);
    } else {
      ColumnListNames(s.projection.value);
    }
  }

  lemma CountNames(name: string)
    ensures SafePieces([Plain("count() AS "), Name(name)])
    ensures NamesPercentFree([Plain("count() AS "), Name(name)]) <==> PercentFree(name)
  {
    OnePiece(Name(name));
    PlainAround("count() AS ", [Name(name)]);
    assert [Plain("count() AS "), Name(name)] == [Plain("count() AS ")] + [Name(name)];
  }

  lemma HeadNames(s: Select)
    ensures SafePieces(HeadPieces(s))
    ensures NamesPercentFree(HeadPieces(s)) <==>
            PercentFree(s.table.database) && PercentFree(s.table.table)
            && ProjectionPercentFree(s)
  {
    hide SafePieces, NamesPercentFree, ProjectionPieces, ProjectionPercentFree;
    var table := [Plain(" FROM "), Name(s.table.database), Plain("."), Name(s.table.table), Plain("")];
    ProjectionNames(s);
    TableNames(s.table, "");
    PiecesConcat(ProjectionPieces(s), table);
    PlainAround("SELECT ", ProjectionPieces(s) + table);
  }

  ghost predicate SafeClause(c: Clause, percentFree: bool) {
    SafePieces(c.pieces) && (NamesPercentFree(c.pieces) <==> percentFree)
  }

  lemma FragmentClauseNames(fragment: string)
    ensures SafeClause(FragmentClause(fragment), true)
  {
    hide SafePieces, NamesPercentFree, Tokens;
    var ps := TokenPieces(Tokens(fragment));
    TokenNames(Tokens(fragment));
    PlainAround(")", ps);
    PlainAround("(", ps + [Plain(")")]);
  }

  lemma PartitionClauseNames(ids: seq<string>)
    ensures SafeClause(PartitionClause(ids), true)
  {
    hide SafePieces, NamesPercentFree;
    SlotListNames(|ids|);
    PlainAround("))", SlotList(|ids|));
    PlainAround("(_partition_id IN (", SlotList(|ids|) + [Plain("))")]);
  }

  lemma ConditionClauseNames(p: Predicate)
    ensures SafeClause(ConditionClause(p), ColumnsPercentFree(ReferencedColumns(p)))
  {
    PredicateNames(p);
  }

  ghost predicate ClauseNames(cs: seq<Clause>, percentFree: bool) {
    SafePieces(AndPieces(cs)) && (NamesPercentFree(AndPieces(cs)) <==> percentFree)
  }

  lemma {:induction false} AndNames(a: seq<Clause>, b: seq<Clause>, p: bool, q: bool)
    requires ClauseNames(a, p) && ClauseNames(b, q)
    ensures ClauseNames(a + b, p && q)
  {
    hide SafePieces, NamesPercentFree;
    NoPieces();
    if a == [] {
      assert a + b == b;
    } else if b == [] {
      assert a + b == a;
    } else {
      PlainAround(" AND ", AndPieces(b));
      PiecesConcat(AndPieces(a), [Plain(" AND ")] + AndPieces(b));
      AndPiecesConcat(a, b);
    }
  }

  lemma {:induction false} AndPiecesConcat(a: seq<Clause>, b: seq<Clause>)
    requires a != [] && b != []
    ensures AndPieces(a + b) == AndPieces(a) + ([Plain(" AND ")] + AndPieces(b))
  {
    if |a| == 1 {
      assert (a + b)[1..] == b;
    } else {
      assert (a + b)[1..] == a[1..] + b;
      AndPiecesConcat(a[1..], b);
      var x, y, z := a[0].pieces, AndPieces(a[1..]), [Plain(" AND ")] + AndPieces(b);
      assert x + ([Plain(" AND ")] + (y + z)) == x + ([Plain(" AND ")] + y) + z;
    }
  }

  lemma WhereNames(s: Select)
    ensures ClauseNames(Clauses(s), s.condition.Some? ==> ColumnsPercentFree(ReferencedColumns(s.condition.value)))
  {
    hide SafePieces, NamesPercentFree, FragmentClause, ConditionClause, PartitionClause, ColumnsPercentFree,
      ReferencedColumns;
    NoPieces();
    var a := if s.unsafe.Some? then [FragmentClause(s.unsafe.value)] else [];
    var b := if s.condition.Some? then [ConditionClause(s.condition.value)] else [];
    var c := if s.partitions.Some? then [PartitionClause(s.partitions.value)] else [];
    if s.unsafe.Some? {
      FragmentClauseNames(s.unsafe.value);
    }
    if s.condition.Some? {
      ConditionClauseNames(s.condition.value);
    }
    if s.partitions.Some? {
      PartitionClauseNames(s.partitions.value);
    }
    var p := s.condition.Some? ==> ColumnsPercentFree(ReferencedColumns(s.condition.value));
    AndNames(a, b, true, p);
    AndNames(a + b, c, p, true);
  }

  lemma SelectNames(s: Select)
    ensures SafePieces(SelectPieces(s))
    ensures NamesPercentFree(SelectPieces(s)) <==> SelectNamesPercentFree(s)
  {
    hide SafePieces, NamesPercentFree, HeadPieces, AndPieces, Clauses, LimitText, ProjectionPercentFree,
      ColumnsPercentFree, ReferencedColumns;
    HeadNames(s);
    WhereNames(s);
    NoPieces();
    var cs := Clauses(s);
    LimitPercentFree(s);
    PlainAround(" WHERE ", AndPieces(cs));
    PlainAround(LimitText(s), WherePieces(cs));
    PiecesConcat(HeadPieces(s), WherePieces(cs) + [Plain(LimitText(s))]);
    NoClauses();
  }

  lemma NoClauses()
    ensures AndPieces([]) == []
  {
  }

  lemma LimitPercentFree(s: Select)
    ensures PercentFree(LimitText(s))
  {
  }

  /** The driver writes the bound values without `%`. */
  ghost predicate TextsPercentFree(s: Select, text: Scalar -> string) {
    forall k | k in Parameters(s) :: PercentFree(text(Parameters(s)[k]))
  }

  /** Binding replaces each placeholder by its own value and keeps every other character if and only
      if nothing is bound or no unprotected name contains a `%`: for every way of writing the values
      without `%`, and for all ways of writing them together. */
  lemma BindingExact(s: Select)
    requires SelectOk(s)
    ensures forall text: Scalar -> string | TextsPercentFree(s, text) ::
              BindsExactly(s, text) <==> Parameters(s) == map[] || SelectNamesPercentFree(s)
    ensures (forall text: Scalar -> string :: BindsExactly(s, text)) <==>
              Parameters(s) == map[] || SelectNamesPercentFree(s)
  {
    hide BindsExactly, SelectOk, SelectNamesPercentFree, Parameters, TextsPercentFree;
    if Parameters(s) == map[] {
      forall text: Scalar -> string ensures BindsExactly(s, text) {
        NothingBound(s, text);
      }
    } else if SelectNamesPercentFree(s) {
      forall text: Scalar -> string ensures BindsExactly(s, text) {
        NamesAllowBinding(s, text);
      }
    } else {
      forall text: Scalar -> string | TextsPercentFree(s, text) ensures !BindsExactly(s, text) {
        PercentBreaksBinding(s, text);
      }
      var blank: Scalar -> string := _ => "";
      BlankIsPercentFree(s, blank);
    }
  }

  lemma BlankIsPercentFree(s: Select, blank: Scalar -> string)
    requires forall v :: blank(v) == ""
    ensures TextsPercentFree(s, blank)
  {
  }

  lemma BoundKeys(keys: seq<string>, values: seq<Scalar>, m: map<string, Scalar>)
    requires Valued(keys, values, m)
    ensures keys != [] ==> m != map[]
  {
    if keys != [] {
      assert keys[0] in m;
    }
  }

  lemma NothingBound(s: Select, text: Scalar -> string)
    requires SelectOk(s) && Parameters(s) == map[]
    ensures BindsExactly(s, text)
  {
    hide SelectOk, Fill, SlotCount, SelectPieces, Parameters, SlotKeys, Values;
    SlotsHoldTheirValues(s);
    BoundKeys(SlotKeys(s), Values(s), Parameters(s));
    assert Placeholders(SlotKeys(s)) == TextsOf(Values(s), text);
  }

  lemma NamesAllowBinding(s: Select, text: Scalar -> string)
    requires SelectOk(s) && Parameters(s) != map[] && SelectNamesPercentFree(s)
    ensures BindsExactly(s, text)
  {
    hide SelectOk, Fill, SlotCount, SelectPieces, Parameters, SlotKeys, Values, SelectNamesPercentFree, FormatNamed,
      SafePieces, NamesPercentFree, WordKeys;
    SlotsHoldTheirValues(s);
    SelectNames(s);
    FillSelect(s, true);
    KeysAreWords(s, text);
    TextsLookedUp(SlotKeys(s), Values(s), Parameters(s), text);
    NamedFill(SelectPieces(s), SlotKeys(s), TextMap(Parameters(s), text));
  }

  lemma PercentBreaksBinding(s: Select, text: Scalar -> string)
    requires SelectOk(s) && Parameters(s) != map[] && !SelectNamesPercentFree(s) && TextsPercentFree(s, text)
    ensures !BindsExactly(s, text)
  {
    hide SelectOk, Fill, SlotCount, SelectPieces, SlotKeys, Values, SelectNamesPercentFree, FormatNamed, SafePieces,
      NamesPercentFree, WordKeys, PercentFreeTexts, TextsPercentFree, Parameters;
    var texts := TextMap(Parameters(s), text);
    SlotsHoldTheirValues(s);
    SelectNames(s);
    FillSelect(s, true);
    KeysAreWords(s, text);
    TextsWithoutPercent(s, text);
    TextsLookedUp(SlotKeys(s), Values(s), Parameters(s), text);
    NamedBindingExact(SelectPieces(s), SlotKeys(s), texts);
  }

  lemma TextsWithoutPercent(s: Select, text: Scalar -> string)
    requires TextsPercentFree(s, text)
    ensures PercentFreeTexts(TextMap(Parameters(s), text))
  {
    hide Parameters;
  }

  /** A column named `a%b` next to a bound value. */
  function PercentExample(): Select {
    Select(QualifiedTable("d", "t"), ["a%b"], Some(Compare(Eq, Column("x"), Literal(Int(1)))), None, [], None, None,
      None, None)
  }

  lemma ExampleAccepted()
    ensures SelectOk(PercentExample())
  {
    var s := PercentExample();
    assert |s.parameters| == 0;
    assert ValidColumnList(s.columns);
  }

  lemma ExampleBinds()
    ensures Parameters(PercentExample()) != map[] && !SelectNamesPercentFree(PercentExample())
  {
    hide Dictionary, PartitionDictionary, ToMap;
    var s := PercentExample();
    assert |s.parameters| == 0;
    assert ConditionSlots(s) == [Int(1)];
    ParametersNeverCollide(s);
    assert s.columns[0] == "a%b" && !PercentFree("a%b") by { assert "a%b"[1] == '%'; }
  }

  lemma ExampleText()
    ensures exists rest :: StatementText(PercentExample()) == "SELECT `a" + ("%b" + rest)
  {
    hide SelectPieces, SlotKeys, Clauses, WhereText, ClauseTexts, Parameters, Fill, SlotCount, LimitText;
    var s := PercentExample();
    var bind := Parameters(s) != map[];
    FillSelect(s, bind);
    var tail := WhereText(ClauseTexts(Clauses(s), bind)) + LimitText(s);
    assert Quote("a%b") == "`a%b`";
    assert QuotedList(s.columns) == ["`a%b`"];
    var rest := "` FROM " + TableText(s.table) + tail;
    assert HeadText(s) == "SELECT `a%b` FROM " + TableText(s.table);
    assert StatementText(s) == HeadText(s) + tail;
    assert StatementText(s) == "SELECT `a" + ("%b" + rest);
  }

  /** That request is accepted, and whatever the driver writes for its value formatting fails: the
      statement is never sent. */
  lemma PercentNameBreaks(text: Scalar -> string)
    ensures SelectOk(PercentExample())
    ensures Sent(StatementText(PercentExample()), Parameters(PercentExample()), text) == None
    ensures !BindsExactly(PercentExample(), text)
  {
    hide SelectOk, Parameters, SelectNamesPercentFree, PercentExample, StatementText, SelectPieces, SlotKeys, Values,
      Fill;
    var s := PercentExample();
    ExampleAccepted();
    ExampleBinds();
    ExampleText();
    var rest :| StatementText(s) == "SELECT `a" + ("%b" + rest);
    var values := TextMap(Parameters(s), text);
    CopiesPlain("SELECT `a", "%b" + rest, values);
    FormatPercent("%b" + rest, values);
  }
}
