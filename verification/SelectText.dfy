/** The parts of a SELECT statement that both dialects share, once as text and once as pieces,
    and that the two agree. */
module SelectText {
  import opened Wrappers
  import opened Sequences
  import opened Identifiers
  import opened PredicateText
  import opened SqlText
  import opened PredicatePieces

  function QuotedList(names: seq<string>): (r: seq<string>)
    ensures |r| == |names| && forall i | 0 <= i < |names| :: r[i] == Quote(names[i])
  {
    seq(|names|, i requires 0 <= i < |names| => Quote(names[i]))
  }

  function TableText(t: QualifiedTable): string {
    Quote(t.database) + "." + Quote(t.table)
  }

  /** A limit is not applied to a count; a negative one is refused. */
  predicate LimitOk(limit: Option<int>, counting: bool) {
    limit.Some? && !counting ==> limit.value >= 0
  }

  function LimitClause(limit: Option<int>, counting: bool): string
    requires LimitOk(limit, counting)
  {
    if limit.Some? && !counting then " LIMIT " + Digits(limit.value) else ""
  }

  function NameList(names: seq<string>): seq<Piece> {
    if names == [] then [] else if |names| == 1 then [Name(names[0])]
    else [Name(names[0]), Plain(", ")] + NameList(names[1..])
  }

  lemma {:induction false} FillNames(names: seq<string>, protect: bool)
    ensures SlotCount(NameList(names)) == 0 && Fill(NameList(names), [], protect) == Join(QuotedList(names))
  {
    if |names| == 1 {
      FillName(names[0], [], [], protect);
      assert [Name(names[0])] + [] == [Name(names[0])];
      assert Quote(names[0]) + "" == Quote(names[0]);
    } else if |names| > 1 {
      FillNames(names[1..], protect);
      FillPlain(", ", NameList(names[1..]), [], protect);
      FillName(names[0], [Plain(", ")] + NameList(names[1..]), [], protect);
      assert NameList(names) == [Name(names[0])] + ([Plain(", ")] + NameList(names[1..]));
      assert QuotedList(names)[1..] == QuotedList(names[1..]);
      var rest := Join(QuotedList(names[1..]));
      assert Quote(names[0]) + (", " + rest) == Quote(names[0]) + ", " + rest;
    }
  }

  lemma FillTable(t: QualifiedTable, tail: string, protect: bool)
    ensures var ps := [Plain(" FROM "), Name(t.database), Plain("."), Name(t.table), Plain(tail)];
            SlotCount(ps) == 0 && Fill(ps, [], protect) == " FROM " + TableText(t) + tail
  {
    hide Fill, SlotCount;
    var p4 := [Plain(tail)];
    EmptyFill(protect);
    FillPlain(tail, [], [], protect);
    assert [Plain(tail)] + [] == p4 && tail + "" == tail;
    FillName(t.table, p4, [], protect);
    FillPlain(".", [Name(t.table)] + p4, [], protect);
    var p2 := [Plain(".")] + ([Name(t.table)] + p4);
    FillName(t.database, p2, [], protect);
    FillPlain(" FROM ", [Name(t.database)] + p2, [], protect);
    assert [Plain(" FROM "), Name(t.database), Plain("."), Name(t.table), Plain(tail)] == [Plain(" FROM ")]
            + ([Name(t.database)] + p2);
    assert " FROM " + (Quote(t.database) + ("." + (Quote(t.table) + tail))) == " FROM " + TableText(t) + tail;
  }

  lemma EmptyFill(protect: bool)
    ensures SlotCount([]) == 0 && Fill([], [], protect) == ""
  {
  }

  lemma NothingAdded()
    ensures var none: seq<string> := []; none + none == none
  {
  }

  lemma {:induction false} NameListNames(names: seq<string>)
    ensures SafePieces(NameList(names))
    ensures NamesPercentFree(NameList(names)) <==> forall i | 0 <= i < |names| :: PercentFree(names[i])
  {
    if |names| == 1 {
      OnePiece(Name(names[0]));
    } else if |names| > 1 {
      NameListNames(names[1..]);
      PlainAround(", ", NameList(names[1..]));
      OnePiece(Name(names[0]));
      PiecesConcat([Name(names[0])], [Plain(", ")] + NameList(names[1..]));
      assert NameList(names) == [Name(names[0])] + ([Plain(", ")] + NameList(names[1..]));
      assert (forall i | 0 <= i < |names| :: PercentFree(names[i])) <==>
             PercentFree(names[0]) && forall i | 0 <= i < |names[1..]| :: PercentFree(names[1..][i]) by {
        assert names == [names[0]] + names[1..];
      }
    }
  }

  lemma TableNames(t: QualifiedTable, tail: string)
    requires PercentFree(tail)
    ensures var ps := [Plain(" FROM "), Name(t.database), Plain("."), Name(t.table), Plain(tail)];
            SafePieces(ps) && (NamesPercentFree(ps) <==> PercentFree(t.database) && PercentFree(t.table))
  {
    var ps := [Plain(" FROM "), Name(t.database), Plain("."), Name(t.table), Plain(tail)];
    assert Unprotected(ps[1]) == t.database && Unprotected(ps[3]) == t.table;
  }

  lemma NoPieces()
    ensures SafePieces([]) && NamesPercentFree([])
  {
  }
}
