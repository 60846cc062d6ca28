/** Reading SELECT statements back: numbers, names, tables and limits,
    with literals of their own. */
module StatementReader {
  import opened Wrappers
  import opened Sequences
  import opened PredicateIr
  import opened Identifiers
  import opened PredicateText
  import opened SelectText

  /** What a statement selects: a count under a name, or columns with their casts. */
  datatype Projection = CountAs(name: string) | ColumnsOf(columns: seq<(string, Option<string>)>)

  function Uncast(names: seq<string>): (r: seq<(string, Option<string>)>)
    ensures |r| == |names| && forall i | 0 <= i < |names| :: r[i] == (names[i], None)
  {
    seq(|names|, i requires 0 <= i < |names| => (names[i], None))
  }

  // ----- numbers -------------------------------------------------------------------------------------

  /** Reads decimal digits after the number `value`. */
  function ReadDigits(s: string, value: nat): (r: (nat, string))
    ensures |r.1| <= |s|
  {
    if s != [] && '0' <= s[0] <= '9' then ReadDigits(s[1..], 10 * value + (s[0] as int - '0' as int)) else (value, s)
  }

  function ReadNumber(s: string): (r: Option<(nat, string)>)
    ensures r.Some? ==> |r.value.1| < |s|
  {
    if s != [] && '0' <= s[0] <= '9' then Some(ReadDigits(s[1..], s[0] as int - '0' as int)) else None
  }

  lemma {:induction false} ReadDigitsInverts(n: nat, rest: string)
    ensures ReadDigits(Digits(n) + rest, 0) == ReadDigits(rest, n)
  {
    if n < 10 {
      var d := Digits(n);
      assert (d + rest)[1..] == rest;
    } else {
      var d := [('0' as int + n % 10) as char];
      assert Digits(n) + rest == Digits(n / 10) + (d + rest);
      ReadDigitsInverts(n / 10, d + rest);
      assert (d + rest)[1..] == rest;
    }
  }

  /** A number is over where no digit follows. */
  predicate NoDigit(s: string) {
    s == [] || !('0' <= s[0] <= '9')
  }

  lemma ReadNumberInverts(n: nat, rest: string)
    requires NoDigit(rest)
    ensures ReadNumber(Digits(n) + rest) == Some((n, rest))
  {
    hide Digits;
    ReadDigitsInverts(n, rest);
    var text := Digits(n) + rest;
    assert text[0] in Digits(n);
    assert ReadDigits(text, 0) == ReadDigits(text[1..], text[0] as int - '0' as int);
  }

  /** Numbers separated by commas, up to the closing parenthesis. */
  function ReadNumbers(s: string): (r: Option<(seq<int>, string)>)
    decreases |s|
  {
    var first := ReadNumber(s);
    if first.None? then None
    else if After(first.value.1, ")").Some? then Some(([first.value.0], After(first.value.1, ")").value))
    else
      var more := After(first.value.1, ", ");
      if more.None? then None
      else
        var rest := ReadNumbers(more.value);
        if rest.Some? then Some(([first.value.0 as int] + rest.value.0, rest.value.1)) else None
  }

  // ----- names ---------------------------------------------------------------------------------------

  /** Quoted names separated by commas. */
  function ReadNames(s: string): (r: Option<(seq<string>, string)>)
    decreases |s|
  {
    var first := ReadQuoted(s);
    if first.None? then None
    else
      var more := After(first.value.1, ", ");
      if more.None? then Some(([first.value.0], first.value.1))
      else
        var rest := ReadNames(more.value);
        if rest.Some? then Some(([first.value.0] + rest.value.0, rest.value.1)) else None
  }

  /** A name is over where neither a backtick nor another item follows. */
  predicate EndsName(s: string) {
    s == [] || (s[0] != '`' && s[0] != ',')
  }

  /** The database and table of ` FROM`. */
  function ReadTable(s: string): (r: Option<(QualifiedTable, string)>)
  {
    var from := After(s, " FROM ");
    if from.None? then None
    else
      var database := ReadQuoted(from.value);
      if database.None? then None
      else
        var dot := After(database.value.1, ".");
        if dot.None? then None
        else
          var table := ReadQuoted(dot.value);
          if table.None? then None else Some((QualifiedTable(database.value.0, table.value.0), table.value.1))
  }

  lemma ReadTableInverts(t: QualifiedTable, rest: string)
    requires EndsName(rest)
    ensures ReadTable(" FROM " + (Quote(t.database) + ("." + (Quote(t.table) + rest)))) == Some((t, rest))
  {
    hide Quote, ReadQuoted;
    var tail := Quote(t.table) + rest;
    AfterPrefix(" FROM ", Quote(t.database) + ("." + tail));
    assert ("." + tail)[0] == '.';
    QuoteInverts(t.database, "." + tail);
    AfterPrefix(".", tail);
    QuoteInverts(t.table, rest);
  }

  // ----- the limit -----------------------------------------------------------------------------------

  /** The end of a statement: nothing, or a limit. */
  function ReadLimit(s: string): Option<Option<nat>> {
    if s == [] then Some(None)
    else
      var t := After(s, " LIMIT ");
      if t.None? then None
      else
        var n := ReadNumber(t.value);
        if n.Some? && n.value.1 == [] then Some(Some(n.value.0)) else None
  }

  lemma ReadLimitInverts(n: nat)
    ensures ReadLimit(" LIMIT " + Digits(n)) == Some(Some(n))
  {
    AfterPrefix(" LIMIT ", Digits(n));
    ReadNumberInverts(n, "");
    assert Digits(n) + "" == Digits(n);
  }

  // ----- lists of names and the end of clauses -----------------------------------------------------

  lemma {:induction false} ReadNamesInverts(names: seq<string>, rest: string)
    requires names != [] && EndsName(rest)
    ensures ReadNames(Join(QuotedList(names)) + rest) == Some((names, rest))
  {
    hide Quote, ReadQuoted;
    var q := QuotedList(names);
    if |names| == 1 {
      QuoteInverts(names[0], rest);
      NoItem(rest);
      assert names == [names[0]];
    } else {
      var more := Join(QuotedList(names[1..])) + rest;
      assert q[1..] == QuotedList(names[1..]);
      assert Join(q) + rest == Quote(names[0]) + (", " + more);
      assert (", " + more)[0] == ',';
      QuoteInverts(names[0], ", " + more);
      AfterPrefix(", ", more);
      ReadNamesInverts(names[1..], rest);
      assert names == [names[0]] + names[1..];
    }
  }

  lemma NoItem(rest: string)
    requires EndsName(rest)
    ensures After(rest, ", ").None?
  {
    assert ", "[0] == ',';
  }

  /** What follows a clause. */
  predicate AtEnd(s: string) {
    s == [] || " LIMIT " <= s
  }

  lemma EndIsNoClause(s: string)
    requires AtEnd(s)
    ensures After(s, " AND ").None? && After(s, " WHERE ").None?
  {
    if s != [] {
      assert s[1] == " LIMIT "[1];
    }
    assert " AND "[1] == 'A' && " WHERE "[1] == 'W';
  }
}
