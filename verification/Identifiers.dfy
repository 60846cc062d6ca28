/** Backtick quoting shared by both dialects, and its inverse. */
module Identifiers {
  import opened Wrappers
  import opened Sequences
  import opened PredicateIr

  /** Every backtick doubled. */
  function Doubled(name: string): string {
    if name == [] then []
    else if name[0] == '`' then "``" + Doubled(name[1..])
    else [name[0]] + Doubled(name[1..])
  }

  /** `quote_identifier` of a valid name. */
  function Quote(name: string): string {
    "`" + Doubled(name) + "`"
  }

  /** Reads up to the closing backtick: the name and what follows it. */
  function ReadDoubled(s: string): (r: Option<(string, string)>)
    ensures r.Some? ==> |r.value.1| < |s|
  {
    if s == [] then None
    else if s[0] != '`' then Consing(s[0], ReadDoubled(s[1..]))
    else if |s| >= 2 && s[1] == '`' then Consing('`', ReadDoubled(s[2..]))
    else Some(("", s[1..]))
  }

  function Consing(c: char, r: Option<(string, string)>): Option<(string, string)> {
    if r.Some? then Some(([c] + r.value.0, r.value.1)) else None
  }

  function ReadQuoted(s: string): (r: Option<(string, string)>)
    ensures r.Some? ==> |r.value.1| < |s|
  {
    if s != [] && s[0] == '`' then ReadDoubled(s[1..]) else None
  }

  lemma {:induction false} ReadDoubledInverts(name: string, rest: string)
    requires rest == [] || rest[0] != '`'
    ensures ReadDoubled(Doubled(name) + "`" + rest) == Some((name, rest))
  {
    var text := Doubled(name) + "`" + rest;
    if name == [] {
      assert text == "`" + rest;
      assert text[1..] == rest;
    } else {
      ReadDoubledInverts(name[1..], rest);
      var tail := Doubled(name[1..]) + "`" + rest;
      if name[0] == '`' {
        assert text == "``" + tail;
        assert text[2..] == tail;
      } else {
        assert text == [name[0]] + tail;
        assert text[1..] == tail;
      }
      assert [name[0]] + name[1..] == name;
    }
  }

  /** Quoting keeps names of any content apart: the name can be read back from any context. */
  lemma QuoteInverts(name: string, rest: string)
    requires rest == [] || rest[0] != '`'
    ensures ReadQuoted(Quote(name) + rest) == Some((name, rest))
  {
    var text := Quote(name) + rest;
    assert text[1..] == Doubled(name) + "`" + rest;
    ReadDoubledInverts(name, rest);
  }

  lemma {:induction false} DoubledPercent(name: string)
    ensures '%' in Doubled(name) <==> '%' in name
    ensures |Doubled(name)| >= |name|
  {
    if name != [] {
      DoubledPercent(name[1..]);
      assert name == [name[0]] + name[1..];
    }
  }

  /** Any text is an identifier, except the empty one and one with a NUL character. */
  lemma IdentifierRules(name: string)
    ensures ValidIdentifier(name) <==> |name| > 0 && forall i | 0 <= i < |name| :: name[i] != '\0'
  {
  }

  datatype QualifiedTable = QualifiedTable(database: string, table: string) {
    predicate Valid() { ValidIdentifier(database) && ValidIdentifier(table) }
  }

  /** The checks of `normalize_columns`. */
  predicate ValidColumnList(columns: seq<string>) {
    columns != [] && Distinct(columns) && forall c | c in columns :: ValidIdentifier(c)
  }
}
