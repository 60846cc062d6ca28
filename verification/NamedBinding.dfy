/** The driver's one-pass `%` formatting with a dictionary of named values,
    and when it is exact. */
module NamedBinding {
  import opened Wrappers
  import opened Characters
  import opened Identifiers
  import opened PredicateText
  import opened SqlText

  /** A key up to its matching parenthesis, and the text after it. */
  function ReadKey(s: string, depth: nat): (r: Option<(string, string)>)
    ensures r.Some? ==> s == r.value.0 + ")" + r.value.1
  {
    if s == [] then None
    else if s[0] == ')' && depth == 0 then
      assert s == "" + ")" + s[1..];
      Some(("", s[1..]))
    else
      var r := ReadKey(s[1..], if s[0] == '(' then depth + 1 else if s[0] == ')' then depth - 1 else depth);
      assert r.Some? ==> s == [s[0]] + r.value.0 + ")" + r.value.1;
      Consing(s[0], r)
  }

  function Prepend(head: string, r: Option<string>): Option<string> {
    if r.Some? then Some(head + r.value) else None
  }

  /** The placeholder at the start of `s`: its key and the text after it. */
  function ReadPlaceholder(s: string): (r: Option<(string, string)>)
    requires 2 <= |s|
    ensures r.Some? ==> s[1] == '(' && s[2..] == r.value.0 + ")" + "s" + r.value.1
  {
    if s[1] != '(' then None
    else
      var key := ReadKey(s[2..], 0);
      if key.None? || key.value.1 == [] || key.value.1[0] != 's' then None
      else
        assert key.value.1 == "s" + key.value.1[1..];
        Some((key.value.0, key.value.1[1..]))
  }

  /** `s % values`. */
  function FormatNamed(s: string, values: map<string, string>): Option<string>
    decreases |s|
  {
    if s == [] then Some("")
    else if s[0] != '%' then Prepend([s[0]], FormatNamed(s[1..], values))
    else if |s| == 1 then None
    else if s[1] == '%' then Prepend("%", FormatNamed(s[2..], values))
    else
      var p := ReadPlaceholder(s);
      if p.None? || p.value.0 !in values then None
      else
        assert |s[2..]| == |p.value.0| + 2 + |p.value.1|;
        Prepend(values[p.value.0], FormatNamed(p.value.1, values))
  }

  /** Keys made of letters, digits and underscores. */
  predicate IsKey(k: string) {
    forall i | 0 <= i < |k| :: IsWord(k[i])
  }

  ghost predicate WordKeys(values: map<string, string>) {
    forall k | k in values :: IsKey(k)
  }

  function Placeholders(keys: seq<string>): (r: seq<string>)
    ensures |r| == |keys| && forall i | 0 <= i < |keys| :: r[i] == Placeholder(keys[i])
  {
    seq(|keys|, i requires 0 <= i < |keys| => Placeholder(keys[i]))
  }

  ghost predicate AllBound(keys: seq<string>, values: map<string, string>) {
    forall i | 0 <= i < |keys| :: keys[i] in values
  }

  function Lookup(keys: seq<string>, values: map<string, string>): (r: seq<string>)
    requires AllBound(keys, values)
    ensures |r| == |keys| && forall i | 0 <= i < |keys| :: r[i] == values[keys[i]]
  {
    seq(|keys|, i requires 0 <= i < |keys| => values[keys[i]])
  }

  // ----- what formatting does to each piece ---------------------------------------------------

  lemma {:induction false} ReadKeyInverts(name: string, rest: string)
    requires IsKey(name)
    ensures ReadKey(name + ")" + rest, 0) == Some((name, rest))
  {
    var text := name + ")" + rest;
    if name == [] {
      assert text == ")" + rest;
      assert text[1..] == rest;
    } else {
      assert text[0] == name[0] && IsWord(name[0]);
      assert text[1..] == name[1..] + ")" + rest;
      ReadKeyInverts(name[1..], rest);
      assert [name[0]] + name[1..] == name;
    }
  }

  lemma FormatPlaceholder(key: string, rest: string, values: map<string, string>)
    requires IsKey(key) && key in values
    ensures FormatNamed(Placeholder(key) + rest, values) == Prepend(values[key], FormatNamed(rest, values))
  {
    var s := Placeholder(key) + rest;
    assert s[2..] == key + ")" + ("s" + rest);
    ReadKeyInverts(key, "s" + rest);
    assert ("s" + rest)[1..] == rest;
  }

  lemma PrependPrepend(a: string, b: string, r: Option<string>)
    ensures Prepend(a, Prepend(b, r)) == Prepend(a + b, r)
    ensures Prepend("", r) == r
  {
    if r.Some? {
      assert a + (b + r.value) == a + b + r.value;
      assert "" + r.value == r.value;
    }
  }

  lemma {:induction false} CopiesPlain(t: string, rest: string, values: map<string, string>)
    requires PercentFree(t)
    ensures FormatNamed(t + rest, values) == Prepend(t, FormatNamed(rest, values))
  {
    if t == [] {
      assert t + rest == rest;
      PrependPrepend("", "", FormatNamed(rest, values));
    } else {
      assert t[0] in t;
      assert (t + rest)[1..] == t[1..] + rest;
      CopiesPlain(t[1..], rest, values);
      PrependPrepend([t[0]], t[1..], FormatNamed(rest, values));
      assert [t[0]] + t[1..] == t;
    }
  }

  /** A protected fragment character comes out unchanged. */
  lemma CopiesRaw(c: char, rest: string, values: map<string, string>)
    ensures FormatNamed(PieceText(Raw(c), true) + rest, values) == Prepend([c], FormatNamed(rest, values))
  {
    if c == '%' {
      assert ("%%" + rest)[2..] == rest;
    } else {
      CopiesPlain([c], rest, values);
    }
  }

  lemma CopiesPiece(piece: Piece, rest: string, values: map<string, string>)
    requires !piece.Slot? && SafePiece(piece) && PercentFree(Unprotected(piece))
    ensures FormatNamed(PieceText(piece, true) + rest, values) ==
            Prepend(PieceText(piece, false), FormatNamed(rest, values))
  {
    if piece.Raw? {
      CopiesRaw(piece.c, rest, values);
    } else {
      UnprotectedPercent(piece);
      CopiesPlain(PieceText(piece, true), rest, values);
    }
  }

  /** Without `%` in names, formatting puts each value in its slots and changes nothing else. */
  lemma {:induction false} NamedFill(pieces: seq<Piece>, keys: seq<string>, values: map<string, string>)
    requires SafePieces(pieces) && NamesPercentFree(pieces) && |keys| == SlotCount(pieces)
    requires WordKeys(values) && AllBound(keys, values)
    ensures FormatNamed(Fill(pieces, Placeholders(keys), true), values) ==
            Some(Fill(pieces, Lookup(keys, values), false))
  {
    hide FormatNamed, PieceText, Placeholder, SafePiece;
    if pieces == [] {
      FormatNothing(values);
    } else {
      var first, rest := pieces[0], pieces[1..];
      assert SafePiece(first);
      NamesPercentFreeCons(pieces);
      if first.Slot? {
        NamedFill(rest, keys[1..], values);
        FillsTail(keys, values);
        FormatPlaceholder(keys[0], Fill(rest, Placeholders(keys[1..]), true), values);
      } else {
        NamedFill(rest, keys, values);
        CopiesPiece(first, Fill(rest, Placeholders(keys), true), values);
      }
    }
  }

  lemma FormatNothing(values: map<string, string>)
    ensures FormatNamed("", values) == Some("")
  {
  }

  lemma FillsTail(keys: seq<string>, values: map<string, string>)
    requires keys != [] && AllBound(keys, values)
    ensures Placeholders(keys)[1..] == Placeholders(keys[1..])
    ensures AllBound(keys[1..], values) && Lookup(keys, values)[1..] == Lookup(keys[1..], values)
  {
  }

  // ----- names with a percent sign lose it --------------------------------------------------------

  /** A key found within `a` is found the same way when more text follows. */
  lemma {:induction false} ReadKeyLocal(a: string, b: string, depth: nat)
    requires ReadKey(a + b, depth).Some? && |ReadKey(a + b, depth).value.0| < |a|
    ensures var r := ReadKey(a + b, depth).value;
            ReadKey(a, depth) == Some((r.0, a[|r.0| + 1..])) && r.1 == a[|r.0| + 1..] + b
  {
    assert (a + b)[1..] == a[1..] + b;
    assert (a + b)[0] == a[0];
    if !(a[0] == ')' && depth == 0) {
      ReadKeyLocal(a[1..], b, if a[0] == '(' then depth + 1 else if a[0] == ')' then depth - 1 else depth);
    }
  }

  /** Text ending in a character that no placeholder contains. */
  ghost predicate Sealed(t: string) {
    t != [] && !IsWord(t[|t| - 1]) && t[|t| - 1] !in "%()"
  }

  /** A placeholder that starts in sealed text also ends in it, with text to spare. */
  lemma SealedPlaceholder(t: string, rest: string, values: map<string, string>)
    requires Sealed(t) && WordKeys(values) && t[0] == '%' && |t| >= 2
    requires var p := ReadPlaceholder(t + rest); p.Some? && p.value.0 in values
    ensures var p := ReadPlaceholder(t + rest).value; var k := |p.0| + 4;
            && k < |t| && p.1 == t[k..] + rest && ReadPlaceholder(t) == Some((p.0, t[k..])) && Sealed(t[k..])
  {
    var s := t + rest;
    var key := ReadKey(s[2..], 0).value.0;
    assert s[2..] == t[2..] + rest;
    assert IsKey(key);
    KeyEnds(s, t, key);
    ReadKeyLocal(t[2..], rest, 0);
    var tail := t[2..][|key| + 1..];
    assert tail == t[|key| + 3..];
    assert tail[1..] == t[|key| + 4..];
    assert (tail + rest)[1..] == tail[1..] + rest;
  }

  lemma KeyEnds(s: string, t: string, key: string)
    requires Sealed(t) && t <= s && |t| >= 2 && IsKey(key)
    requires |s| >= |key| + 4 && s[2..|key| + 4] == key + ")" + "s"
    requires s[1] == '('
    ensures |key| + 4 < |t|
  {
    forall i | 2 <= i < |key| + 4 ensures IsWord(s[i]) || s[i] == ')' {
      assert s[i] == s[2..|key| + 4][i - 2];
    }
  }

  /** Sealed text is formatted on its own. */
  lemma {:induction false} FormatSealed(t: string, rest: string, values: map<string, string>)
    requires Sealed(t) && WordKeys(values) && FormatNamed(t + rest, values).Some?
    ensures FormatNamed(t, values).Some? && FormatNamed(rest, values).Some?
    ensures FormatNamed(t + rest, values).value == FormatNamed(t, values).value + FormatNamed(rest, values).value
    decreases |t|
  {
    hide ReadPlaceholder, WordKeys, Sealed, FormatNamed;
    SealedFacts(t);
    var s := t + rest;
    if t[0] != '%' {
      assert s[1..] == t[1..] + rest;
      CopiesPlain([t[0]], t[1..] + rest, values);
      CopiesPlain([t[0]], t[1..], values);
      assert [t[0]] + (t[1..] + rest) == s && [t[0]] + t[1..] == t;
      if |t| == 1 {
        FormatNothing(values);
      } else {
        SealedTail(t, 1);
        FormatSealed(t[1..], rest, values);
      }
    } else if t[1] == '%' {
      assert "%%" + (t[2..] + rest) == s && "%%" + t[2..] == t;
      CopiesRaw('%', t[2..] + rest, values);
      CopiesRaw('%', t[2..], values);
      SealedTail(t, 2);
      FormatSealed(t[2..], rest, values);
    } else {
      FormatPercent(s, values);
      SealedPlaceholder(t, rest, values);
      FormatPercent(t, values);
      var k := |ReadPlaceholder(s).value.0| + 4;
      FormatSealed(t[k..], rest, values);
    }
  }

  lemma FormatPercent(s: string, values: map<string, string>)
    requires |s| >= 2 && s[0] == '%' && s[1] != '%'
    ensures var p := ReadPlaceholder(s);
            FormatNamed(s, values) ==
            if p.None? || p.value.0 !in values then None else Prepend(values[p.value.0], FormatNamed(p.value.1, values))
  {
  }

  lemma SealedFacts(t: string)
    requires Sealed(t)
    ensures t != [] && (t[0] == '%' ==> |t| >= 2 && (t[1] == '%' ==> |t| >= 3))
  {
  }

  lemma SealedTail(t: string, k: nat)
    requires Sealed(t) && k < |t|
    ensures Sealed(t[k..])
  {
  }

  /** No value text contains a `%`. */
  ghost predicate PercentFreeTexts(values: map<string, string>) {
    forall k | k in values :: PercentFree(values[k])
  }

  /** How often `%` occurs in `s`. */
  function Percents(s: string): (n: nat)
    ensures n == 0 <==> PercentFree(s)
  {
    if s == [] then 0
    else
      assert s == [s[0]] + s[1..];
      (if s[0] == '%' then 1 else 0) + Percents(s[1..])
  }

  lemma {:induction false} PercentsConcat(a: string, b: string)
    ensures Percents(a + b) == Percents(a) + Percents(b)
  {
    if a == [] {
      assert a + b == b;
    } else {
      assert (a + b)[1..] == a[1..] + b;
      PercentsConcat(a[1..], b);
    }
  }

  /** With such values every text that contains a `%` loses one. */
  lemma {:induction false} FormatLosesPercent(t: string, values: map<string, string>)
    requires PercentFreeTexts(values) && FormatNamed(t, values).Some?
    ensures Percents(FormatNamed(t, values).value) + (if PercentFree(t) then 0 else 1) <= Percents(t)
    decreases |t|
  {
    hide FormatNamed, ReadPlaceholder, Percents;
    if t == [] {
      FormatNothing(values);
    } else if t[0] != '%' {
      assert t == [t[0]] + t[1..];
      CopiesPlain([t[0]], t[1..], values);
      FormatLosesPercent(t[1..], values);
      PercentsConcat([t[0]], FormatNamed(t[1..], values).value);
      PercentsConcat([t[0]], t[1..]);
    } else {
      SomeLength(t, values);
      if t[1] == '%' {
        assert t == "%%" + t[2..];
        CopiesRaw('%', t[2..], values);
        FormatLosesPercent(t[2..], values);
        PercentsConcat("%", FormatNamed(t[2..], values).value);
        PercentsConcat("%", "%" + t[2..]);
        PercentsConcat("%", t[2..]);
        assert "%%" + t[2..] == "%" + ("%" + t[2..]);
      } else {
        FormatPercent(t, values);
        var p := ReadPlaceholder(t).value;
        var head := "%(" + p.0 + ")" + "s";
        assert t == head + p.1 && head[0] == '%';
        FormatLosesPercent(p.1, values);
        PercentsConcat(values[p.0], FormatNamed(p.1, values).value);
        PercentsConcat(head, p.1);
      }
    }
  }

  lemma SomeLength(t: string, values: map<string, string>)
    requires t != [] && t[0] == '%' && FormatNamed(t, values).Some?
    ensures |t| >= 2
  {
  }

  lemma PieceIsSealed(piece: Piece)
    requires piece.Name? || piece.Cast?
    ensures Sealed(PieceText(piece, true))
  {
    var t := PieceText(piece, true);
    assert t[|t| - 1] == if piece.Name? then '`' else ' ';
  }

  /** Whatever formatting gives has fewer `%` than the filled statement if a name contains one. */
  ghost predicate Loses(pieces: seq<Piece>, keys: seq<string>, values: map<string, string>)
    requires |keys| == SlotCount(pieces) && AllBound(keys, values)
  {
    var f := FormatNamed(Fill(pieces, Placeholders(keys), true), values);
    f.Some? ==>
      Percents(f.value)
        + (if NamesPercentFree(pieces) then 0 else 1) <= Percents(Fill(pieces, Lookup(keys, values), false))
  }

  lemma NameLoses(pieces: seq<Piece>, keys: seq<string>, values: map<string, string>)
    requires WordKeys(values) && PercentFreeTexts(values) && |keys| == SlotCount(pieces) && AllBound(keys, values)
    requires pieces != [] && (pieces[0].Name? || pieces[0].Cast?) && Loses(pieces[1..], keys, values)
    ensures Loses(pieces, keys, values)
  {
    hide FormatNamed, PieceText, Placeholder, NamesPercentFree, PercentFree, PercentFreeTexts, Percents, WordKeys,
      Sealed;
    var text, rest := PieceText(pieces[0], true), Fill(pieces[1..], Placeholders(keys), true);
    NamesPercentFreeCons(pieces);
    UnprotectedPercent(pieces[0]);
    PieceIsSealed(pieces[0]);
    if FormatNamed(text + rest, values).Some? {
      FormatSealed(text, rest, values);
      FormatLosesPercent(text, values);
      PercentsConcat(FormatNamed(text, values).value, FormatNamed(rest, values).value);
    }
    PercentsConcat(text, Fill(pieces[1..], Lookup(keys, values), false));
  }

  lemma FixedLoses(pieces: seq<Piece>, keys: seq<string>, values: map<string, string>)
    requires |keys| == SlotCount(pieces) && AllBound(keys, values)
    requires pieces != [] && (pieces[0].Plain? || pieces[0].Raw?) && SafePiece(pieces[0])
            && Loses(pieces[1..], keys, values)
    ensures Loses(pieces, keys, values)
  {
    hide FormatNamed, Placeholder, NamesPercentFree, Percents, PieceText, SafePiece;
    NamesPercentFreeCons(pieces);
    var text, rest := PieceText(pieces[0], false), Fill(pieces[1..], Placeholders(keys), true);
    CopiesPiece(pieces[0], rest, values);
    if FormatNamed(rest, values).Some? {
      PercentsConcat(text, FormatNamed(rest, values).value);
    }
    PercentsConcat(text, Fill(pieces[1..], Lookup(keys, values), false));
  }

  lemma SlotLoses(pieces: seq<Piece>, keys: seq<string>, values: map<string, string>)
    requires WordKeys(values) && |keys| == SlotCount(pieces) && AllBound(keys, values)
    requires pieces != [] && pieces[0].Slot? && AllBound(keys[1..], values) && Loses(pieces[1..], keys[1..], values)
    ensures Loses(pieces, keys, values)
  {
    hide FormatNamed, Placeholder, NamesPercentFree, Percents;
    NamesPercentFreeCons(pieces);
    FillsTail(keys, values);
    var text, rest := values[keys[0]], Fill(pieces[1..], Placeholders(keys[1..]), true);
    FormatPlaceholder(keys[0], rest, values);
    if FormatNamed(rest, values).Some? {
      PercentsConcat(text, FormatNamed(rest, values).value);
    }
    PercentsConcat(text, Fill(pieces[1..], Lookup(keys[1..], values), false));
  }

  lemma {:induction false} PiecesLose(pieces: seq<Piece>, keys: seq<string>, values: map<string, string>)
    requires SafePieces(pieces) && |keys| == SlotCount(pieces)
    requires WordKeys(values) && PercentFreeTexts(values) && AllBound(keys, values)
    ensures Loses(pieces, keys, values)
  {
    hide Loses, SafePiece;
    if pieces == [] {
      NothingLost(values);
      assert keys == [];
    } else {
      assert SafePiece(pieces[0]);
      match pieces[0]
      case Slot =>
        FillsTail(keys, values);
        PiecesLose(pieces[1..], keys[1..], values);
        SlotLoses(pieces, keys, values);
      case Plain(_) =>
        PiecesLose(pieces[1..], keys, values);
        FixedLoses(pieces, keys, values);
      case Raw(_) =>
        PiecesLose(pieces[1..], keys, values);
        FixedLoses(pieces, keys, values);
      case _ =>
        PiecesLose(pieces[1..], keys, values);
        NameLoses(pieces, keys, values);
    }
  }

  lemma NothingLost(values: map<string, string>)
    ensures Loses([], [], values)
  {
  }

  /** For value texts without `%`, formatting is exact if and only if no identifier and no cast type
      contains a `%`. */
  lemma NamedBindingExact(pieces: seq<Piece>, keys: seq<string>, values: map<string, string>)
    requires SafePieces(pieces) && |keys| == SlotCount(pieces)
    requires WordKeys(values) && PercentFreeTexts(values) && AllBound(keys, values)
    ensures FormatNamed(Fill(pieces, Placeholders(keys), true), values) ==
            Some(Fill(pieces, Lookup(keys, values), false))
            <==> NamesPercentFree(pieces)
  {
    hide FormatNamed, SafePieces, NamesPercentFree, Fill, SlotCount;
    if NamesPercentFree(pieces) {
      NamedFill(pieces, keys, values);
    }
    PiecesLose(pieces, keys, values);
  }
}
