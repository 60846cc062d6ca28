/** SQL as pieces with slots that are filled in later, and the one-pass positional `%` formatting
    of its text. */
module SqlText {
  import opened Wrappers
  import opened Identifiers

  /** Fixed text, a quoted identifier, the type of a cast and what closes it, one character of the
      trusted fragment, or the place of a bound value. */
  datatype Piece = Plain(text: string) | Name(name: string) | Cast(typeText: string) | Raw(c: char) | Slot

  function SlotCount(pieces: seq<Piece>): nat {
    if pieces == [] then 0 else (if pieces[0].Slot? then 1 else 0) + SlotCount(pieces[1..])
  }

  /** The text of a piece other than a slot; `protect` doubles `%` in the trusted fragment. */
  function PieceText(piece: Piece, protect: bool): string {
    match piece
    case Plain(text) => text
    case Name(name) => Quote(name)
    case Cast(typeText) => typeText + ") AS "
    case Raw(c) => if c == '%' && protect then "%%" else [c]
    case Slot => ""
  }

  /** The statement with its slots filled in order. */
  function Fill(pieces: seq<Piece>, fills: seq<string>, protect: bool): string
    requires |fills| == SlotCount(pieces)
  {
    if pieces == [] then ""
    else if pieces[0].Slot? then fills[0] + Fill(pieces[1..], fills[1..], protect)
    else PieceText(pieces[0], protect) + Fill(pieces[1..], fills, protect)
  }

  lemma {:induction false} SlotCountConcat(a: seq<Piece>, b: seq<Piece>)
    ensures SlotCount(a + b) == SlotCount(a) + SlotCount(b)
  {
    if a == [] {
      assert a + b == b;
    } else {
      assert (a + b)[1..] == a[1..] + b;
      SlotCountConcat(a[1..], b);
    }
  }

  lemma FillSlot(pieces: seq<Piece>, fills: seq<string>, protect: bool)
    requires pieces != [] && pieces[0].Slot? && |fills| == SlotCount(pieces)
    ensures Fill(pieces, fills, protect) == fills[0] + Fill(pieces[1..], fills[1..], protect)
  {
  }

  lemma {:induction false} FillConcat(a: seq<Piece>, b: seq<Piece>, x: seq<string>, y: seq<string>, protect: bool)
    requires |x| == SlotCount(a) && |y| == SlotCount(b)
    ensures SlotCount(a + b) == |x + y|
    ensures Fill(a + b, x + y, protect) == Fill(a, x, protect) + Fill(b, y, protect)
  {
    hide PieceText;
    SlotCountConcat(a, b);
    if a == [] {
      assert a + b == b && x + y == y;
    } else {
      assert (a + b)[1..] == a[1..] + b && (a + b)[0] == a[0];
      if a[0].Slot? {
        assert (x + y)[1..] == x[1..] + y && (x + y)[0] == x[0];
        FillConcat(a[1..], b, x[1..], y, protect);
        FillSlot(a, x, protect);
        FillSlot(a + b, x + y, protect);
      } else {
        FillConcat(a[1..], b, x, y, protect);
      }
    }
  }

  /** Text that never needs protection. */
  predicate PercentFree(s: string) {
    '%' !in s
  }

  /** Fixed text carries no `%`. */
  predicate SafePiece(p: Piece) {
    p.Plain? ==> PercentFree(p.text)
  }

  predicate SafePieces(pieces: seq<Piece>) {
    forall i | 0 <= i < |pieces| :: SafePiece(pieces[i])
  }

  /** The text that is copied into the statement without protection. */
  function Unprotected(piece: Piece): string {
    match piece
    case Name(name) => name
    case Cast(typeText) => typeText
    case _ => ""
  }

  /** No identifier and no cast type contains a `%`. */
  predicate NamesPercentFree(pieces: seq<Piece>) {
    forall i | 0 <= i < |pieces| :: PercentFree(Unprotected(pieces[i]))
  }

  // ----- positional formatting --------------------------------------------------------

  datatype Formatted = Formatted(text: string, rest: seq<string>)

  function Before(s: string, r: Option<Formatted>): Option<Formatted> {
    if r.Some? then Some(Formatted(s + r.value.text, r.value.rest)) else None
  }

  /** `s % args` up to the point where `args` are left over. */
  function FormatSome(s: string, args: seq<string>): Option<Formatted> {
    if s == [] then Some(Formatted("", args))
    else if s[0] != '%' then Before([s[0]], FormatSome(s[1..], args))
    else if |s| == 1 then None
    else if s[1] == '%' then Before("%", FormatSome(s[2..], args))
    else if s[1] == 's' && args != [] then Before(args[0], FormatSome(s[2..], args[1..]))
    else None
  }

  /** `s % args`: every argument must be used. */
  function FormatPositional(s: string, args: seq<string>): Option<string> {
    var r := FormatSome(s, args);
    if r.Some? && r.value.rest == [] then Some(r.value.text) else None
  }

  lemma BeforeBefore(a: string, b: string, r: Option<Formatted>)
    ensures Before(a, Before(b, r)) == Before(a + b, r)
  {
    if r.Some? {
      assert a + (b + r.value.text) == a + b + r.value.text;
    }
  }

  lemma BeforeNothing(r: Option<Formatted>)
    ensures Before("", r) == r
  {
    if r.Some? {
      assert "" + r.value.text == r.value.text;
    }
  }

  /** Text without `%` is copied. */
  lemma {:induction false} FormatPlain(t: string, rest: string, args: seq<string>)
    requires PercentFree(t)
    ensures FormatSome(t + rest, args) == Before(t, FormatSome(rest, args))
  {
    if t == [] {
      assert t + rest == rest;
      BeforeNothing(FormatSome(rest, args));
    } else {
      assert t[0] in t;
      assert (t + rest)[1..] == t[1..] + rest;
      FormatPlain(t[1..], rest, args);
      BeforeBefore([t[0]], t[1..], FormatSome(rest, args));
      assert [t[0]] + t[1..] == t;
    }
  }

  function Repeat(s: string, n: nat): (r: seq<string>)
    ensures |r| == n && forall i | 0 <= i < n :: r[i] == s
  {
    seq(n, _ => s)
  }

  lemma QuotePercentFree(name: string)
    requires PercentFree(name)
    ensures PercentFree(Quote(name))
  {
    DoubledPercent(name);
  }

  lemma FormatSlot(tail: string, args: seq<string>)
    requires args != []
    ensures FormatSome("%s" + tail, args) == Before(args[0], FormatSome(tail, args[1..]))
  {
    assert ("%s" + tail)[2..] == tail;
  }

  lemma FormatEnd(args: seq<string>)
    ensures FormatSome("", args) == Some(Formatted("", args))
  {
  }

  /** Without `%` in names, formatting puts each argument in its slot and changes nothing else. */
  lemma {:induction false} FormatFill(pieces: seq<Piece>, args: seq<string>, more: seq<string>)
    requires SafePieces(pieces) && NamesPercentFree(pieces) && |args| == SlotCount(pieces)
    ensures FormatSome(Fill(pieces, Repeat("%s", |args|), true), args + more) ==
            Some(Formatted(Fill(pieces, args, false), more))
  {
    hide PieceText, FormatSome, PercentFree;
    if pieces == [] {
      assert args + more == more;
      FormatEnd(more);
    } else {
      var first, rest := pieces[0], pieces[1..];
      assert SafePiece(first);
      assert PercentFree(Unprotected(first));
      var k := if first.Slot? then 1 else 0;
      FormatFill(rest, args[k..], more);
      var tail := Fill(rest, Repeat("%s", |args| - k), true);
      assert Repeat("%s", |args|)[k..] == Repeat("%s", |args| - k);
      if first.Slot? {
        FormatSlot(tail, args + more);
        assert (args + more)[1..] == args[1..] + more;
      } else {
        assert Repeat("%s", |args|) == Repeat("%s", |args| - k) && args[k..] == args;
        FormatPieceText(first, tail, args + more);
      }
    }
  }

  lemma FormatPieceText(piece: Piece, tail: string, args: seq<string>)
    requires !piece.Slot? && (piece.Plain? ==> PercentFree(piece.text)) && PercentFree(Unprotected(piece))
    ensures FormatSome(PieceText(piece, true) + tail, args) == Before(PieceText(piece, false), FormatSome(tail, args))
  {
    match piece
    case Name(name) =>
      QuotePercentFree(name);
      FormatPlain(Quote(name), tail, args);
    case Raw(c) =>
      if c == '%' {
        assert ("%%" + tail)[2..] == tail;
      } else {
        FormatPlain([c], tail, args);
      }
    case _ => FormatPlain(PieceText(piece, true), tail, args);
  }

  ghost predicate Closed(t: string) {
    t != [] ==> t[|t| - 1] != '%'
  }

  /** Text that does not end in `%` is formatted on its own. */
  lemma {:induction false} FormatConcat(t: string, rest: string, args: seq<string>)
    requires Closed(t)
    ensures var f := FormatSome(t, args);
            FormatSome(t + rest, args) == if f.None? then None else Before(f.value.text, FormatSome(rest, f.value.rest))
    decreases |t|
  {
    if t == [] {
      assert t + rest == rest;
      BeforeNothing(FormatSome(rest, args));
    } else if t[0] != '%' {
      assert (t + rest)[1..] == t[1..] + rest;
      FormatConcat(t[1..], rest, args);
      ConcatStep([t[0]], t[1..], rest, args);
    } else {
      assert (t + rest)[2..] == t[2..] + rest;
      assert (t + rest)[1] == t[1];
      if t[1] == '%' {
        FormatConcat(t[2..], rest, args);
        ConcatStep("%", t[2..], rest, args);
      } else if t[1] == 's' && args != [] {
        FormatConcat(t[2..], rest, args[1..]);
        ConcatStep(args[0], t[2..], rest, args[1..]);
      }
    }
  }

  lemma ConcatStep(head: string, t: string, rest: string, args: seq<string>)
    ensures var f := FormatSome(t, args);
            f.Some? ==>
              Before(head, Before(f.value.text, FormatSome(rest, f.value.rest))) ==
              Before(head + f.value.text, FormatSome(rest, f.value.rest))
  {
    var f := FormatSome(t, args);
    if f.Some? {
      BeforeBefore(head, f.value.text, FormatSome(rest, f.value.rest));
    }
  }

  /** Formatting uses up arguments from the front; when it uses none, every `%` makes the text
      shorter. */
  lemma {:induction false} FormatUse(t: string, args: seq<string>)
    requires FormatSome(t, args).Some?
    ensures var f := FormatSome(t, args).value;
            && |f.rest| <= |args| && f.rest == args[|args| - |f.rest|..]
            && (|f.rest| == |args| ==> |f.text| + (if PercentFree(t) then 0 else 1) <= |t|)
    decreases |t|
  {
    if t != [] {
      if t[0] != '%' {
        FormatUse(t[1..], args);
        assert t == [t[0]] + t[1..];
      } else if t[1] == '%' {
        FormatUse(t[2..], args);
      } else {
        FormatUse(t[2..], args[1..]);
      }
    }
  }

  function Template(pieces: seq<Piece>): string {
    Fill(pieces, Repeat("%s", SlotCount(pieces)), true)
  }

  /** If the template can be formatted at all, it takes at least one argument per slot; and when it
      takes no more, the result is shorter than the filled statement by what the names lose. */
  ghost predicate Loses(pieces: seq<Piece>, args: seq<string>) {
    var f := FormatSome(Template(pieces), args);
    f.Some? ==>
      && |f.value.rest| <= |args| - SlotCount(pieces)
      && (|f.value.rest| == |args| - SlotCount(pieces) ==>
            |f.value.text|
              + (if NamesPercentFree(pieces) then 0 else 1) <= |Fill(pieces, args[..SlotCount(pieces)], false)|)
  }

  lemma SlotLoses(pieces: seq<Piece>, args: seq<string>)
    requires pieces != [] && pieces[0].Slot? && (args != [] ==> Loses(pieces[1..], args[1..]))
    ensures Loses(pieces, args)
  {
    var rest, tail := pieces[1..], Template(pieces[1..]);
    var n := SlotCount(rest);
    assert Repeat("%s", n + 1)[1..] == Repeat("%s", n);
    assert Template(pieces) == "%s" + tail;
    assert ("%s" + tail)[2..] == tail;
    NamesPercentFreeCons(pieces);
    if args != [] && n + 1 <= |args| {
      assert args[..n + 1][1..] == args[1..][..n];
    }
  }

  lemma RawLoses(pieces: seq<Piece>, args: seq<string>)
    requires pieces != [] && pieces[0].Raw? && Loses(pieces[1..], args)
    ensures Loses(pieces, args)
  {
    FormatPieceText(pieces[0], Template(pieces[1..]), args);
    NamesPercentFreeCons(pieces);
  }

  lemma TextLoses(pieces: seq<Piece>, args: seq<string>)
    requires pieces != [] && !pieces[0].Slot? && !pieces[0].Raw? && Closed(PieceText(pieces[0], true))
    requires pieces[0].Plain? ==> PercentFree(pieces[0].text)
    requires var g := FormatSome(PieceText(pieces[0], true), args); g.Some? ==> Loses(pieces[1..], g.value.rest)
    ensures Loses(pieces, args)
  {
    hide FormatSome, NamesPercentFree, PercentFree, PieceText;
    var text := PieceText(pieces[0], true);
    FormatConcat(text, Template(pieces[1..]), args);
    NamesPercentFreeCons(pieces);
    UnprotectedPercent(pieces[0]);
    if FormatSome(text, args).Some? {
      FormatUse(text, args);
      var r := FormatSome(text, args).value.rest;
      if |r| == |args| {
        assert r == args;
      }
    }
  }

  lemma {:induction false} FormatLoses(pieces: seq<Piece>, args: seq<string>)
    requires SafePieces(pieces)
    ensures Loses(pieces, args)
    decreases |pieces|
  {
    hide Loses;
    if pieces == [] {
      EmptyLoses(args);
    } else {
      var first, rest := pieces[0], pieces[1..];
      assert SafePieces(rest);
      match first
      case Slot =>
        if args != [] {
          FormatLoses(rest, args[1..]);
        }
        SlotLoses(pieces, args);
      case Raw(_) =>
        FormatLoses(rest, args);
        RawLoses(pieces, args);
      case _ =>
        ClosedText(first);
        if FormatSome(PieceText(first, true), args).Some? {
          FormatLoses(rest, FormatSome(PieceText(first, true), args).value.rest);
        }
        TextLoses(pieces, args);
    }
  }

  lemma EmptyLoses(args: seq<string>)
    ensures Loses([], args)
  {
  }

  lemma ClosedText(piece: Piece)
    requires !piece.Slot? && !piece.Raw? && (piece.Plain? ==> PercentFree(piece.text))
    ensures Closed(PieceText(piece, true))
  {
    if piece.Plain? && piece.text != [] {
      assert piece.text[|piece.text| - 1] in piece.text;
    }
  }

  lemma UnprotectedPercent(piece: Piece)
    requires !piece.Raw? && (piece.Plain? ==> PercentFree(piece.text))
    ensures PercentFree(PieceText(piece, true)) <==> PercentFree(Unprotected(piece))
    ensures PieceText(piece, true) == PieceText(piece, false)
  {
    if piece.Name? {
      DoubledPercent(piece.name);
    }
  }

  lemma NamesPercentFreeCons(pieces: seq<Piece>)
    requires pieces != []
    ensures NamesPercentFree(pieces) <==> PercentFree(Unprotected(pieces[0])) && NamesPercentFree(pieces[1..])
  {
    if PercentFree(Unprotected(pieces[0])) && NamesPercentFree(pieces[1..]) {
      forall i | 0 <= i < |pieces| ensures PercentFree(Unprotected(pieces[i])) {
        if i > 0 {
          assert pieces[i] == pieces[1..][i - 1];
        }
      }
    }
  }

  /** Formatting with positional parameters gives back the statement with its slots filled if and
      only if no identifier and no cast type contains a `%`. */
  lemma PositionalBindingExact(pieces: seq<Piece>, args: seq<string>)
    requires SafePieces(pieces) && |args| == SlotCount(pieces)
    ensures FormatPositional(Fill(pieces, Repeat("%s", |args|), true), args) == Some(Fill(pieces, args, false))
            <==> NamesPercentFree(pieces)
  {
    if NamesPercentFree(pieces) {
      FormatFill(pieces, args, []);
      assert args + [] == args;
    } else if FormatSome(Fill(pieces, Repeat("%s", |args|), true), args).Some? {
      FormatLoses(pieces, args);
      assert args[..|args|] == args;
    }
  }

  lemma PiecesConcat(a: seq<Piece>, b: seq<Piece>)
    ensures SafePieces(a + b) <==> SafePieces(a) && SafePieces(b)
    ensures NamesPercentFree(a + b) <==> NamesPercentFree(a) && NamesPercentFree(b)
  {
    var s := a + b;
    assert forall i | 0 <= i < |a| :: s[i] == a[i];
    assert forall i | 0 <= i < |b| :: s[|a| + i] == b[i];
    if SafePieces(a) && SafePieces(b) {
      forall i | 0 <= i < |s| ensures SafePiece(s[i]) {
        if i >= |a| { assert s[i] == b[i - |a|]; }
      }
    }
    if NamesPercentFree(a) && NamesPercentFree(b) {
      forall i | 0 <= i < |s| ensures PercentFree(Unprotected(s[i])) {
        if i >= |a| { assert s[i] == b[i - |a|]; }
      }
    }
    if SafePieces(s) {
      forall i | 0 <= i < |b| ensures SafePiece(b[i]) { assert SafePiece(s[|a| + i]); }
    }
    if NamesPercentFree(s) {
      forall i | 0 <= i < |b| ensures PercentFree(Unprotected(b[i])) { assert PercentFree(Unprotected(s[|a| + i])); }
    }
  }

  lemma OnePiece(p: Piece)
    ensures SafePieces([p]) <==> SafePiece(p)
    ensures NamesPercentFree([p]) <==> PercentFree(Unprotected(p))
  {
    assert [p][0] == p;
  }

  /** Fixed text in front or behind changes nothing about names. */
  lemma PlainAround(text: string, pieces: seq<Piece>)
    requires PercentFree(text)
    ensures SafePieces([Plain(text)] + pieces) <==> SafePieces(pieces)
    ensures NamesPercentFree([Plain(text)] + pieces) <==> NamesPercentFree(pieces)
    ensures SafePieces(pieces + [Plain(text)]) <==> SafePieces(pieces)
    ensures NamesPercentFree(pieces + [Plain(text)]) <==> NamesPercentFree(pieces)
  {
    PiecesConcat([Plain(text)], pieces);
    PiecesConcat(pieces, [Plain(text)]);
    OnePiece(Plain(text));
  }
}
