/** The scanner that translates `:name` markers of a trusted SQL fragment for Doris. */
module DorisFragment {
  import opened Wrappers
  import opened Sequences
  import opened Characters
  import opened PredicateIr
  import opened SqlText
  import opened PredicatePieces
  import opened FragmentTokens

  function Consed(head: seq<Token>, rest: Option<seq<Token>>): Option<seq<Token>> {
    if rest.Some? then Some(head + rest.value) else None
  }

  /** How many characters the scanner takes at once inside a quoted value: an escape outside
      backticks and a doubled quote count as two. */
  function QuotedStep(q: char, s: string): (k: nat)
    requires s != []
    ensures 1 <= k <= 2 && k <= |s|
  {
    if s[0] == '\\' && q != '`' && |s| >= 2 then 2
    else if s[0] == q && |s| >= 2 && s[1] == q then 2
    else 1
  }

  /** Whether that step closes the quote. */
  predicate ClosesQuote(q: char, s: string)
    requires s != []
  {
    QuotedStep(q, s) == 1 && s[0] == q
  }

  /** The length of the marker name after a colon at the start of `s`, or zero when this colon does
      not start a marker. */
  function MarkLength(prev: Option<char>, s: string): (n: nat)
    requires s != []
    ensures n < |s|
  {
    if s[0] == ':' && prev != Some(':') then IdentifierLength(s[1..]) else 0
  }

  function Chars(s: string): (r: seq<Token>)
    ensures |r| == |s| && forall i | 0 <= i < |s| :: r[i] == Ch(s[i])
  {
    seq(|s|, i requires 0 <= i < |s| => Ch(s[i]))
  }

  /** One step of the scanner: characters taken, tokens emitted, and the state after it. */
  datatype Move = Move(taken: nat, tokens: seq<Token>, prev: Option<char>, quote: Option<char>)

  function Next(prev: Option<char>, quote: Option<char>, s: string): (m: Move)
    requires s != []
    ensures 1 <= m.taken <= |s|
  {
    if quote.Some? then
      var k := QuotedStep(quote.value, s);
      Move(k, Chars(s[..k]), Some(s[k - 1]), if ClosesQuote(quote.value, s) then None else quote)
    else if IsQuote(s[0]) then Move(1, [Ch(s[0])], Some(s[0]), Some(s[0]))
    else
      var n := MarkLength(prev, s);
      if n > 0 then Move(n + 1, [Mark(s[1..n + 1])], Some(s[n]), None)
      else Move(1, [Ch(s[0])], Some(s[0]), None)
  }

  /** The tokens of `s` after the character `prev` inside the quote `quote`; none when a quoted
      value is left open. */
  function Tokens(prev: Option<char>, quote: Option<char>, s: string): Option<seq<Token>>
    decreases |s|
  {
    if s == [] then if quote.Some? then None else Some([])
    else
      var m := Next(prev, quote, s);
      Consed(m.tokens, Tokens(m.prev, m.quote, s[m.taken..]))
  }

  function TokenText(t: Token): string {
    match t case Ch(c) => [c] case Mark(name) => ":" + name
  }

  function TokensText(ts: seq<Token>): string {
    if ts == [] then "" else TokenText(ts[0]) + TokensText(ts[1..])
  }

  lemma {:induction false} TokensTextConcat(a: seq<Token>, b: seq<Token>)
    ensures TokensText(a + b) == TokensText(a) + TokensText(b)
  {
    if a == [] {
      assert a + b == b;
    } else {
      assert (a + b)[1..] == a[1..] + b;
      TokensTextConcat(a[1..], b);
    }
  }

  lemma {:induction false} CharsText(s: string)
    ensures TokensText(Chars(s)) == s
  {
    if s != [] {
      assert Chars(s)[1..] == Chars(s[1..]);
      CharsText(s[1..]);
    }
  }

  /** Tokenising loses nothing: the tokens spell the fragment. */
  lemma {:induction false} TokensLossless(prev: Option<char>, quote: Option<char>, s: string)
    requires Tokens(prev, quote, s).Some?
    ensures TokensText(Tokens(prev, quote, s).value) == s
    decreases |s|
  {
    hide Next, TokensText;
    if s == [] {
      NothingText();
    } else {
      var m := Next(prev, quote, s);
      TokensLossless(m.prev, m.quote, s[m.taken..]);
      TokensTextConcat(m.tokens, Tokens(m.prev, m.quote, s[m.taken..]).value);
      MoveText(prev, quote, s);
      assert s == s[..m.taken] + s[m.taken..];
    }
  }

  lemma NothingText()
    ensures TokensText([]) == ""
  {
  }

  lemma MoveText(prev: Option<char>, quote: Option<char>, s: string)
    requires s != []
    ensures TokensText(Next(prev, quote, s).tokens) == s[..Next(prev, quote, s).taken]
  {
    var m := Next(prev, quote, s);
    if quote.Some? {
      CharsText(s[..m.taken]);
    } else {
      assert TokensText(m.tokens) == TokenText(m.tokens[0]) + TokensText(m.tokens[1..]);
      assert m.tokens[0].Mark? ==> s[..m.taken] == ":" + s[1..m.taken];
    }
  }

  // ----- which markers are found -------------------------------------------------------

  /** The quote that is open after `s`. */
  function OpenQuote(quote: Option<char>, s: string): Option<char>
    decreases |s|
  {
    if s == [] then quote
    else if quote.Some? then
      OpenQuote(if ClosesQuote(quote.value, s) then None else quote, s[QuotedStep(quote.value, s)..])
    else OpenQuote(if IsQuote(s[0]) then Some(s[0]) else None, s[1..])
  }

  lemma {:induction false} OpenQuoteSkipsWord(s: string, k: nat)
    requires k <= |s| && forall i | 0 <= i < k :: !IsQuote(s[i])
    ensures OpenQuote(None, s) == OpenQuote(None, s[k..])
    decreases k
  {
    if k > 0 {
      OpenQuoteSkipsWord(s[1..], k - 1);
      assert s[1..][k - 1..] == s[k..];
    } else {
      assert s[0..] == s;
    }
  }

  lemma MarkHasNoQuote(prev: Option<char>, s: string)
    requires s != [] && MarkLength(prev, s) > 0
    ensures forall i | 0 <= i < MarkLength(prev, s) + 1 :: !IsQuote(s[i])
    ensures forall i | 1 <= i < MarkLength(prev, s) + 1 :: IsWord(s[i])
  {
    var n := MarkLength(prev, s);
    forall i | 1 <= i < n + 1 ensures IsWord(s[i]) {
      assert s[i] == s[1..][i - 1];
    }
  }

  /** A step and the quote automaton agree, also on every prefix that contains the step. */
  lemma OpenQuoteMoves(prev: Option<char>, quote: Option<char>, s: string, i: nat)
    requires s != [] && Next(prev, quote, s).taken <= i <= |s|
    ensures var m := Next(prev, quote, s); OpenQuote(quote, s[..i]) == OpenQuote(m.quote, s[m.taken..i])
  {
    var m := Next(prev, quote, s);
    var t := s[..i];
    if quote.Some? {
      assert t[0] == s[0];
      assert m.taken == 2 || i == 1 || t[1] == s[1];
      assert t[m.taken..] == s[m.taken..i];
    } else if MarkLength(prev, s) > 0 && !IsQuote(s[0]) {
      MarkHasNoQuote(prev, s);
      OpenQuoteSkipsWord(t, m.taken);
      assert t[m.taken..] == s[m.taken..i];
    } else {
      assert t[1..] == s[1..i];
    }
  }

  /** Tokenising succeeds exactly when every quoted value is closed. */
  lemma {:induction false} TokensIffQuotesClose(prev: Option<char>, quote: Option<char>, s: string)
    ensures Tokens(prev, quote, s).Some? <==> OpenQuote(quote, s).None?
    decreases |s|
  {
    if s != [] {
      var m := Next(prev, quote, s);
      OpenQuoteMoves(prev, quote, s, |s|);
      assert s[..|s|] == s && s[m.taken..|s|] == s[m.taken..];
      TokensIffQuotesClose(m.prev, m.quote, s[m.taken..]);
    }
  }

  /** A marker token with that name starts at character `i` of the text the tokens spell. */
  predicate MarkAt(ts: seq<Token>, i: int, name: string) {
    if ts == [] || i < 0 then false
    else if ts[0].Mark? then (i == 0 && ts[0].name == name) || MarkAt(ts[1..], i - 1 - |ts[0].name|, name)
    else MarkAt(ts[1..], i - 1, name)
  }

  lemma {:induction false} MarkAtConcat(a: seq<Token>, b: seq<Token>, i: int, name: string)
    ensures MarkAt(a + b, i, name) <==> MarkAt(a, i, name) || MarkAt(b, i - |TokensText(a)|, name)
  {
    if a == [] {
      assert a + b == b;
    } else {
      assert (a + b)[1..] == a[1..] + b;
      if i < 0 {
        assert !MarkAt(b, i - |TokensText(a)|, name);
      } else {
        MarkAtConcat(a[1..], b, if a[0].Mark? then i - 1 - |a[0].name| else i - 1, name);
      }
    }
  }

  /** Character `i` of `s` starts a marker with that name: a colon outside quotes, not after a colon,
      before the name. */
  predicate StartsMarker(prev: Option<char>, quote: Option<char>, s: string, i: int, name: string) {
    && 0 <= i < |s|
    && OpenQuote(quote, s[..i]).None?
    && var n := MarkLength(if i == 0 then prev else Some(s[i - 1]), s[i..]);
       n > 0 && name == s[i..][1..n + 1]
  }

  lemma {:induction false} CharsHaveNoMark(s: string, i: int, name: string)
    ensures !MarkAt(Chars(s), i, name)
  {
    if s != [] {
      assert Chars(s)[1..] == Chars(s[1..]);
      CharsHaveNoMark(s[1..], i - 1, name);
    }
  }

  /** Inside one step a marker starts only at its first character, and only if the step is one. */
  lemma MoveMarkers(prev: Option<char>, quote: Option<char>, s: string, i: nat, name: string)
    requires s != [] && i < Next(prev, quote, s).taken && (quote.Some? ==> IsQuote(quote.value))
    ensures MarkAt(Next(prev, quote, s).tokens, i, name) <==> StartsMarker(prev, quote, s, i, name)
  {
    var m := Next(prev, quote, s);
    if quote.Some? {
      CharsHaveNoMark(s[..m.taken], i, name);
      if i == 1 {
        var t := s[..1];
        assert QuotedStep(quote.value, t) == 1 && t[1..] == [];
        assert OpenQuote(quote, t) == if t[0] == quote.value then None else quote;
        assert s[1..][0] == s[1];
      }
    } else if m.tokens[0].Mark? {
      MarkHasNoQuote(prev, s);
      assert m.tokens[1..] == [];
      if i == 0 {
        assert s[0..] == s;
      } else {
        assert s[i..][0] == s[i];
      }
    } else {
      assert m.tokens[1..] == [];
      assert s[0..] == s;
    }
  }

  lemma LaterMarkers(prev: Option<char>, quote: Option<char>, s: string, i: nat, name: string)
    requires s != [] && Next(prev, quote, s).taken <= i
    ensures var m := Next(prev, quote, s);
            StartsMarker(prev, quote, s, i, name) <==> StartsMarker(m.prev, m.quote, s[m.taken..], i - m.taken, name)
  {
    hide OpenQuote, Next, MarkLength;
    var m := Next(prev, quote, s);
    NextPrev(prev, quote, s);
    if i < |s| {
      OpenQuoteMoves(prev, quote, s, i);
      ParallelCuts(s, m.taken, i);
    }
  }

  lemma ParallelCuts(s: string, k: nat, i: nat)
    requires k <= i < |s|
    ensures s[k..][..i - k] == s[k..i] && s[k..][i - k..] == s[i..] && (i > k ==> s[k..][i - k - 1] == s[i - 1])
  {
  }

  /** Exactly the `:name` markers outside quotes and not after a colon become marker tokens. */
  lemma {:induction false} MarkersFound(prev: Option<char>, quote: Option<char>, s: string, i: int, name: string)
    requires Tokens(prev, quote, s).Some? && (quote.Some? ==> IsQuote(quote.value))
    ensures MarkAt(Tokens(prev, quote, s).value, i, name) <==> StartsMarker(prev, quote, s, i, name)
    decreases |s|
  {
    hide Next, StartsMarker;
    if s == [] || i < 0 {
      NoMarkers(prev, quote, s, Tokens(prev, quote, s).value, i, name);
    } else {
      var m := Next(prev, quote, s);
      NextQuote(prev, quote, s);
      MarkersFound(m.prev, m.quote, s[m.taken..], i - m.taken, name);
      MarkAtConcat(m.tokens, Tokens(m.prev, m.quote, s[m.taken..]).value, i, name);
      MoveText(prev, quote, s);
      if i < m.taken {
        MoveMarkers(prev, quote, s, i, name);
      } else {
        LaterMarkers(prev, quote, s, i, name);
        BeyondMarkers(m.tokens, i, name);
      }
    }
  }

  lemma NoMarkers(prev: Option<char>, quote: Option<char>, s: string, ts: seq<Token>, i: int, name: string)
    requires i < 0 || (s == [] && ts == [])
    ensures !MarkAt(ts, i, name) && !StartsMarker(prev, quote, s, i, name)
  {
  }

  lemma NextQuote(prev: Option<char>, quote: Option<char>, s: string)
    requires s != [] && (quote.Some? ==> IsQuote(quote.value))
    ensures var m := Next(prev, quote, s); m.quote.Some? ==> IsQuote(m.quote.value)
  {
  }

  lemma NextPrev(prev: Option<char>, quote: Option<char>, s: string)
    requires s != []
    ensures Next(prev, quote, s).prev == Some(s[Next(prev, quote, s).taken - 1])
  {
  }

  lemma {:induction false} BeyondMarkers(ts: seq<Token>, i: int, name: string)
    requires i >= |TokensText(ts)|
    ensures !MarkAt(ts, i, name)
  {
    if ts != [] {
      BeyondMarkers(ts[1..], if ts[0].Mark? then i - 1 - |ts[0].name| else i - 1, name);
    }
  }

  // ----- substitution ------------------------------------------------------------------------

  /** PyMySQL binds by position, doubling `%` when anything is bound; Flight writes literals. */
  datatype Target = MySql(bind: bool) | Flight(literal: Literals)

  /** A token can be rendered: its name is bound, for Flight to a value with a literal. */
  predicate Acceptable(t: Token, m: map<string, Scalar>, target: Target) {
    t.Mark? ==> t.name in m && (target.Flight? ==> target.literal(m[t.name]).Some?)
  }

  ghost predicate AllAcceptable(ts: seq<Token>, m: map<string, Scalar>, target: Target) {
    forall i | 0 <= i < |ts| :: Acceptable(ts[i], m, target)
  }

  /** `append_raw`. */
  function RawOut(c: char, target: Target): string {
    if c == '%' && target == MySql(true) then "%%" else [c]
  }

  function TokenOut(t: Token, m: map<string, Scalar>, target: Target): string
    requires Acceptable(t, m, target)
  {
    match t
    case Ch(c) => RawOut(c, target)
    case Mark(name) => if target.MySql? then "%s" else target.literal(m[name]).value
  }

  function TokenValue(t: Token, m: map<string, Scalar>): seq<Scalar>
    requires t.Mark? ==> t.name in m
  {
    if t.Mark? then [m[t.name]] else []
  }

  /** The rendered tokens. */
  function TokensOut(ts: seq<Token>, m: map<string, Scalar>, target: Target): string
    requires AllAcceptable(ts, m, target)
  {
    if ts == [] then "" else TokensOut(ts[..|ts| - 1], m, target) + TokenOut(ts[|ts| - 1], m, target)
  }

  /** The bound values, in marker order. */
  function TokensValues(ts: seq<Token>, m: map<string, Scalar>): seq<Scalar>
    requires forall i | 0 <= i < |ts| :: ts[i].Mark? ==> ts[i].name in m
  {
    if ts == [] then [] else TokensValues(ts[..|ts| - 1], m) + TokenValue(ts[|ts| - 1], m)
  }

  /** Distinct parameters, closed quotes, markers and parameters naming the same set, and every
      bound value renderable in the chosen style. */
  ghost predicate FragmentOk(fragment: string, parameters: seq<(string, Scalar)>, target: Target) {
    && Distinct(Keys(parameters))
    && Tokens(None, None, fragment).Some?
    && var ts := Tokens(None, None, fragment).value;
       && (forall k :: k in MarkNames(ts) <==> k in Keys(parameters))
       && AllAcceptable(ts, ToMap(parameters), target)
  }

  /** Everything the scanner has done after the tokens `done`. */
  ghost predicate Scanned(done: seq<Token>, m: map<string, Scalar>, target: Target, rendered: string,
                          values: seq<Scalar>, used: set<string>) {
    && AllAcceptable(done, m, target)
    && rendered == TokensOut(done, m, target)
    && values == (if target.MySql? then TokensValues(done, m) else [])
    && forall k :: k in used <==> k in MarkNames(done)
  }

  lemma ScannedAppend(done: seq<Token>, t: Token, m: map<string, Scalar>, target: Target, rendered: string,
                      values: seq<Scalar>, used: set<string>)
    requires Scanned(done, m, target, rendered, values, used) && Acceptable(t, m, target)
    ensures Scanned(done + [t], m, target, rendered + TokenOut(t, m, target),
                    values + (if target.MySql? then TokenValue(t, m) else []),
                      used + (if t.Mark? then {t.name} else {}))
  {
    var ts := done + [t];
    assert ts[..|ts| - 1] == done;
    MarkNamesConcat(done, [t]);
    assert [t][1..] == [];
  }

  /** The character before `index`. */
  function PrevOf(fragment: string, index: nat): Option<char>
    requires index <= |fragment|
  {
    if index == 0 then None else Some(fragment[index - 1])
  }

  /** Progress through the fragment: what is done and what is left make up all tokens. */
  ghost predicate Remaining(fragment: string, index: nat, quote: Option<char>, done: seq<Token>) {
    && index <= |fragment|
    && (quote.Some? ==> IsQuote(quote.value))
    && Tokens(None, None, fragment) ==
       Consed(done, Tokens(PrevOf(fragment, index), quote, fragment[index..]))
  }

  lemma RemainingMoves(fragment: string, index: nat, quote: Option<char>, done: seq<Token>)
    requires Remaining(fragment, index, quote, done) && index < |fragment|
    ensures var m := Next(PrevOf(fragment, index), quote, fragment[index..]);
            Remaining(fragment, index + m.taken, m.quote, done + m.tokens)
  {
    hide Next, Tokens, Consed;
    var prev := PrevOf(fragment, index);
    var s := fragment[index..];
    var m := Next(prev, quote, s);
    NextQuote(prev, quote, s);
    NextPrev(prev, quote, s);
    TokensStep(prev, quote, s);
    assert s[m.taken..] == fragment[index + m.taken..];
    ConsedTwice(done, m.tokens, Tokens(m.prev, m.quote, s[m.taken..]));
  }

  lemma TokensStep(prev: Option<char>, quote: Option<char>, s: string)
    requires s != []
    ensures var m := Next(prev, quote, s);
            Tokens(prev, quote, s) == Consed(m.tokens, Tokens(m.prev, m.quote, s[m.taken..]))
  {
  }

  lemma ConsedTwice(a: seq<Token>, b: seq<Token>, rest: Option<seq<Token>>)
    ensures Consed(a, Consed(b, rest)) == Consed(a + b, rest)
  {
    if rest.Some? {
      assert a + (b + rest.value) == a + b + rest.value;
    }
  }

  /** A token that cannot be rendered makes the whole fragment fail. */
  lemma UnacceptableFails(fragment: string, index: nat, quote: Option<char>, done: seq<Token>, t: Token,
                          parameters: seq<(string, Scalar)>, target: Target)
    requires Remaining(fragment, index, quote, done + [t]) && !Acceptable(t, ToMap(parameters), target)
    ensures !FragmentOk(fragment, parameters, target)
  {
    if Tokens(None, None, fragment).Some? {
      var ts := Tokens(None, None, fragment).value;
      assert ts[|done|] == t;
    }
  }

  /** The branch of the loop inside a quoted value. */
  method ScanQuoted(fragment: string, start: nat, q: char, target: Target, rendered0: string,
                    ghost done: seq<Token>, ghost m: map<string, Scalar>, ghost values: seq<Scalar>,
                    ghost used: set<string>)
    returns (rendered: string, index: nat, quote: Option<char>, ghost done': seq<Token>)
    requires start < |fragment| && IsQuote(q)
    requires Remaining(fragment, start, Some(q), done) && Scanned(done, m, target, rendered0, values, used)
    ensures start < index <= |fragment|
    ensures Remaining(fragment, index, quote, done') && Scanned(done', m, target, rendered, values, used)
  {
    hide Scanned, Remaining;
    var character := fragment[start];
    ghost var s := fragment[start..];
    RemainingMoves(fragment, start, Some(q), done);
    quote, index := Some(q), start;
    rendered := rendered0 + RawOut(character, target);
    ScannedRaw(done, character, m, target, rendered0, values, used);
    done' := done + [Ch(character)];
    if character == '\\' && q != '`' && index + 1 < |fragment| {
      index := index + 1;
      ScannedRaw(done', fragment[index], m, target, rendered, values, used);
      rendered := rendered + RawOut(fragment[index], target);
      done' := done' + [Ch(fragment[index])];
    } else if character == q {
      if index + 1 < |fragment| && fragment[index + 1] == q {
        index := index + 1;
        ScannedRaw(done', fragment[index], m, target, rendered, values, used);
        rendered := rendered + RawOut(fragment[index], target);
        done' := done' + [Ch(fragment[index])];
      } else {
        quote := None;
      }
    }
    index := index + 1;
    assert done' == done + Chars(s[..index - start]);
  }

  lemma ScannedRaw(done: seq<Token>, c: char, m: map<string, Scalar>, target: Target, rendered: string,
                   values: seq<Scalar>, used: set<string>)
    requires Scanned(done, m, target, rendered, values, used)
    ensures Scanned(done + [Ch(c)], m, target, rendered + RawOut(c, target), values, used)
  {
    ScannedAppend(done, Ch(c), m, target, rendered, values, used);
    assert values + [] == values && used + {} == used;
  }

  /** The branch of the loop outside quotes: a quote opens, a marker is substituted, or a character
      is copied; a marker that cannot be rendered stops the scan. */
  method ScanPlain(fragment: string, start: nat, parameters: seq<(string, Scalar)>, m: map<string, Scalar>,
                   target: Target,
                   rendered0: string, values0: seq<Scalar>, used0: set<string>, ghost done: seq<Token>)
    returns (stopped: bool, rendered: string, values: seq<Scalar>, used: set<string>, quote: Option<char>, index: nat,
             ghost done': seq<Token>)
    requires start < |fragment| && m == ToMap(parameters)
    requires Remaining(fragment, start, None, done) && Scanned(done, m, target, rendered0, values0, used0)
    ensures stopped ==> !FragmentOk(fragment, parameters, target)
    ensures !stopped ==> start < index <= |fragment|
    ensures !stopped ==> Remaining(fragment, index, quote, done') && Scanned(done', m, target, rendered, values, used)
  {
    hide Scanned, Remaining, FragmentOk, Acceptable, ToMap;
    var character, s := fragment[start], fragment[start..];
    RemainingMoves(fragment, start, None, done);
    stopped, values, used, quote, index := false, values0, used0, None, start + 1;
    var n := MarkLength(PrevOf(fragment, start), s);
    if !IsQuote(character) && n > 0 {
      var mark := Mark(s[1..n + 1]);
      if !Acceptable(mark, m, target) {
        UnacceptableFails(fragment, start + n + 1, None, done, mark, parameters, target);
        stopped, rendered, done' := true, rendered0, done;
        return;
      }
      ScannedMark(done, mark, m, target, rendered0, values0, used0);
      index := start + n + 1;
      rendered := rendered0 + TokenOut(mark, m, target);
      values := values0 + if target.MySql? then [m[mark.name]] else [];
      used := used0 + {mark.name};
      done' := done + [mark];
    } else {
      if IsQuote(character) {
        quote := Some(character);
      }
      ScannedRaw(done, character, m, target, rendered0, values0, used0);
      rendered := rendered0 + RawOut(character, target);
      done' := done + [Ch(character)];
    }
  }

  lemma ScannedMark(done: seq<Token>, t: Token, m: map<string, Scalar>, target: Target, rendered: string,
                    values: seq<Scalar>, used: set<string>)
    requires Scanned(done, m, target, rendered, values, used) && t.Mark? && Acceptable(t, m, target)
    ensures t.name in m
    ensures Scanned(done + [t], m, target, rendered + TokenOut(t, m, target),
            values + (if target.MySql? then [m[t.name]] else []), used + {t.name})
  {
    ScannedAppend(done, t, m, target, rendered, values, used);
  }

  lemma StartScan(fragment: string, m: map<string, Scalar>, target: Target)
    ensures Remaining(fragment, 0, None, []) && Scanned([], m, target, "", [], {})
  {
    assert fragment[0..] == fragment;
    var all := Tokens(None, None, fragment);
    if all.Some? {
      assert [] + all.value == all.value;
    }
  }

  lemma BoundsOf(fragment: string, index: nat, quote: Option<char>, done: seq<Token>)
    requires Remaining(fragment, index, quote, done)
    ensures index <= |fragment| && (quote.Some? ==> IsQuote(quote.value))
    ensures index == |fragment| ==> Tokens(None, None, fragment) == if quote.Some? then None else Some(done)
  {
    if index == |fragment| {
      assert fragment[index..] == [];
      assert done + [] == done;
    }
  }

  lemma FinishScan(fragment: string, done: seq<Token>, parameters: seq<(string, Scalar)>, target: Target,
                   rendered: string, values: seq<Scalar>, used: set<string>)
    requires Distinct(Keys(parameters))
    requires Tokens(None, None, fragment) == Some(done)
            && Scanned(done, ToMap(parameters), target, rendered, values, used)
    ensures FragmentOk(fragment, parameters, target) <==> forall k | k in Keys(parameters) :: k in used
    ensures AllAcceptable(done, ToMap(parameters), target)
    ensures rendered == TokensOut(done, ToMap(parameters), target)
    ensures values == if target.MySql? then TokensValues(done, ToMap(parameters)) else []
  {
    forall k | k in MarkNames(done) ensures k in Keys(parameters) {
      MarkNameBound(done, k, ToMap(parameters), target);
    }
  }

  lemma {:induction false} MarkNameBound(ts: seq<Token>, k: string, m: map<string, Scalar>, target: Target)
    requires AllAcceptable(ts, m, target) && k in MarkNames(ts)
    ensures k in m
  {
    if ts[0] != Mark(k) {
      assert AllAcceptable(ts[1..], m, target);
      MarkNameBound(ts[1..], k, m, target);
    } else {
      assert Acceptable(ts[0], m, target);
    }
  }

  /** `_render_unsafe_fragment`: succeeds exactly when `FragmentOk`, and then substitutes the markers
      and lists the bound values in marker order. */
  method RenderUnsafeFragment(fragment: string, parameters: seq<(string, Scalar)>, target: Target)
    returns (r: Result<(string, seq<Scalar>)>)
    ensures r.Ok? <==> FragmentOk(fragment, parameters, target)
    ensures r.Ok? ==>
              var ts, m := Tokens(None, None, fragment).value, ToMap(parameters);
              r.value == (TokensOut(ts, m, target), if target.MySql? then TokensValues(ts, m) else [])
    ensures r.Err? ==> r.error == Configuration
  {
    if !Distinct(Keys(parameters)) {
      return Err(Configuration);
    }
    hide Scanned, Remaining;
    var m := ToMap(parameters);
    var rendered, values, used, quote: Option<char>, index := "", [], {}, None, 0;
    ghost var done: seq<Token> := [];
    StartScan(fragment, m, target);
    while index < |fragment|
      invariant Remaining(fragment, index, quote, done)
      invariant Scanned(done, m, target, rendered, values, used)
      decreases |fragment| - index
    {
      BoundsOf(fragment, index, quote, done);
      if quote.Some? {
        rendered, index, quote, done :=
          ScanQuoted(fragment, index, quote.value, target, rendered, done, m, values, used);
      } else {
        var stopped;
        stopped, rendered, values, used, quote, index, done :=
          ScanPlain(fragment, index, parameters, m, target, rendered, values, used, done);
        if stopped {
          return Err(Configuration);
        }
      }
    }
    BoundsOf(fragment, index, quote, done);
    if quote.Some? {
      return Err(Configuration);
    }
    FinishScan(fragment, done, parameters, target, rendered, values, used);
    if exists k | k in Keys(parameters) :: k !in used {
      return Err(Configuration);
    }
    r := Ok((rendered, values));
  }

  // ----- fragments as pieces -------------------------------------------------------------------

  lemma FillToken(t: Token, m: map<string, Scalar>, target: Target, fills: seq<string>)
    requires Acceptable(t, m, target) && |fills| == |TokenValue(t, m)|
    requires t.Mark? ==> fills[0] == TokenOut(t, m, target)
    ensures SlotCount([TokenPiece(t)]) == |fills|
    ensures Fill([TokenPiece(t)], fills, target == MySql(true)) == TokenOut(t, m, target)
  {
    assert [TokenPiece(t)][1..] == [];
    if t.Mark? {
      assert fills[1..] == [];
      assert fills[0] + "" == fills[0];
    }
  }

  /** What a driver style puts into the slots of `values`. */
  function StyleFills(values: seq<Scalar>, target: Target): (r: seq<string>)
    requires target.Flight? ==> Renderable(values, target.literal)
    ensures |r| == |values|
  {
    if target.MySql? then Repeat("%s", |values|) else LiteralTexts(values, target.literal)
  }

  lemma StyleFillsAppend(a: seq<Scalar>, b: seq<Scalar>, target: Target)
    requires target.Flight? ==> Renderable(a, target.literal) && Renderable(b, target.literal)
    ensures target.Flight? ==> Renderable(a + b, target.literal)
    ensures StyleFills(a + b, target) == StyleFills(a, target) + StyleFills(b, target)
  {
    if target.Flight? {
      RenderableSplit(a, b, target.literal);
      var all := LiteralTexts(a + b, target.literal);
      assert all == all[..|a|] + all[|a|..];
    } else {
      assert Repeat("%s", |a| + |b|) == Repeat("%s", |a|) + Repeat("%s", |b|);
    }
  }

  /** The rendered fragment is its pieces filled with the style's texts for the bound values. */
  lemma {:induction false} FillTokens(ts: seq<Token>, m: map<string, Scalar>, target: Target)
    requires AllAcceptable(ts, m, target)
    ensures target.Flight? ==> Renderable(TokensValues(ts, m), target.literal)
    ensures SlotCount(TokenPieces(ts)) == |TokensValues(ts, m)|
    ensures Fill(TokenPieces(ts), StyleFills(TokensValues(ts, m), target), target == MySql(true)) ==
            TokensOut(ts, m, target)
    decreases |ts|
  {
    if ts != [] {
      var front, last := ts[..|ts| - 1], ts[|ts| - 1];
      assert AllAcceptable(front, m, target);
      FillTokens(front, m, target);
      assert Acceptable(last, m, target);
      LastTokenFill(last, m, target);
      assert TokenPieces(ts) == TokenPieces(front) + [TokenPiece(last)];
      StyleFillsAppend(TokensValues(front, m), TokenValue(last, m), target);
      FillConcat(TokenPieces(front), [TokenPiece(last)], StyleFills(TokensValues(front, m), target),
                 StyleFills(TokenValue(last, m), target), target == MySql(true));
    }
  }

  lemma LastTokenFill(t: Token, m: map<string, Scalar>, target: Target)
    requires Acceptable(t, m, target)
    ensures target.Flight? ==> Renderable(TokenValue(t, m), target.literal)
    ensures SlotCount([TokenPiece(t)]) == |TokenValue(t, m)|
    ensures Fill([TokenPiece(t)], StyleFills(TokenValue(t, m), target), target == MySql(true)) == TokenOut(t, m, target)
  {
    if t.Mark? {
      assert TokenValue(t, m)[0] == m[t.name];
    }
    FillToken(t, m, target, StyleFills(TokenValue(t, m), target));
  }

  /** Values are bound exactly when there are markers. */
  lemma {:induction false} ValuesCountMarks(ts: seq<Token>, m: map<string, Scalar>)
    requires forall i | 0 <= i < |ts| :: ts[i].Mark? ==> ts[i].name in m
    ensures |TokensValues(ts, m)| == |MarkNames(ts)|
    decreases |ts|
  {
    if ts != [] {
      var front, last := ts[..|ts| - 1], ts[|ts| - 1];
      ValuesCountMarks(front, m);
      assert ts == front + [last];
      MarkNamesConcat(front, [last]);
      assert [last][1..] == [];
    }
  }
}
