/** The scanner that protects `%` in a trusted fragment but keeps `%(name)s` placeholders. */
module ClickHouseFragment {
  import opened Wrappers
  import opened Sequences
  import opened Characters
  import opened PredicateIr
  import opened PredicateText
  import opened FragmentTokens

  /** The length of the name in a placeholder at the start of `s`, or zero. */
  function HoleName(s: string): (n: nat)
    ensures n > 0 ==> n + 4 <= |s| && s[0] == '%' && s[1] == '('
  {
    if |s| < 2 || s[0] != '%' || s[1] != '(' then 0
    else
      var n := IdentifierLength(s[2..]);
      if n > 0 && n + 4 <= |s| && s[n + 2] == ')' && s[n + 3] == 's' then n else 0
  }

  /** The token at the start of `s`, and how many characters it takes. */
  function FirstToken(s: string): Token
    requires s != []
  {
    if HoleName(s) > 0 then Mark(s[2..HoleName(s) + 2]) else Ch(s[0])
  }

  function Taken(s: string): (k: nat)
    requires s != []
    ensures 1 <= k <= |s|
  {
    if HoleName(s) > 0 then HoleName(s) + 4 else 1
  }

  /** The fragment as characters and placeholders. */
  function Tokens(s: string): seq<Token>
    decreases |s|
  {
    if s == [] then [] else [FirstToken(s)] + Tokens(s[Taken(s)..])
  }

  function TokenOut(t: Token, bind: bool): string {
    match t
    case Ch(c) => if c == '%' && bind then "%%" else [c]
    case Mark(name) => Placeholder(name)
  }

  function TokensOut(ts: seq<Token>, bind: bool): string {
    if ts == [] then "" else TokenOut(ts[0], bind) + TokensOut(ts[1..], bind)
  }

  /** Distinct parameters, and placeholders and parameters naming the same set. */
  ghost predicate FragmentOk(fragment: string, parameters: seq<(string, Scalar)>) {
    && Distinct(Keys(parameters))
    && forall k :: k in MarkNames(Tokens(fragment)) <==> k in Keys(parameters)
  }

  lemma {:induction false} TokensOutConcat(a: seq<Token>, b: seq<Token>, bind: bool)
    ensures TokensOut(a + b, bind) == TokensOut(a, bind) + TokensOut(b, bind)
  {
    if a == [] {
      assert a + b == b;
    } else {
      assert (a + b)[1..] == a[1..] + b;
      TokensOutConcat(a[1..], b, bind);
    }
  }

  /** Without protection the tokens spell the fragment: nothing is lost or added. */
  lemma {:induction false} TokensLossless(s: string)
    ensures TokensOut(Tokens(s), false) == s
    decreases |s|
  {
    hide FirstToken, Taken, TokenOut;
    if s != [] {
      TokensLossless(s[Taken(s)..]);
      FirstTokenText(s);
      assert Tokens(s)[1..] == Tokens(s[Taken(s)..]);
      assert s == s[..Taken(s)] + s[Taken(s)..];
    }
  }

  lemma FirstTokenText(s: string)
    requires s != []
    ensures TokenOut(FirstToken(s), false) == s[..Taken(s)]
  {
    var n := HoleName(s);
    if n > 0 {
      assert s[..n + 4] == "%(" + s[2..n + 2] + ")s";
    }
  }

  /** Progress of the loop: what was rendered and what is left make up all tokens. */
  ghost predicate Scanned(fragment: string, index: nat, done: seq<Token>, bind: bool, rendered: string,
                          used: set<string>) {
    && index <= |fragment|
    && Tokens(fragment) == done + Tokens(fragment[index..])
    && rendered == TokensOut(done, bind)
    && forall k :: k in used <==> k in MarkNames(done)
  }

  function UsedBy(t: Token): set<string> {
    if t.Mark? then {t.name} else {}
  }

  lemma ScannedStep(fragment: string, index: nat, done: seq<Token>, bind: bool, rendered: string, used: set<string>)
    requires Scanned(fragment, index, done, bind, rendered, used) && index < |fragment|
    ensures var t := FirstToken(fragment[index..]);
            Scanned(fragment, index + Taken(fragment[index..]), done + [t], bind, rendered + TokenOut(t, bind),
              used + UsedBy(t))
  {
    hide FirstToken, Taken, TokenOut;
    var s := fragment[index..];
    var t, k := FirstToken(s), Taken(s);
    assert s[k..] == fragment[index + k..];
    assert done + ([t] + Tokens(s[k..])) == done + [t] + Tokens(s[k..]);
    TokensOutConcat(done, [t], bind);
    OneTokenOut(t, bind);
    MarkNamesConcat(done, [t]);
    OneMarkName(t);
  }

  lemma OneTokenOut(t: Token, bind: bool)
    ensures TokensOut([t], bind) == TokenOut(t, bind)
  {
    assert [t][1..] == [];
    assert TokenOut(t, bind) + "" == TokenOut(t, bind);
  }

  lemma OneMarkName(t: Token)
    ensures forall k :: k in MarkNames([t]) <==> k in UsedBy(t)
  {
    assert [t][1..] == [];
  }

  /** A placeholder is next. */
  lemma ScannedMark(fragment: string, index: nat, done: seq<Token>, bind: bool, rendered: string, used: set<string>)
    requires Scanned(fragment, index, done, bind, rendered, used) && index < |fragment|
            && HoleName(fragment[index..]) > 0
    ensures var n := HoleName(fragment[index..]);
            var name := fragment[index..][2..n + 2];
            && Scanned(fragment, index + n + 4, done + [Mark(name)], bind, rendered + Placeholder(name), used + {name})
            && name in MarkNames(Tokens(fragment))
  {
    hide HoleName, Placeholder, Tokens, TokensOut, MarkNames, Scanned;
    ScannedStep(fragment, index, done, bind, rendered, used);
    var n := HoleName(fragment[index..]);
    var name := fragment[index..][2..n + 2];
    MarkFound(fragment, index + n + 4, done, name, bind, rendered + Placeholder(name), used + {name});
  }

  /** Any other character is next. */
  lemma ScannedChar(fragment: string, index: nat, done: seq<Token>, bind: bool, rendered: string, used: set<string>)
    requires Scanned(fragment, index, done, bind, rendered, used) && index < |fragment|
            && HoleName(fragment[index..]) == 0
    ensures var c := fragment[index];
            Scanned(fragment, index + 1, done + [Ch(c)], bind, rendered + (if c == '%' && bind then "%%" else [c]),
              used)
  {
    hide HoleName, Tokens, TokensOut, MarkNames, Scanned;
    ScannedStep(fragment, index, done, bind, rendered, used);
    assert used + {} == used;
  }

  /** `_render_unsafe_fragment`: succeeds exactly when `FragmentOk`; placeholders are kept, and every
      other `%` is doubled when something is bound. */
  method RenderUnsafeFragment(fragment: string, parameters: seq<(string, Scalar)>, bind: bool)
    returns (r: Result<string>)
    ensures r.Ok? <==> FragmentOk(fragment, parameters)
    ensures r.Ok? ==> r.value == TokensOut(Tokens(fragment), bind)
    ensures r.Err? ==> r.error == Configuration
  {
    hide TokensOut, MarkNames, Tokens, Scanned, HoleName, Placeholder, FragmentOk, Known, AllUsed, Keys, Distinct;
    var names := Keys(parameters);
    if !Distinct(names) {
      if FragmentOk(fragment, parameters) { DistinctNeeded(fragment, parameters); }
      return Err(Configuration);
    }
    var rendered, used, index := "", {}, 0;
    ghost var done: seq<Token> := [];
    ScanStart(fragment, bind, names);
    while index < |fragment|
      invariant index <= |fragment| && Scanned(fragment, index, done, bind, rendered, used)
      invariant Known(used, names)
      decreases |fragment| - index
    {
      var n := HoleName(fragment[index..]);
      if n > 0 {
        var name := fragment[index..][2..n + 2];
        ScannedMark(fragment, index, done, bind, rendered, used);
        NameDecides(fragment, parameters, used, name);
        if name !in names {
          return Err(Configuration);
        }
        rendered, used, index := rendered + Placeholder(name), used + {name}, index + n + 4;
        done := done + [Mark(name)];
      } else {
        ScannedChar(fragment, index, done, bind, rendered, used);
        var c := fragment[index];
        rendered, index := rendered + (if c == '%' && bind then "%%" else [c]), index + 1;
        done := done + [Ch(c)];
      }
    }
    ScanEnd(fragment, done, bind, rendered, used);
    ScanDecides(fragment, parameters, used);
    if !AllUsed(names, used) {
      return Err(Configuration);
    }
    r := Ok(rendered);
  }

  predicate Known(used: set<string>, names: seq<string>) {
    forall k | k in used :: k in names
  }

  predicate AllUsed(names: seq<string>, used: set<string>) {
    forall k | k in names :: k in used
  }

  lemma NameDecides(fragment: string, parameters: seq<(string, Scalar)>, used: set<string>, name: string)
    requires name in MarkNames(Tokens(fragment)) && Known(used, Keys(parameters))
    ensures if name in Keys(parameters) then Known(used + {name}, Keys(parameters))
            else !FragmentOk(fragment, parameters)
  {
    hide Tokens, MarkNames, Keys;
  }

  lemma DistinctNeeded(fragment: string, parameters: seq<(string, Scalar)>)
    requires FragmentOk(fragment, parameters)
    ensures Distinct(Keys(parameters))
  {
  }

  lemma ScanDecides(fragment: string, parameters: seq<(string, Scalar)>, used: set<string>)
    requires Known(used, Keys(parameters)) && Distinct(Keys(parameters))
    requires forall k :: k in used <==> k in MarkNames(Tokens(fragment))
    ensures FragmentOk(fragment, parameters) <==> AllUsed(Keys(parameters), used)
  {
    hide Tokens, MarkNames, Keys, Distinct;
  }

  lemma ScanStart(fragment: string, bind: bool, names: seq<string>)
    ensures Scanned(fragment, 0, [], bind, "", {}) && Known({}, names)
  {
    assert fragment[0..] == fragment;
    assert [] + Tokens(fragment) == Tokens(fragment);
  }

  lemma ScanEnd(fragment: string, done: seq<Token>, bind: bool, rendered: string, used: set<string>)
    requires Scanned(fragment, |fragment|, done, bind, rendered, used)
    ensures Tokens(fragment) == done && rendered == TokensOut(Tokens(fragment), bind)
    ensures forall k :: k in used <==> k in MarkNames(Tokens(fragment))
  {
    assert fragment[|fragment|..] == [];
    assert done + [] == done;
  }

  lemma MarkFound(fragment: string, index: nat, done: seq<Token>, name: string, bind: bool, rendered: string,
                  used: set<string>)
    requires Scanned(fragment, index, done + [Mark(name)], bind, rendered, used) && name in used
    ensures name in MarkNames(Tokens(fragment))
  {
    MarkNamesConcat(done + [Mark(name)], Tokens(fragment[index..]));
  }

  /** Placeholder names are identifiers, so they contain neither quotes, `%` nor parentheses. */
  lemma {:induction false} MarkNamesAreWords(s: string, k: string)
    requires k in MarkNames(Tokens(s))
    ensures forall i | 0 <= i < |k| :: IsWord(k[i])
    decreases |s|
  {
    var n := HoleName(s);
    if n > 0 {
      var rest := Tokens(s[n + 4..]);
      assert Tokens(s)[1..] == rest && Tokens(s)[0] == Mark(s[2..n + 2]);
      if k == s[2..n + 2] {
        assert forall i | 0 <= i < n :: s[2..n + 2][i] == s[2..][i];
      } else {
        MarkNamesAreWords(s[n + 4..], k);
      }
    } else {
      assert Tokens(s)[1..] == Tokens(s[1..]);
      MarkNamesAreWords(s[1..], k);
    }
  }
}
