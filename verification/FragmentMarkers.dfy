/** Which markers the two fragment scanners find, in terms of the text alone. */
module FragmentMarkers {
  import opened Wrappers
  import opened Characters
  import opened FragmentTokens
  import DorisFragment
  import ClickHouseFragment

  predicate NameStart(c: char) {
    'a' <= c <= 'z' || 'A' <= c <= 'Z' || c == '_'
  }

  predicate NameChar(c: char) {
    NameStart(c) || '0' <= c <= '9'
  }

  predicate IsName(name: string) {
    name != [] && NameStart(name[0]) && forall i | 0 <= i < |name| :: NameChar(name[i])
  }

  /** `name` stands at the start of `t` and cannot be longer. */
  predicate LongestName(t: string, name: string) {
    IsName(name) && name <= t && (|name| < |t| ==> !NameChar(t[|name|]))
  }

  lemma NameIsPrefix(t: string, name: string)
    ensures LongestName(t, name) <==> IdentifierLength(t) > 0 && name == t[..IdentifierLength(t)]
  {
    var n := IdentifierLength(t);
    if LongestName(t, name) {
      assert t[0] == name[0];
      WordsEnd(t, |name|);
    }
    if n > 0 && name == t[..n] {
      assert forall i | 0 <= i < n :: IsWord(name[i]);
    }
  }

  lemma {:induction false} WordsEnd(t: string, k: nat)
    requires k <= |t| && (forall i | 0 <= i < k :: IsWord(t[i])) && (k < |t| ==> !IsWord(t[k]))
    ensures WordLength(t) == k
  {
    if k > 0 {
      WordsEnd(t[1..], k - 1);
    }
  }

  // ----- Doris --------------------------------------------------------------------------------------

  /** Where a character stands: outside quotes, inside one, or after a backslash inside one. */
  datatype Quoting = Outside | Inside(quote: char) | Escaped(inside: char)

  /** One character at a time. A doubled quote closes and opens again. */
  function Quoted(state: Quoting, s: string): Quoting
    decreases |s|
  {
    if s == [] then state
    else
      var next :=
        match state
        case Outside => if s[0] == '\'' || s[0] == '"' || s[0] == '`' then Inside(s[0]) else Outside
        case Inside(q) => if s[0] == q then Outside else if s[0] == '\\' && q != '`' then Escaped(q) else state
        case Escaped(q) => Inside(q);
      Quoted(next, s[1..])
  }

  function QuotingOf(quote: Option<char>): Quoting {
    if quote.Some? then Inside(quote.value) else Outside
  }

  lemma {:induction false} QuotingAgrees(quote: Option<char>, s: string)
    requires quote.Some? ==> IsQuote(quote.value)
    ensures DorisFragment.OpenQuote(quote, s).None? <==> Quoted(QuotingOf(quote), s).Outside?
    decreases |s|
  {
    if s != [] {
      if quote.None? {
        QuotingAgrees(if IsQuote(s[0]) then Some(s[0]) else None, s[1..]);
      } else {
        var q, k := quote.value, DorisFragment.QuotedStep(quote.value, s);
        QuotingAgrees(if DorisFragment.ClosesQuote(q, s) then None else quote, s[k..]);
        if k == 2 {
          assert s[1..][1..] == s[2..] && s[1..][0] == s[1];
        } else if |s| == 1 {
          assert s[1..] == [];
        }
      }
    }
  }

  /** A fragment is tokenised exactly when it ends outside quotes. */
  lemma DorisQuotesClose(fragment: string)
    ensures DorisFragment.Tokens(None, None, fragment).Some? <==> Quoted(Outside, fragment).Outside?
  {
    DorisFragment.TokensIffQuotesClose(None, None, fragment);
    QuotingAgrees(None, fragment);
  }

  /** `:name` at position `i`: outside quotes, not after another colon, and with the whole name. */
  predicate IsMarker(s: string, i: int, name: string) {
    && 0 <= i < |s| && s[i] == ':' && (i > 0 ==> s[i - 1] != ':')
    && Quoted(Outside, s[..i]).Outside?
    && LongestName(s[i + 1..], name)
  }

  /** The markers of a Doris fragment are exactly those of its text. */
  lemma DorisMarkersFound(fragment: string, i: int, name: string)
    requires DorisFragment.Tokens(None, None, fragment).Some?
    ensures DorisFragment.MarkAt(DorisFragment.Tokens(None, None, fragment).value, i, name) <==>
            IsMarker(fragment, i, name)
  {
    DorisFragment.MarkersFound(None, None, fragment, i, name);
    if 0 <= i < |fragment| {
      QuotingAgrees(None, fragment[..i]);
      assert fragment[i..][1..] == fragment[i + 1..];
      NameIsPrefix(fragment[i + 1..], name);
    }
  }

  // ----- ClickHouse ---------------------------------------------------------------------------------

  /** A placeholder with that name starts at character `i` of the text the tokens spell. */
  predicate HoleAt(ts: seq<Token>, i: int, name: string) {
    if ts == [] || i < 0 then false
    else if ts[0].Mark? then (i == 0 && ts[0].name == name) || HoleAt(ts[1..], i - 4 - |ts[0].name|, name)
    else HoleAt(ts[1..], i - 1, name)
  }

  /** `%(name)s` at position `i`. */
  predicate IsHole(s: string, i: int, name: string) {
    0 <= i <= |s| && IsName(name) && "%(" + name + ")s" <= s[i..]
  }

  lemma HoleIsName(s: string, name: string)
    ensures IsHole(s, 0, name) <==>
            ClickHouseFragment.HoleName(s) > 0
            && name == s[2..ClickHouseFragment.HoleName(s) + 2]
  {
    assert s[0..] == s;
    var n, text := ClickHouseFragment.HoleName(s), "%(" + name + ")s";
    if IsHole(s, 0, name) {
      assert s[2..][..|name|] == name by { assert s[2..|name| + 2] == text[2..|name| + 2] == name; }
      assert s[|name| + 2] == text[|name| + 2] == ')' && s[|name| + 3] == text[|name| + 3] == 's';
      assert s[0] == text[0] && s[1] == text[1];
      NameIsPrefix(s[2..], name);
    }
    if n > 0 && name == s[2..n + 2] {
      NameIsPrefix(s[2..], s[2..][..n]);
      assert s[2..][..n] == name;
      assert s[..n + 4] == text;
    }
  }

  /** Inside a placeholder no other one starts. */
  lemma NoHoleInside(s: string, i: nat, name: string)
    requires 0 < i < ClickHouseFragment.HoleName(s) + 4 && ClickHouseFragment.HoleName(s) > 0
    ensures !IsHole(s, i, name)
  {
    var n := ClickHouseFragment.HoleName(s);
    assert s[i] != '%' by {
      if 2 <= i < n + 2 {
        assert s[i] == s[2..][i - 2] && IsWord(s[2..][i - 2]);
      }
    }
    HoleStarts(s, i, name);
  }

  lemma HoleStarts(s: string, i: nat, name: string)
    requires i < |s|
    ensures IsHole(s, i, name) ==> s[i] == '%'
  {
    if IsHole(s, i, name) {
      assert s[i..][0] == ("%(" + name + ")s")[0];
    }
  }

  lemma IsHoleTail(s: string, k: nat, i: int, name: string)
    requires k <= |s| && k <= i
    ensures IsHole(s, i, name) <==> IsHole(s[k..], i - k, name)
  {
    if i <= |s| {
      assert s[k..][i - k..] == s[i..];
    }
  }

  /** The placeholders of a ClickHouse fragment are exactly those of its text. */
  lemma {:induction false} ClickHouseHolesFound(s: string, i: int, name: string)
    ensures HoleAt(ClickHouseFragment.Tokens(s), i, name) <==> IsHole(s, i, name)
    decreases |s|
  {
    hide IsHole, ClickHouseFragment.HoleName;
    if s == [] {
      NoHoleInNothing(i, name);
    } else if i < 0 {
      NegativeHole(s, i, name);
    } else {
      var ts, n := ClickHouseFragment.Tokens(s), ClickHouseFragment.HoleName(s);
      var k := ClickHouseFragment.Taken(s);
      assert ts[1..] == ClickHouseFragment.Tokens(s[k..]);
      ClickHouseHolesFound(s[k..], i - k, name);
      if i == 0 {
        HoleIsName(s, name);
      } else if i < k {
        NoHoleInside(s, i, name);
      } else {
        IsHoleTail(s, k, i, name);
      }
    }
  }

  lemma NoHoleInNothing(i: int, name: string)
    ensures !IsHole("", i, name)
  {
    if i == 0 {
      assert |("%(" + name + ")s")| > 0;
    }
  }

  lemma NegativeHole(s: string, i: int, name: string)
    requires i < 0
    ensures !IsHole(s, i, name) && !HoleAt(ClickHouseFragment.Tokens(s), i, name)
  {
  }
}
