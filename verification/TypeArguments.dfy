/** The quote, escape and depth scanner that splits ClickHouse type arguments,
    and what it accepts. */
module TypeArguments {
  import opened Wrappers
  import opened Sequences
  import opened Characters

  // ----- characters and trimming -------------------------------------------------

  /** Python's `str.isspace`, which `strip` and `\s` share. */
  predicate IsSpace(c: char) {
    || '\t' <= c <= '\r'
    || '\U{1c}' <= c <= ' '
    || c == '\U{85}' || c == '\U{a0}' || c == '\U{1680}'
    || '\U{2000}' <= c <= '\U{200a}'
    || c == '\U{2028}' || c == '\U{2029}' || c == '\U{202f}' || c == '\U{205f}' || c == '\U{3000}'
  }

  function StripLeft(s: string): (r: string)
    ensures |r| <= |s|
    ensures r != [] ==> !IsSpace(r[0])
  {
    if s != [] && IsSpace(s[0]) then StripLeft(s[1..]) else s
  }

  function StripRight(s: string): (r: string)
    ensures |r| <= |s| && r == s[..|r|]
    ensures r != [] ==> !IsSpace(r[|r| - 1])
  {
    if s != [] && IsSpace(s[|s| - 1]) then StripRight(s[..|s| - 1]) else s
  }

  /** Python's `str.strip`. */
  function Strip(s: string): (r: string)
    ensures |r| <= |s| && Trimmed(r)
  {
    StripRight(StripLeft(s))
  }

  predicate Trimmed(s: string) {
    s != [] ==> !IsSpace(s[0]) && !IsSpace(s[|s| - 1])
  }

  lemma StripTrimmed(s: string)
    requires Trimmed(s)
    ensures Strip(s) == s
  {
  }

  lemma {:induction false} StripLeftSplits(s: string) returns (lead: string)
    ensures s == lead + StripLeft(s) && forall c | c in lead :: IsSpace(c)
  {
    if s != [] && IsSpace(s[0]) {
      var rest := StripLeftSplits(s[1..]);
      lead := [s[0]] + rest;
    } else {
      lead := [];
    }
  }

  lemma {:induction false} StripRightSplits(s: string) returns (trail: string)
    ensures s == StripRight(s) + trail && forall c | c in trail :: IsSpace(c)
  {
    if s != [] && IsSpace(s[|s| - 1]) {
      var rest := StripRightSplits(s[..|s| - 1]);
      trail := rest + [s[|s| - 1]];
      assert s == s[..|s| - 1] + [s[|s| - 1]];
    } else {
      trail := [];
    }
  }

  /** A text is its stripped core between white space. */
  lemma StripSplits(s: string) returns (lead: string, trail: string)
    ensures s == lead + Strip(s) + trail
    ensures forall c | c in lead :: IsSpace(c)
    ensures forall c | c in trail :: IsSpace(c)
  {
    lead := StripLeftSplits(s);
    trail := StripRightSplits(StripLeft(s));
  }

  /** Leading white space does not matter. */
  lemma StripLead(s: string)
    requires Trimmed(s)
    ensures Strip([' '] + s) == s
  {
    assert ([' '] + s)[1..] == s;
    assert StripLeft([' '] + s) == StripLeft(s) == s;
  }

  lemma StripMembers(s: string, c: char)
    requires c in Strip(s)
    ensures c in s
  {
    var lead, trail := StripSplits(s);
  }

  // ----- nesting and quoting ---------------------------------------------------------

  /** Nesting depth and open quote after some prefix; `Broken` once a `)` was unmatched. */
  datatype Lex = Lex(depth: nat, quote: Option<char>, escaped: bool) | Broken

  const NEUTRAL := Lex(0, None, false)

  function LexStep(l: Lex, c: char): Lex {
    if l.Broken? then Broken
    else if l.quote.Some? then
      if l.escaped then l.(escaped := false)
      else if c == '\\' then l.(escaped := true)
      else if c == l.quote.value then l.(quote := None)
      else l
    else if IsQuote(c) then l.(quote := Some(c))
    else if c == '(' then l.(depth := l.depth + 1)
    else if c == ')' then if l.depth == 0 then Broken else l.(depth := l.depth - 1)
    else l
  }

  function LexRun(l: Lex, s: string): Lex
    decreases s
  {
    if s == [] then l else LexRun(LexStep(l, s[0]), s[1..])
  }

  /** A comma at depth zero outside quotes separates arguments. */
  predicate Separates(l: Lex, c: char) {
    c == ',' && l.Lex? && l.quote.None? && l.depth == 0
  }

  /** No character of `s` separates arguments. */
  predicate Quiet(l: Lex, s: string)
    decreases s
  {
    s == [] || (!Separates(l, s[0]) && Quiet(LexStep(l, s[0]), s[1..]))
  }

  /** One complete argument: trimmed, balanced and without a separating comma. */
  predicate IsArgument(s: string) {
    s != [] && Trimmed(s) && LexRun(NEUTRAL, s) == NEUTRAL && Quiet(NEUTRAL, s)
  }

  lemma {:induction false} LexConcat(l: Lex, a: string, b: string)
    ensures LexRun(l, a + b) == LexRun(LexRun(l, a), b)
    ensures Quiet(l, a + b) <==> Quiet(l, a) && Quiet(LexRun(l, a), b)
    decreases a
  {
    if a == [] {
      assert a + b == b;
    } else {
      assert (a + b)[1..] == a[1..] + b;
      LexConcat(LexStep(l, a[0]), a[1..], b);
    }
  }

  lemma {:induction false} BrokenStays(s: string)
    ensures LexRun(Broken, s) == Broken
  {
    if s != [] {
      BrokenStays(s[1..]);
    }
  }

  /** White space outside quotes changes nothing. */
  lemma {:induction false} LexSpaces(l: Lex, s: string)
    requires l.Lex? && l.quote.None? && forall c | c in s :: IsSpace(c)
    ensures LexRun(l, s) == l && Quiet(l, s)
  {
    if s != [] {
      assert IsSpace(s[0]);
      LexSpaces(l, s[1..]);
    }
  }

  ghost predicate LexConsistent(l: Lex) {
    l.Lex? ==> (l.escaped ==> l.quote.Some?) && (l.quote.Some? ==> IsQuote(l.quote.value))
  }

  lemma {:induction false} LexStaysConsistent(l: Lex, s: string)
    requires LexConsistent(l)
    ensures LexConsistent(LexRun(l, s))
    decreases s
  {
    if s != [] {
      LexStaysConsistent(LexStep(l, s[0]), s[1..]);
    }
  }

  /** White space neither closes a quote nor a parenthesis. */
  lemma {:induction false} SpacesKeepNesting(l: Lex, s: string)
    requires LexConsistent(l) && (forall c | c in s :: IsSpace(c)) && LexRun(l, s) == NEUTRAL
    ensures l == NEUTRAL
    decreases s
  {
    if s != [] {
      assert IsSpace(s[0]);
      SpacesKeepNesting(LexStep(l, s[0]), s[1..]);
    }
  }

  /** Inside `k` more parentheses the scanner runs the same and nothing separates. */
  lemma {:induction false} LexDeeper(l: Lex, s: string, k: nat)
    requires l.Lex? && LexRun(l, s).Lex?
    ensures LexRun(l.(depth := l.depth + k), s) == LexRun(l, s).(depth := LexRun(l, s).depth + k)
    ensures k >= 1 ==> Quiet(l.(depth := l.depth + k), s)
    decreases s
  {
    if s != [] {
      if LexStep(l, s[0]).Broken? {
        BrokenStays(s[1..]);
        assert false;
      }
      LexDeeper(LexStep(l, s[0]), s[1..], k);
    }
  }

  /** Trimming an argument keeps it balanced and free of separators. */
  lemma StripKeepsArgument(s: string)
    requires LexRun(NEUTRAL, s) == NEUTRAL && Quiet(NEUTRAL, s) && Strip(s) != []
    ensures IsArgument(Strip(s))
  {
    hide Strip, LexRun, Quiet;
    var lead, trail := StripSplits(s);
    var core := Strip(s);
    assert s == lead + (core + trail);
    LexSpaces(NEUTRAL, lead);
    LexConcat(NEUTRAL, lead, core + trail);
    LexConcat(NEUTRAL, core, trail);
    LexStaysConsistent(NEUTRAL, core);
    SpacesKeepNesting(LexRun(NEUTRAL, core), trail);
  }

  // ----- splitting -----------------------------------------------------------------------

  datatype Scan = Scan(parts: seq<string>, current: string, lex: Lex) | Failed

  function Step(st: Scan, c: char): Scan {
    if st.Failed? then Failed
    else if Separates(st.lex, c) then
      if Strip(st.current) == [] then Failed else Scan(st.parts + [Strip(st.current)], [], st.lex)
    else if LexStep(st.lex, c).Broken? then Failed
    else Scan(st.parts, st.current + [c], LexStep(st.lex, c))
  }

  function Run(st: Scan, s: string): Scan
    decreases s
  {
    if s == [] then st else Run(Step(st, s[0]), s[1..])
  }

  function Finish(st: Scan): Result<seq<string>> {
    if st.Failed? || st.lex.Broken? || st.lex.quote.Some? || st.lex.depth != 0
      || Strip(st.current) == [] then Err(Schema)
    else Ok(st.parts + [Strip(st.current)])
  }

  /** `split_type_arguments`. */
  function Split(s: string): Result<seq<string>> {
    Finish(Run(Scan([], [], NEUTRAL), s))
  }

  /** The index loop of the source. */
  method SplitTypeArguments(value: string) returns (r: Result<seq<string>>)
    ensures r == Split(value)
  {
    var parts: seq<string> := [];
    var start, depth: nat := 0, 0;
    var quote: Option<char>, escaped := None, false;
    for index := 0 to |value|
      invariant start <= index
      invariant Run(Scan([], [], NEUTRAL), value) ==
                Run(Scan(parts, value[start..index], Lex(depth, quote, escaped)), value[index..])
    {
      var character := value[index];
      ghost var before := Scan(parts, value[start..index], Lex(depth, quote, escaped));
      RunStep(before, value, index);
      assert value[start..index] + [character] == value[start..index + 1];
      if quote.Some? {
        if escaped {
          escaped := false;
        } else if character == '\\' {
          escaped := true;
        } else if character == quote.value {
          quote := None;
        }
      } else if IsQuote(character) {
        quote := Some(character);
      } else if character == '(' {
        depth := depth + 1;
      } else if character == ')' {
        if depth == 0 {
          FailedStays(value[index + 1..]);
          return Err(Schema);
        }
        depth := depth - 1;
      } else if character == ',' && depth == 0 {
        var part := Strip(value[start..index]);
        if part == [] {
          FailedStays(value[index + 1..]);
          return Err(Schema);
        }
        parts := parts + [part];
        start := index + 1;
      }
      assert Step(before, character) == Scan(parts, value[start..index + 1], Lex(depth, quote, escaped));
    }
    assert value[start..|value|] == value[start..];
    if quote.Some? || depth != 0 {
      return Err(Schema);
    }
    var final := Strip(value[start..]);
    if final == [] {
      return Err(Schema);
    }
    r := Ok(parts + [final]);
  }

  lemma RunStep(st: Scan, s: string, i: nat)
    requires i < |s|
    ensures Run(st, s[i..]) == Run(Step(st, s[i]), s[i + 1..])
  {
    assert s[i..][1..] == s[i + 1..];
  }

  lemma {:induction false} FailedStays(s: string)
    ensures Run(Failed, s) == Failed
  {
    if s != [] {
      FailedStays(s[1..]);
    }
  }

  lemma {:induction false} RunConcat(st: Scan, a: string, b: string)
    ensures Run(st, a + b) == Run(Run(st, a), b)
    decreases a
  {
    if a == [] {
      assert a + b == b;
    } else {
      assert (a + b)[1..] == a[1..] + b;
      RunConcat(Step(st, a[0]), a[1..], b);
    }
  }

  /** Without separators the scanner only accumulates. */
  lemma {:induction false} RunQuiet(parts: seq<string>, current: string, l: Lex, s: string)
    requires l.Lex? && Quiet(l, s) && LexRun(l, s).Lex?
    ensures Run(Scan(parts, current, l), s) == Scan(parts, current + s, LexRun(l, s))
    decreases s
  {
    if s == [] {
      assert current + s == current;
    } else {
      if LexStep(l, s[0]).Broken? {
        BrokenStays(s[1..]);
        assert false;
      }
      RunQuiet(parts, current + [s[0]], LexStep(l, s[0]), s[1..]);
      assert current + s == current + [s[0]] + s[1..];
    }
  }

  // ----- splitting and joining ---------------------------------------------------------

  ghost predicate AllArguments(args: seq<string>) {
    forall i | 0 <= i < |args| :: IsArgument(args[i])
  }

  lemma {:induction false} SplitJoinFrom(parts: seq<string>, lead: string, args: seq<string>)
    requires args != [] && AllArguments(args) && (lead == "" || lead == " ")
    ensures Finish(Run(Scan(parts, lead, NEUTRAL), Join(args))) == Ok(parts + args)
    decreases args
  {
    hide Run, Finish, IsArgument;
    assert IsArgument(args[0]);
    if |args| == 1 {
      LastArgument(parts, lead, args[0]);
      assert args == [args[0]];
    } else {
      NextArgument(parts, lead, args[0], Join(args[1..]));
      SplitJoinFrom(parts + [args[0]], " ", args[1..]);
      assert parts + [args[0]] + args[1..] == parts + args;
    }
  }

  lemma LastArgument(parts: seq<string>, lead: string, arg: string)
    requires IsArgument(arg) && (lead == "" || lead == " ")
    ensures Finish(Run(Scan(parts, lead, NEUTRAL), arg)) == Ok(parts + [arg])
  {
    ReadArgument(parts, lead, arg, "");
    assert arg + "" == arg;
  }

  lemma NextArgument(parts: seq<string>, lead: string, arg: string, rest: string)
    requires IsArgument(arg) && (lead == "" || lead == " ")
    ensures Run(Scan(parts, lead, NEUTRAL), arg + ", " + rest) == Run(Scan(parts + [arg], " ", NEUTRAL), rest)
  {
    assert arg + ", " + rest == arg + (", " + rest);
    ReadArgument(parts, lead, arg, ", " + rest);
    AfterComma(parts, lead + arg, rest);
  }

  lemma ReadArgument(parts: seq<string>, lead: string, arg: string, rest: string)
    requires IsArgument(arg) && (lead == "" || lead == " ")
    ensures Run(Scan(parts, lead, NEUTRAL), arg + rest) == Run(Scan(parts, lead + arg, NEUTRAL), rest)
    ensures Strip(lead + arg) == arg
  {
    RunConcat(Scan(parts, lead, NEUTRAL), arg, rest);
    RunQuiet(parts, lead, NEUTRAL, arg);
    StripLead(arg);
    StripTrimmed(arg);
    assert lead == "" ==> lead + arg == arg;
  }

  lemma AfterComma(parts: seq<string>, current: string, rest: string)
    requires Strip(current) != []
    ensures Run(Scan(parts, current, NEUTRAL), ", " + rest) == Run(Scan(parts + [Strip(current)], " ", NEUTRAL), rest)
  {
    var st := Scan(parts, current, NEUTRAL);
    assert (", " + rest)[1..] == " " + rest;
    assert (" " + rest)[1..] == rest;
    assert Step(Step(st, ','), ' ') == Scan(parts + [Strip(current)], " ", NEUTRAL);
  }

  /** Splitting undoes joining, on every non-empty list of arguments. */
  lemma SplitJoin(args: seq<string>)
    requires args != [] && AllArguments(args)
    ensures Split(Join(args)) == Ok(args)
  {
    SplitJoinFrom([], "", args);
    assert [] + args == args;
  }

  /** What the scanner knows after any prefix. */
  ghost predicate ScanInvariant(st: Scan, seen: string) {
    st.Scan? ==>
      && AllArguments(st.parts)
      && st.lex.Lex? && LexConsistent(st.lex)
      && LexRun(NEUTRAL, st.current) == st.lex && Quiet(NEUTRAL, st.current)
      && |st.current| <= |seen| && (forall i | 0 <= i < |st.parts| :: |st.parts[i]| <= |seen|)
      && LexRun(NEUTRAL, seen) == st.lex
      && ('\n' !in seen ==> '\n' !in st.current && forall i | 0 <= i < |st.parts| :: '\n' !in st.parts[i])
  }

  lemma StepKeepsInvariant(st: Scan, seen: string, c: char)
    requires ScanInvariant(st, seen)
    ensures ScanInvariant(Step(st, c), seen + [c])
  {
    if st.Scan? {
      LexConcat(NEUTRAL, seen, [c]);
      LexConcat(NEUTRAL, st.current, [c]);
      if Separates(st.lex, c) {
        if Strip(st.current) != [] {
          StripKeepsArgument(st.current);
          if '\n' !in st.current {
            StripNoNewline(st.current);
          }
        }
      }
    }
  }

  lemma StripNoNewline(s: string)
    requires '\n' !in s
    ensures '\n' !in Strip(s)
  {
    if '\n' in Strip(s) {
      StripMembers(s, '\n');
    }
  }

  lemma {:induction false} RunKeepsInvariant(st: Scan, seen: string, s: string)
    requires ScanInvariant(st, seen)
    ensures ScanInvariant(Run(st, s), seen + s)
    decreases s
  {
    if s == [] {
      assert seen + s == seen;
    } else {
      StepKeepsInvariant(st, seen, s[0]);
      RunKeepsInvariant(Step(st, s[0]), seen + [s[0]], s[1..]);
      assert seen + [s[0]] + s[1..] == seen + s;
    }
  }

  /** Every successful split yields arguments no longer than the text, which itself is balanced. */
  lemma SplitSound(s: string)
    requires Split(s).Ok?
    ensures Split(s).value != [] && AllArguments(Split(s).value)
    ensures forall i | 0 <= i < |Split(s).value| :: |Split(s).value[i]| <= |s|
    ensures LexRun(NEUTRAL, s) == NEUTRAL
    ensures '\n' !in s ==> forall i | 0 <= i < |Split(s).value| :: '\n' !in Split(s).value[i]
  {
    var start := Scan([], [], NEUTRAL);
    assert ScanInvariant(start, []);
    RunKeepsInvariant(start, [], s);
    assert [] + s == s;
    var st := Run(start, s);
    StripKeepsArgument(st.current);
    if '\n' !in s {
      StripNoNewline(st.current);
    }
  }
}
