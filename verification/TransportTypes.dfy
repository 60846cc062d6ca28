/** Validation of ClickHouse type expressions and their rewriting to transport types.

    A type is a name or a name with arguments; tuples may name their fields, with backticks if
    necessary. Rewriting replaces some leaf types by others of the grammar and keeps the rest. */
module TransportTypes {
  import opened Wrappers
  import opened Sequences
  import opened Characters
  import opened TypeArguments

  /** `[A-Za-z][A-Za-z0-9_]*` */
  predicate IsTypeName(s: string) {
    s != [] && IsLetter(s[0]) && forall i | 0 <= i < |s| :: IsWord(s[i])
  }

  /** `[0-9]+` */
  predicate IsInteger(s: string) {
    s != [] && forall i | 0 <= i < |s| :: IsDigit(s[i])
  }

  function Number(s: string): nat
    requires forall i | 0 <= i < |s| :: IsDigit(s[i])
  {
    if s == [] then 0
    else
      assert IsDigit(s[|s| - 1]);
      10 * Number(s[..|s| - 1]) + (s[|s| - 1] as int - '0' as int)
  }

  /** `'[A-Za-z0-9_+./:-]+'` */
  predicate IsTimeZone(s: string) {
    && |s| >= 3 && s[0] == '\'' && s[|s| - 1] == '\''
    && forall i | 1 <= i < |s| - 1 :: IsWord(s[i]) || s[i] in "+./:-"
  }

  // ----- parsing -------------------------------------------------------------------

  datatype Parsed = Parsed(name: string, arguments: seq<string>)

  /** The index of the first `(`, or the length of the text. */
  function OpenIndex(s: string): (i: nat)
    ensures i <= |s| && (i < |s| ==> s[i] == '(') && forall j | 0 <= j < i :: s[j] != '('
  {
    if s == [] || s[0] == '(' then 0 else 1 + OpenIndex(s[1..])
  }

  /** `parse_clickhouse_type`. */
  function Parse(value: string): Result<Parsed> {
    var text := Strip(value);
    var open := OpenIndex(text);
    if text == [] then Err(Schema)
    else if open == |text| then
      if IsTypeName(text) then Ok(Parsed(text, [])) else Err(Schema)
    else if text[|text| - 1] != ')' then Err(Schema)
    else
      var name := Strip(text[..open]);
      if !IsTypeName(name) then Err(Schema)
      else
        var arguments :- Split(text[open + 1..|text| - 1]);
        Ok(Parsed(name, arguments))
  }

  /** Arguments are complete, strictly shorter than the type, and on one line if the type is. */
  lemma ParseSound(value: string)
    requires Parse(value).Ok?
    ensures IsTypeName(Parse(value).value.name)
    ensures AllArguments(Parse(value).value.arguments)
    ensures forall a | a in Parse(value).value.arguments :: |a| < |value|
    ensures '\n' !in value ==> forall a | a in Parse(value).value.arguments :: '\n' !in a
  {
    var text := Strip(value);
    var open := OpenIndex(text);
    if open < |text| {
      var inner := text[open + 1..|text| - 1];
      SplitSound(inner);
      if '\n' !in value {
        StripNoNewline(value);
        assert '\n' !in inner;
      }
    }
  }

  // ----- named tuple fields -----------------------------------------------------------

  /** The length of `(?:[^`\\]|\\.|``)*` followed by the closing backtick, which is never followed
      by another one. */
  function QuotedLength(s: string): (n: Option<nat>)
    ensures n.Some? ==> 1 <= n.value <= |s| && s[n.value - 1] == '`'
    decreases |s|
  {
    if s == [] then None
    else if s[0] == '`' then
      if |s| >= 2 && s[1] == '`' then Shift(2, QuotedLength(s[2..])) else Some(1)
    else if s[0] == '\\' then
      if |s| >= 2 && s[1] != '\n' then Shift(2, QuotedLength(s[2..])) else None
    else Shift(1, QuotedLength(s[1..]))
  }

  function Shift(k: nat, n: Option<nat>): Option<nat> {
    if n.Some? then Some(k + n.value) else None
  }

  /** The length of the field name at the start of `s`: an identifier or a backtick-quoted name
      with at least one character. */
  function NameLength(s: string): (n: Option<nat>)
    ensures n.Some? ==> 1 <= n.value <= |s|
  {
    if s == [] then None
    else if s[0] == '`' then
      var n := QuotedLength(s[1..]);
      if n.Some? && n.value >= 2 then Some(1 + n.value) else None
    else if IdentifierLength(s) > 0 then Some(IdentifierLength(s))
    else None
  }

  datatype Field = Field(name: string, typ: string)

  /** `_tuple_field`: a name, white space, and a type on one line. */
  function TupleField(argument: string): (f: Option<Field>)
    requires Trimmed(argument)
    ensures f.Some? ==> |f.value.typ| < |argument|
  {
    match NameLength(argument)
    case None => None
    case Some(n) =>
      var rest := StripLeft(argument[n..]);
      if n == |argument| || !IsSpace(argument[n]) || rest == [] || '\n' in rest then None
      else Some(Field(argument[..n], rest))
  }

  // ----- validation ---------------------------------------------------------------------

  datatype Kind =
    | Simple
    | Refused
    | Wrapper
    | MapType
    | TupleType
    | Sized
    | DecimalType
    | DateTimeType
    | DateTime64Type
    | EnumType

  const SIMPLE: set<string> :=
    {"Bool", "Date", "Date32", "Float32", "Float64", "IPv4", "IPv6", "Int8", "Int16", "Int32", "Int64",
     "String", "UInt8", "UInt16", "UInt32", "UInt64", "UUID"}

  /** The supported constructors; 128- and 256-bit integers, Nothing and Decimal256 are refused like
      unknown names. */
  function KindOf(name: string): Kind {
    if name in SIMPLE then Simple
    else if name in {"Nullable", "LowCardinality", "Array"} then Wrapper
    else if name == "Map" then MapType
    else if name == "Tuple" then TupleType
    else if name in {"FixedString", "Decimal32", "Decimal64", "Decimal128"} then Sized
    else if name == "Decimal" then DecimalType
    else if name == "DateTime" then DateTimeType
    else if name == "DateTime64" then DateTime64Type
    else if name in {"Enum8", "Enum16"} then EnumType
    else Refused
  }

  predicate ValidSized(name: string, arguments: seq<string>) {
    && |arguments| == 1 && IsInteger(arguments[0])
    && var n := Number(arguments[0]);
       if name == "FixedString" then n >= 1
       else n <= (if name == "Decimal32" then 9 else if name == "Decimal64" then 18 else 38)
  }

  predicate ValidDecimal(arguments: seq<string>) {
    && |arguments| == 2 && IsInteger(arguments[0]) && IsInteger(arguments[1])
    && 1 <= Number(arguments[0]) <= 38 && Number(arguments[1]) <= Number(arguments[0])
  }

  predicate ValidDateTime(arguments: seq<string>) {
    arguments == [] || (|arguments| == 1 && IsTimeZone(arguments[0]))
  }

  predicate ValidDateTime64(arguments: seq<string>) {
    && 1 <= |arguments| <= 2 && IsInteger(arguments[0]) && Number(arguments[0]) <= 9
    && (|arguments| == 2 ==> IsTimeZone(arguments[1]))
  }

  /** Constructors without type arguments. */
  predicate ValidLeaf(p: Parsed) {
    match KindOf(p.name)
    case Simple => p.arguments == []
    case Sized => ValidSized(p.name, p.arguments)
    case DecimalType => ValidDecimal(p.arguments)
    case DateTimeType => ValidDateTime(p.arguments)
    case DateTime64Type => ValidDateTime64(p.arguments)
    case EnumType => p.arguments != []
    case _ => false
  }

  /** `_validate_type_expression` returns normally. */
  predicate Valid(value: string)
    decreases |value|, 0
  {
    var r := Parse(value);
    r.Ok? &&
    (ParseSound(value);
     var arguments := r.value.arguments;
     match KindOf(r.value.name)
     case Wrapper => |arguments| == 1 && Valid(arguments[0])
     case MapType => |arguments| == 2 && Valid(arguments[0]) && Valid(arguments[1])
     case TupleType => arguments != [] && forall i | 0 <= i < |arguments| :: ValidField(arguments[i])
     case _ => ValidLeaf(r.value))
  }

  /** A tuple argument: a type, or failing that a named field with a valid type. */
  predicate ValidField(argument: string)
    requires IsArgument(argument)
    decreases |argument|, 1
  {
    Valid(argument) || (TupleField(argument).Some? && Valid(TupleField(argument).value.typ))
  }

  // ----- rewriting ------------------------------------------------------------------------

  function Build(name: string, arguments: seq<string>): string {
    name + "(" + Join(arguments) + ")"
  }

  /** `_transport_type_expression`. */
  function Transport(value: string): Result<string>
    decreases |value|, 0
  {
    if !Valid(value) then Err(Schema)
    else
      ParseSound(value);
      var p := Parse(value).value;
      match KindOf(p.name)
      case Simple =>
        if p.name == "Date" then Ok("Date32")
        else if p.name in {"IPv4", "IPv6", "UUID"} then Ok("String")
        else Ok(p.name)
      case Wrapper =>
        var t :- Transport(p.arguments[0]);
        Ok(Build(p.name, [t]))
      case MapType =>
        var k :- Transport(p.arguments[0]);
        var v :- Transport(p.arguments[1]);
        Ok(Build("Map", [k, v]))
      case TupleType =>
        var ts :- TransportFields(p.arguments, |value|);
        Ok(Build("Tuple", ts))
      case DateTimeType =>
        if p.arguments == [] then Ok("DateTime64(0)") else Ok("DateTime64(0, " + p.arguments[0] + ")")
      case EnumType => Ok("String")
      case _ => Ok(Strip(value))
  }

  /** One tuple argument: rewritten as a type, or else as a named field. */
  function TransportField(argument: string): Result<string>
    requires IsArgument(argument)
    decreases |argument|, 1
  {
    match Transport(argument)
    case Ok(t) => Ok(t)
    case Err(_) =>
      match TupleField(argument)
      case None => Err(Schema)
      case Some(Field(name, typ)) =>
        var t :- Transport(typ);
        Ok(name + " " + t)
  }

  function TransportFields(arguments: seq<string>, ghost bound: nat): (r: Result<seq<string>>)
    requires AllArguments(arguments)
    requires forall a | a in arguments :: |a| < bound
    ensures r.Ok? ==> |r.value| == |arguments|
    decreases bound, 0, |arguments|
  {
    if arguments == [] then Ok([])
    else
      var first :- TransportField(arguments[0]);
      var rest :- TransportFields(arguments[1..], bound);
      Ok([first] + rest)
  }

  // ----- rewriting succeeds exactly on valid types -----------------------------------------

  lemma {:induction false} TransportSucceeds(value: string)
    requires Valid(value)
    ensures Transport(value).Ok?
    decreases |value|, 0
  {
    hide Parse, Build, ValidLeaf;
    ParseSound(value);
    var p := Parse(value).value;
    match KindOf(p.name)
    case Wrapper => TransportSucceeds(p.arguments[0]);
    case MapType => TransportSucceeds(p.arguments[0]); TransportSucceeds(p.arguments[1]);
    case TupleType => FieldsSucceed(p.arguments, |value|);
    case _ =>
  }

  lemma {:induction false} FieldsSucceed(arguments: seq<string>, bound: nat)
    requires AllArguments(arguments)
    requires forall a | a in arguments :: |a| < bound
    requires forall i | 0 <= i < |arguments| :: ValidField(arguments[i])
    ensures TransportFields(arguments, bound).Ok?
    decreases bound, 0, |arguments|
  {
    if arguments != [] {
      var first := arguments[0];
      assert ValidField(first);
      if Valid(first) {
        TransportSucceeds(first);
      } else {
        TransportSucceeds(TupleField(first).value.typ);
      }
      FieldsSucceed(arguments[1..], bound);
    }
  }

  /** Rewriting succeeds on exactly the texts the validator accepts. */
  lemma TransportIffValid(value: string)
    ensures Transport(value).Ok? <==> Valid(value)
  {
    if Valid(value) {
      TransportSucceeds(value);
    }
  }

  // ----- plain text ------------------------------------------------------------------------

  /** A character the scanner passes over. */
  predicate Plain(c: char) {
    IsWord(c) || IsSpace(c)
  }

  lemma {:induction false} LexPlain(l: Lex, s: string)
    requires l.Lex? && l.quote.None? && forall i | 0 <= i < |s| :: Plain(s[i])
    ensures LexRun(l, s) == l && Quiet(l, s)
  {
    if s != [] {
      assert Plain(s[0]);
      LexPlain(l, s[1..]);
    }
  }

  /** A name between white space is plain. */
  lemma StrippedNamePlain(s: string)
    requires IsTypeName(Strip(s))
    ensures forall i | 0 <= i < |s| :: Plain(s[i])
  {
    var lead, trail := StripSplits(s);
    AllPlain(lead, Strip(s), trail);
  }

  lemma AllPlain(lead: string, core: string, trail: string)
    requires (forall c | c in lead :: IsSpace(c)) && (forall c | c in trail :: IsSpace(c))
    requires forall i | 0 <= i < |core| :: IsWord(core[i])
    ensures forall i | 0 <= i < |lead + core + trail| :: Plain((lead + core + trail)[i])
  {
    forall c | c in lead + core + trail ensures Plain(c) {
      assert c in lead || c in core || c in trail;
    }
  }

  /** `name(inner)` is one argument when `inner` is balanced. */
  lemma ParenthesisedArgument(head: string, inner: string)
    requires forall i | 0 <= i < |head| :: Plain(head[i])
    requires LexRun(NEUTRAL, inner) == NEUTRAL
    ensures LexRun(NEUTRAL, head + "(" + inner + ")") == NEUTRAL && Quiet(NEUTRAL, head + "(" + inner + ")")
  {
    hide LexRun, Quiet;
    var deeper, text := Lex(1, None, false), "(" + inner + ")";
    assert text[1..] == inner + ")" && text[0] == '(';
    LexFirst(NEUTRAL, text);
    LexDeeper(NEUTRAL, inner, 1);
    LexConcat(deeper, inner, ")");
    ClosingLex();
    LexPlain(NEUTRAL, head);
    LexConcat(NEUTRAL, head, text);
    assert head + "(" + inner + ")" == head + text;
  }

  lemma LexFirst(l: Lex, s: string)
    requires s != []
    ensures LexRun(l, s) == LexRun(LexStep(l, s[0]), s[1..])
    ensures Quiet(l, s) <==> !Separates(l, s[0]) && Quiet(LexStep(l, s[0]), s[1..])
  {
  }

  lemma ClosingLex()
    ensures LexRun(Lex(1, None, false), ")") == NEUTRAL && Quiet(Lex(1, None, false), ")")
  {
  }

  /** Whatever parses as a type is one complete argument. */
  lemma ParsedIsArgument(value: string)
    requires Parse(value).Ok?
    ensures IsArgument(Strip(value))
  {
    var text := Strip(value);
    var open := OpenIndex(text);
    if open == |text| {
      LexPlain(NEUTRAL, text);
    } else {
      TextParts(text, open);
      ConstructorLex(text[..open], text[open + 1..|text| - 1]);
    }
  }

  lemma TextParts(text: string, open: nat)
    requires open < |text| - 1 && text[open] == '(' && text[|text| - 1] == ')'
    ensures text == text[..open] + "(" + text[open + 1..|text| - 1] + ")"
  {
  }

  lemma ConstructorLex(head: string, inner: string)
    requires IsTypeName(Strip(head)) && Split(inner).Ok?
    ensures LexRun(NEUTRAL, head + "(" + inner + ")") == NEUTRAL && Quiet(NEUTRAL, head + "(" + inner + ")")
  {
    SplitSound(inner);
    StrippedNamePlain(head);
    ParenthesisedArgument(head, inner);
  }

  lemma ParseStripped(value: string)
    ensures Parse(Strip(value)) == Parse(value)
  {
    hide Split, IsTypeName, OpenIndex;
    StripTrimmed(Strip(value));
  }

  lemma TypeNameFacts(name: string)
    requires IsTypeName(name)
    ensures Trimmed(name) && '(' !in name && '\n' !in name
  {
    assert IsWord(name[0]) && IsWord(name[|name| - 1]);
  }

  lemma {:induction false} OpenIndexAt(s: string, n: nat)
    requires n < |s| && s[n] == '(' && '(' !in s[..n]
    ensures OpenIndex(s) == n
  {
    if n > 0 {
      assert s[0] == s[..n][0];
      assert forall c | c in s[1..][..n - 1] :: c in s[..n];
      OpenIndexAt(s[1..], n - 1);
    }
  }

  /** A built type parses back to its constructor and arguments. */
  lemma BuildParses(name: string, arguments: seq<string>)
    requires IsTypeName(name) && arguments != [] && AllArguments(arguments)
    ensures Parse(Build(name, arguments)) == Ok(Parsed(name, arguments))
    ensures Strip(Build(name, arguments)) == Build(name, arguments)
  {
    var text := Build(name, arguments);
    TypeNameFacts(name);
    assert text[0] == name[0] && text[|text| - 1] == ')';
    StripTrimmed(text);
    assert text[..|name|] == name;
    OpenIndexAt(text, |name|);
    StripTrimmed(name);
    SplitJoin(arguments);
    assert text[|name| + 1..|text| - 1] == Join(arguments);
  }

  lemma BuiltIsArgument(name: string, arguments: seq<string>)
    requires IsTypeName(name) && arguments != [] && AllArguments(arguments)
    ensures IsArgument(Build(name, arguments))
  {
    BuildParses(name, arguments);
    ParsedIsArgument(Build(name, arguments));
  }

  // ----- named fields ------------------------------------------------------------------------

  lemma {:induction false} QuotedLengthLocal(a: string, b: string, n: nat)
    requires QuotedLength(a) == Some(n) && n <= |b| && a[..n] == b[..n]
    requires n < |b| ==> b[n] != '`'
    ensures QuotedLength(b) == Some(n)
    decreases n
  {
    assert a[0] == a[..n][0] == b[..n][0] == b[0];
    if n >= 2 {
      assert a[1] == a[..n][1] == b[..n][1] == b[1];
    }
    if a[0] == '`' {
      if n > 1 {
        assert a[2..][..n - 2] == a[..n][2..] == b[2..][..n - 2];
        QuotedLengthLocal(a[2..], b[2..], n - 2);
      }
    } else if a[0] == '\\' {
      assert a[2..][..n - 2] == a[..n][2..] == b[2..][..n - 2];
      QuotedLengthLocal(a[2..], b[2..], n - 2);
    } else {
      assert a[1..][..n - 1] == a[..n][1..] == b[1..][..n - 1];
      QuotedLengthLocal(a[1..], b[1..], n - 1);
    }
  }

  lemma {:induction false} WordLengthIs(s: string, n: nat)
    requires n < |s| && (forall i | 0 <= i < n :: IsWord(s[i])) && !IsWord(s[n])
    ensures WordLength(s) == n
  {
  }

  /** A field name is recognised whatever follows the white space after it. */
  lemma NameLengthLocal(a: string, b: string, n: nat)
    requires NameLength(a) == Some(n) && n < |a| && IsSpace(a[n])
    requires n < |b| && IsSpace(b[n]) && a[..n] == b[..n]
    ensures NameLength(b) == Some(n)
  {
    assert a[0] == a[..n][0] == b[..n][0] == b[0];
    if a[0] == '`' {
      assert a[1..][..n - 1] == a[..n][1..] == b[1..][..n - 1];
      QuotedLengthLocal(a[1..], b[1..], n - 1);
    } else {
      forall i | 0 <= i < n ensures IsWord(b[i]) {
        assert b[i] == b[..n][i] == a[i];
      }
      WordLengthIs(b, n);
    }
  }

  /** The rest of a quoted name closes its quote. */
  lemma {:induction false} QuotedNameLex(s: string, n: nat)
    requires QuotedLength(s) == Some(n)
    ensures LexRun(Lex(0, Some('`'), false), s[..n]) == NEUTRAL
    ensures Quiet(Lex(0, Some('`'), false), s[..n])
    decreases n
  {
    var q := Lex(0, Some('`'), false);
    var k := if s[0] == '`' && n == 1 then 1 else if s[0] == '`' || s[0] == '\\' then 2 else 1;
    var head := s[..k];
    if k == n {
      assert s[..n] == ['`'];
    } else {
      QuotedNameLex(s[k..], n - k);
      assert s[..n] == head + s[k..][..n - k];
      LexConcat(q, head, s[k..][..n - k]);
      if k == 2 {
        assert head == [s[0], s[1]];
        LexTwo(q, s[0], s[1]);
      }
      assert LexRun(q, head) == q && Quiet(q, head);
    }
  }

  lemma LexTwo(l: Lex, a: char, b: char)
    ensures LexRun(l, [a, b]) == LexStep(LexStep(l, a), b)
    ensures Quiet(l, [a, b]) <==> !Separates(l, a) && !Separates(LexStep(l, a), b)
  {
    assert [a, b][1..] == [b];
    assert [b][1..] == [];
    assert LexRun(LexStep(l, a), [b]) == LexStep(LexStep(l, a), b);
    assert Quiet(LexStep(l, a), [b]) <==> !Separates(LexStep(l, a), b);
  }

  /** A field name is balanced and quiet. */
  lemma NameLex(s: string, n: nat)
    requires NameLength(s) == Some(n)
    ensures LexRun(NEUTRAL, s[..n]) == NEUTRAL && Quiet(NEUTRAL, s[..n])
  {
    if s[0] == '`' {
      QuotedNameLex(s[1..], n - 1);
      assert s[..n] == ['`'] + s[1..][..n - 1];
      LexConcat(NEUTRAL, ['`'], s[1..][..n - 1]);
      assert LexRun(NEUTRAL, ['`']) == Lex(0, Some('`'), false) && Quiet(NEUTRAL, ['`']);
    } else {
      LexPlain(NEUTRAL, s[..n]);
    }
  }

  /** A rewritten named field is recognised again as the same field. */
  lemma FieldRecognised(argument: string, t: string)
    requires Trimmed(argument) && TupleField(argument).Some?
    requires IsArgument(t) && '\n' !in t
    ensures var f := TupleField(argument).value;
            && IsArgument(f.name + " " + t)
            && TupleField(f.name + " " + t) == Some(Field(f.name, t))
  {
    hide NameLength;
    var n := NameLength(argument).value;
    var name := argument[..n];
    var b := name + " " + t;
    assert b[..n] == name && b[n] == ' ' && b[0] == name[0] == argument[0] && b[|b| - 1] == t[|t| - 1];
    NameLengthLocal(argument, b, n);
    assert b[n..] == [' '] + t;
    assert ([' '] + t)[1..] == t;
    assert StripLeft([' '] + t) == StripLeft(t) == t;
    NameLex(argument, n);
    LexConcat(NEUTRAL, name, " " + t);
    LexConcat(NEUTRAL, " ", t);
    assert name + " " + t == name + (" " + t);
    LexSpaces(NEUTRAL, " ");
  }

  /** A named field with a parsable type does not itself parse as a type, so trying the plain
      reading first never hides a field. */
  lemma FieldIsNoType(argument: string)
    requires Trimmed(argument) && TupleField(argument).Some?
    requires Parse(TupleField(argument).value.typ).Ok?
    ensures Parse(argument).Err?
  {
    var typ := TupleField(argument).value.typ;
    StripTrimmed(argument);
    ParsedStart(typ);
    if argument[0] == '`' {
      HeadKeepsFirst(argument, OpenIndex(argument));
    } else {
      var n, start := FieldLayout(argument);
      NameHasNoParenthesis(argument, n, start);
      HeadKeepsSpace(argument, n, start, OpenIndex(argument));
      NoTypeNameWithSpace(argument, OpenIndex(argument), n);
    }
  }

  lemma FieldLayout(argument: string) returns (n: nat, start: nat)
    requires Trimmed(argument) && TupleField(argument).Some?
    ensures NameLength(argument) == Some(n) && n < start < |argument|
    ensures forall i | n <= i < start :: IsSpace(argument[i])
    ensures argument[start] == TupleField(argument).value.typ[0]
  {
    n := NameLength(argument).value;
    var tail := argument[n..];
    StripLeftSuffix(tail);
    start := |argument| - |StripLeft(tail)|;
    forall i | n <= i < start ensures IsSpace(argument[i]) {
      assert argument[i] == tail[i - n];
    }
  }

  lemma NoTypeNameWithSpace(argument: string, open: nat, n: nat)
    requires open <= |argument| && n < |argument| && IsSpace(argument[n])
    requires n < |Strip(argument[..open])| && IsSpace(Strip(argument[..open])[n])
    ensures !IsTypeName(argument) && !IsTypeName(Strip(argument[..open]))
  {
    assert !IsWord(argument[n]);
    assert !IsWord(Strip(argument[..open])[n]);
  }

  lemma {:induction false} StripLeftSuffix(s: string)
    ensures StripLeft(s) == s[|s| - |StripLeft(s)|..]
    ensures forall i | 0 <= i < |s| - |StripLeft(s)| :: IsSpace(s[i])
  {
    if s != [] && IsSpace(s[0]) {
      StripLeftSuffix(s[1..]);
    }
  }

  /** A parsable trimmed type starts with a letter. */
  lemma ParsedStart(typ: string)
    requires Parse(typ).Ok? && typ != [] && !IsSpace(typ[0])
    ensures IsLetter(typ[0])
  {
    var text := Strip(typ);
    assert StripLeft(typ) == typ;
    assert text[0] == typ[0];
    var open := OpenIndex(text);
    if 0 < open < |text| {
      FirstOfStrip(text[..open]);
    }
  }

  lemma FirstOfStrip(s: string)
    requires s != [] && !IsSpace(s[0])
    ensures Strip(s) != [] && Strip(s)[0] == s[0]
    ensures forall i | 0 <= i < |s| && !IsSpace(s[i]) :: i < |Strip(s)|
    ensures Strip(s) == s[..|Strip(s)|]
  {
    assert StripLeft(s) == s;
    KeepsNonSpace(s);
  }

  lemma {:induction false} KeepsNonSpace(s: string)
    ensures forall i | 0 <= i < |s| && !IsSpace(s[i]) :: i < |StripRight(s)|
  {
    if s != [] && IsSpace(s[|s| - 1]) {
      KeepsNonSpace(s[..|s| - 1]);
    }
  }

  lemma HeadKeepsFirst(argument: string, open: nat)
    requires argument != [] && argument[0] == '`' && open == OpenIndex(argument)
    ensures open < |argument| ==> !IsTypeName(Strip(argument[..open]))
    ensures !IsTypeName(argument)
  {
    if open < |argument| {
      FirstOfStrip(argument[..open]);
    }
  }

  /** Neither the identifier nor the white space after it contains a parenthesis. */
  lemma NameHasNoParenthesis(argument: string, n: nat, start: nat)
    requires NameLength(argument) == Some(n) && argument[0] != '`' && n < start < |argument|
    requires (forall i | n <= i < start :: IsSpace(argument[i])) && IsLetter(argument[start])
    ensures OpenIndex(argument) > start
  {
    assert n == WordLength(argument);
    forall i | 0 <= i <= start ensures argument[i] != '(' {
      if i < n {
        assert IsWord(argument[i]);
      } else if i < start {
        assert IsSpace(argument[i]);
      }
    }
  }

  lemma HeadKeepsSpace(argument: string, n: nat, start: nat, open: nat)
    requires argument != [] && !IsSpace(argument[0]) && n < start < open <= |argument|
    requires IsSpace(argument[n]) && !IsSpace(argument[start])
    ensures n < |Strip(argument[..open])| && IsSpace(Strip(argument[..open])[n])
  {
    var head := argument[..open];
    FirstOfStrip(head);
    assert head[start] == argument[start];
    assert start < |Strip(head)|;
  }

  // ----- the rewritten type ------------------------------------------------------------------

  /** What rewriting `value` to `t` promises. */
  ghost predicate Canonical(value: string, t: string) {
    && IsArgument(t)
    && Valid(t)
    && Transport(t) == Ok(t)
    && ('\n' !in value ==> '\n' !in t)
  }

  lemma SimpleCanonical(value: string, name: string)
    requires name in SIMPLE && name != "Date" && name != "IPv4" && name != "IPv6" && name != "UUID"
    ensures Canonical(value, name)
  {
    SimpleNames(name);
    TypeNameFacts(name);
    StripTrimmed(name);
    NoParenthesis(name);
    ParsedIsArgument(name);
  }

  lemma NoParenthesis(s: string)
    requires '(' !in s
    ensures OpenIndex(s) == |s|
  {
  }

  lemma SimpleNames(name: string)
    requires name in SIMPLE
    ensures IsTypeName(name)
  {
  }

  /** Leaf types are kept up to surrounding white space. */
  lemma LeafCanonical(value: string)
    requires Valid(value) && Transport(value) == Ok(Strip(value))
    requires KindOf(Parse(value).value.name) in {Sized, DecimalType, DateTime64Type}
    ensures Canonical(value, Strip(value))
  {
    ParseStripped(value);
    ParsedIsArgument(value);
    StripTrimmed(Strip(value));
    if '\n' !in value {
      StripNoNewline(value);
    }
  }

  lemma {:induction false} JoinNoNewline(args: seq<string>)
    requires forall i | 0 <= i < |args| :: '\n' !in args[i]
    ensures '\n' !in Join(args)
  {
    if |args| > 1 {
      JoinNoNewline(args[1..]);
    }
  }

  lemma BuildNoNewline(name: string, args: seq<string>)
    requires IsTypeName(name) && forall i | 0 <= i < |args| :: '\n' !in args[i]
    ensures '\n' !in Build(name, args)
  {
    TypeNameFacts(name);
    JoinNoNewline(args);
  }

  lemma ZeroIsArgument()
    ensures IsArgument("0") && IsInteger("0") && Number("0") == 0
  {
    LexPlain(NEUTRAL, "0");
    assert "0"[..0] == [];
  }

  /** The type names the rewriting emits. */
  lemma EmittedNames()
    ensures IsTypeName("DateTime64") && KindOf("DateTime64") == DateTime64Type
    ensures IsTypeName("Map") && KindOf("Map") == MapType
    ensures IsTypeName("Tuple") && KindOf("Tuple") == TupleType
  {
  }

  lemma DateTimeCanonical(value: string, zone: seq<string>)
    requires |zone| <= 1 && AllArguments(zone) && forall i | 0 <= i < |zone| :: IsTimeZone(zone[i])
    requires '\n' !in value ==> forall i | 0 <= i < |zone| :: '\n' !in zone[i]
    ensures Canonical(value, Build("DateTime64", ["0"] + zone))
  {
    ZeroIsArgument();
    EmittedNames();
    var args := ["0"] + zone;
    BuildParses("DateTime64", args);
    BuiltIsArgument("DateTime64", args);
    if '\n' !in value {
      BuildNoNewline("DateTime64", args);
    }
  }

  lemma WrapperCanonical(value: string, name: string, argument: string, t: string)
    requires IsTypeName(name) && KindOf(name) == Wrapper && Canonical(argument, t)
    requires '\n' !in value ==> '\n' !in argument
    ensures Canonical(value, Build(name, [t]))
  {
    BuildParses(name, [t]);
    BuiltIsArgument(name, [t]);
    if '\n' !in value {
      BuildNoNewline(name, [t]);
    }
  }

  lemma MapCanonical(value: string, key: string, val: string, k: string, v: string)
    requires Canonical(key, k) && Canonical(val, v)
    requires '\n' !in value ==> '\n' !in key && '\n' !in val
    ensures Canonical(value, Build("Map", [k, v]))
  {
    hide Parse, Build;
    EmittedNames();
    BuildParses("Map", [k, v]);
    BuiltIsArgument("Map", [k, v]);
    if '\n' !in value {
      BuildNoNewline("Map", [k, v]);
    }
  }

  /** What rewriting a tuple argument to `t` promises. */
  ghost predicate CanonicalField(argument: string, t: string) {
    && IsArgument(t)
    && ValidField(t)
    && TransportField(t) == Ok(t)
    && ('\n' !in argument ==> '\n' !in t)
  }

  lemma PlainFieldCanonical(argument: string, t: string)
    requires Canonical(argument, t)
    ensures CanonicalField(argument, t)
  {
  }

  lemma NamedFieldCanonical(argument: string, t: string)
    requires IsArgument(argument) && TupleField(argument).Some? && Canonical(TupleField(argument).value.typ, t)
    ensures CanonicalField(argument, TupleField(argument).value.name + " " + t)
  {
    FieldRecognised(argument, t);
    var b := TupleField(argument).value.name + " " + t;
    FieldIsNoType(b);
    NamedFieldFixed(b, TupleField(argument).value.name, t);
    if '\n' !in argument {
      assert '\n' !in TupleField(argument).value.name;
    }
  }

  lemma NamedFieldFixed(b: string, name: string, t: string)
    requires IsArgument(b) && TupleField(b) == Some(Field(name, t)) && b == name + " " + t && Parse(b).Err?
    requires Valid(t) && Transport(t) == Ok(t)
    ensures ValidField(b) && TransportField(b) == Ok(b)
  {
  }

  ghost predicate AllCanonicalFields(arguments: seq<string>, ts: seq<string>) {
    |ts| == |arguments| && forall i | 0 <= i < |ts| :: CanonicalField(arguments[i], ts[i])
  }

  ghost predicate AllFixed(ts: seq<string>)
    requires AllArguments(ts)
  {
    forall i | 0 <= i < |ts| :: TransportField(ts[i]) == Ok(ts[i])
  }

  lemma {:induction false} FieldsFixed(ts: seq<string>, bound: nat)
    requires AllArguments(ts) && (forall a | a in ts :: |a| < bound) && AllFixed(ts)
    ensures TransportFields(ts, bound) == Ok(ts)
  {
    if ts != [] {
      AllFixedTail(ts);
      FieldsFixed(ts[1..], bound);
      FieldsStep(ts, bound, ts[0], ts[1..]);
      assert [ts[0]] + ts[1..] == ts;
    }
  }

  lemma AllFixedTail(ts: seq<string>)
    requires ts != [] && AllArguments(ts) && AllFixed(ts)
    ensures AllArguments(ts[1..]) && AllFixed(ts[1..]) && TransportField(ts[0]) == Ok(ts[0])
  {
    forall i | 0 <= i < |ts| - 1 ensures TransportField(ts[1..][i]) == Ok(ts[1..][i]) {
      assert ts[1..][i] == ts[i + 1];
    }
  }

  lemma FieldsStep(arguments: seq<string>, bound: nat, first: string, rest: seq<string>)
    requires arguments != [] && AllArguments(arguments) && (forall a | a in arguments :: |a| < bound)
    requires TransportField(arguments[0]) == Ok(first) && TransportFields(arguments[1..], bound) == Ok(rest)
    ensures TransportFields(arguments, bound) == Ok([first] + rest)
  {
  }

  lemma TupleCanonical(value: string, arguments: seq<string>, ts: seq<string>)
    requires ts != [] && AllCanonicalFields(arguments, ts)
    requires '\n' !in value ==> forall a | a in arguments :: '\n' !in a
    ensures Canonical(value, Build("Tuple", ts))
  {
    hide Parse, Build, TransportFields, ValidField, TransportField, IsArgument;
    EmittedNames();
    var t := Build("Tuple", ts);
    forall i | 0 <= i < |ts| ensures IsArgument(ts[i]) && ValidField(ts[i]) && TransportField(ts[i]) == Ok(ts[i]) {
      assert CanonicalField(arguments[i], ts[i]);
    }
    BuildParses("Tuple", ts);
    BuiltIsArgument("Tuple", ts);
    ParseSound(t);
    FieldsFixed(ts, |t|);
    if '\n' !in value {
      forall i | 0 <= i < |ts| ensures '\n' !in ts[i] {
        assert CanonicalField(arguments[i], ts[i]);
      }
      BuildNoNewline("Tuple", ts);
    }
  }

  /** The rewritten type is accepted again and rewriting it once more changes nothing. */
  lemma {:induction false} TransportCanonical(value: string, t: string)
    requires Transport(value) == Ok(t)
    ensures Canonical(value, t)
    decreases |value|, 0
  {
    ParseSound(value);
    var p := Parse(value).value;
    var args := p.arguments;
    if KindOf(p.name) == Wrapper {
      TransportCanonical(args[0], Transport(args[0]).value);
      WrapperCanonical(value, p.name, args[0], Transport(args[0]).value);
    } else if KindOf(p.name) == MapType {
      TransportCanonical(args[0], Transport(args[0]).value);
      TransportCanonical(args[1], Transport(args[1]).value);
      MapCanonical(value, args[0], args[1], Transport(args[0]).value, Transport(args[1]).value);
    } else if KindOf(p.name) == TupleType {
      TupleArguments(value, p);
      TupleForm(value, p, t);
      FieldsCanonical(args, |value|, TransportFields(args, |value|).value);
      TupleCanonical(value, args, TransportFields(args, |value|).value);
    } else {
      LeafTransportCanonical(value, p, t);
    }
  }

  lemma TupleArguments(value: string, p: Parsed)
    requires Valid(value) && Parse(value) == Ok(p) && KindOf(p.name) == TupleType
    ensures p.arguments != [] && AllArguments(p.arguments) && forall a | a in p.arguments :: |a| < |value|
  {
    ParseSound(value);
  }

  lemma TupleForm(value: string, p: Parsed, t: string)
    requires Transport(value) == Ok(t) && Parse(value) == Ok(p) && KindOf(p.name) == TupleType
    requires AllArguments(p.arguments) && forall a | a in p.arguments :: |a| < |value|
    ensures TransportFields(p.arguments, |value|).Ok?
    ensures t == Build("Tuple", TransportFields(p.arguments, |value|).value)
  {
  }

  /** Constructors without type arguments. */
  lemma LeafTransportCanonical(value: string, p: Parsed, t: string)
    requires Transport(value) == Ok(t) && Parse(value) == Ok(p)
    requires KindOf(p.name) !in {Wrapper, MapType, TupleType}
    ensures Canonical(value, t)
  {
    LeafForm(value, p);
    match KindOf(p.name)
    case Simple => SimpleTransport(value, p, t);
    case DateTimeType => DateTimeTransport(value, p, t);
    case EnumType =>
      EnumForm(value, p, t);
      SimpleCanonical(value, t);
    case _ =>
      OtherForm(value, p, t);
      LeafCanonical(value);
  }

  lemma SimpleTransport(value: string, p: Parsed, t: string)
    requires Transport(value) == Ok(t) && Parse(value) == Ok(p) && KindOf(p.name) == Simple
    ensures Canonical(value, t)
  {
    SimpleForm(value, p, t);
    SimpleCanonical(value, t);
  }

  lemma DateTimeTransport(value: string, p: Parsed, t: string)
    requires Transport(value) == Ok(t) && Parse(value) == Ok(p) && KindOf(p.name) == DateTimeType && ValidLeaf(p)
    ensures Canonical(value, t)
  {
    DateTimeForm(value, p, t);
    ParsedZone(value, p);
  }

  lemma ParsedZone(value: string, p: Parsed)
    requires Parse(value) == Ok(p) && KindOf(p.name) == DateTimeType && ValidLeaf(p)
    ensures Canonical(value, Build("DateTime64", ["0"] + p.arguments))
  {
    hide Parse, Build, Canonical, IsTimeZone;
    ParseSound(value);
    DateTimeCanonical(value, p.arguments);
  }

  lemma LeafForm(value: string, p: Parsed)
    requires Valid(value) && Parse(value) == Ok(p) && KindOf(p.name) !in {Wrapper, MapType, TupleType}
    ensures ValidLeaf(p)
  {
  }

  lemma SimpleForm(value: string, p: Parsed, t: string)
    requires Transport(value) == Ok(t) && Parse(value) == Ok(p) && KindOf(p.name) == Simple
    ensures t in SIMPLE && t != "Date" && t != "IPv4" && t != "IPv6" && t != "UUID"
  {
    SimpleTarget(p.name, t);
  }

  lemma DateTimeForm(value: string, p: Parsed, t: string)
    requires Transport(value) == Ok(t) && Parse(value) == Ok(p) && KindOf(p.name) == DateTimeType && ValidLeaf(p)
    ensures |p.arguments| <= 1 && t == Build("DateTime64", ["0"] + p.arguments)
  {
    DateTimeText(p.arguments);
  }

  lemma EnumForm(value: string, p: Parsed, t: string)
    requires Transport(value) == Ok(t) && Parse(value) == Ok(p) && KindOf(p.name) == EnumType
    ensures t == "String" && t in SIMPLE
  {
  }

  lemma OtherForm(value: string, p: Parsed, t: string)
    requires Transport(value) == Ok(t) && Parse(value) == Ok(p)
    requires KindOf(p.name) !in {Wrapper, MapType, TupleType, Simple, DateTimeType, EnumType} && ValidLeaf(p)
    ensures t == Strip(value) && KindOf(p.name) in {Sized, DecimalType, DateTime64Type}
  {
  }

  lemma SimpleTarget(name: string, t: string)
    requires name in SIMPLE
    requires t == if name == "Date" then "Date32" else if name in {"IPv4", "IPv6", "UUID"} then "String" else name
    ensures t in SIMPLE && t != "Date" && t != "IPv4" && t != "IPv6" && t != "UUID"
  {
  }

  lemma DateTimeText(zone: seq<string>)
    requires |zone| <= 1
    ensures Build("DateTime64", ["0"] + zone) ==
            if zone == [] then "DateTime64(0)" else "DateTime64(0, " + zone[0] + ")"
  {
    if zone == [] {
      assert ["0"] + zone == ["0"];
    } else {
      assert (["0"] + zone)[1..] == [zone[0]];
      assert Join(["0"] + zone) == "0" + ", " + zone[0];
      assert "DateTime64(0, " == "DateTime64" + "(" + ("0" + ", ");
    }
  }

  lemma {:induction false} FieldsCanonical(arguments: seq<string>, bound: nat, ts: seq<string>)
    requires AllArguments(arguments) && forall a | a in arguments :: |a| < bound
    requires TransportFields(arguments, bound) == Ok(ts)
    ensures AllCanonicalFields(arguments, ts)
    decreases bound, 0, |arguments|
  {
    if arguments != [] {
      var first := arguments[0];
      assert first in arguments;
      assert TransportField(first) == Ok(ts[0]);
      if Transport(first).Ok? {
        TransportCanonical(first, ts[0]);
        PlainFieldCanonical(first, ts[0]);
      } else {
        var typ := TupleField(first).value.typ;
        TransportCanonical(typ, Transport(typ).value);
        NamedFieldCanonical(first, Transport(typ).value);
      }
      FieldsCanonical(arguments[1..], bound, ts[1..]);
      CanonicalFieldsCons(arguments, ts);
    }
  }

  lemma CanonicalFieldsCons(arguments: seq<string>, ts: seq<string>)
    requires arguments != [] && ts != [] && CanonicalField(arguments[0], ts[0])
    requires AllCanonicalFields(arguments[1..], ts[1..])
    ensures AllCanonicalFields(arguments, ts)
  {
    forall i | 1 <= i < |ts| ensures CanonicalField(arguments[i], ts[i]) {
      assert CanonicalField(arguments[1..][i - 1], ts[1..][i - 1]);
    }
  }

  /** Accepted types are exactly those that can be rewritten; the result is accepted, is a fixed
      point of rewriting and stays a single argument inside any other type. */
  lemma TransportFixedPoint(value: string)
    requires Valid(value)
    ensures Transport(value).Ok?
    ensures var t := Transport(value).value; Valid(t) && Transport(t) == Ok(t) && IsArgument(t)
  {
    TransportSucceeds(value);
    TransportCanonical(value, Transport(value).value);
  }
}
