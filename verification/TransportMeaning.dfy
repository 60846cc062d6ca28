/** What rewriting a ClickHouse type to its transport type preserves, and which leaf types are accepted. */
module TransportMeaning {
  import opened Wrappers
  import opened Sequences
  import opened Characters
  import opened TypeArguments
  import opened TransportTypes
  import opened PredicateText

  /** Every value of the declared type can be read off the transport type: dates widen, addresses, UUIDs
      and enums become text, a time stamp keeps its zone, and everything else stays as it is. */
  ghost predicate Lossless(declared: string, transport: string)
    decreases |declared|, 0
  {
    && Parse(declared).Ok? && Parse(transport).Ok?
    && (ParseSound(declared);
        ParseSound(transport);
        var p, q := Parse(declared).value, Parse(transport).value;
        var a, b := p.arguments, q.arguments;
        if p.name == "Date" then transport == "Date32"
        else if p.name in {"IPv4", "IPv6", "UUID", "Enum8", "Enum16"} then transport == "String"
        else if p.name == "DateTime" then q.name == "DateTime64" && b == ["0"] + a
        else if p.name in {"Nullable", "LowCardinality", "Array"} then
          q.name == p.name && |a| == 1 && |b| == 1 && Lossless(a[0], b[0])
        else if p.name == "Map" then
          q.name == "Map" && |a| == 2 && |b| == 2 && Lossless(a[0], b[0]) && Lossless(a[1], b[1])
        else if p.name == "Tuple" then
          q.name == "Tuple" && |a| == |b| && forall i | 0 <= i < |a| :: LosslessField(a[i], b[i])
        else q == p)
  }

  /** A tuple member keeps its name, if it has one. */
  ghost predicate LosslessField(declared: string, transport: string)
    requires IsArgument(declared) && IsArgument(transport)
    decreases |declared|, 1
  {
    if Parse(declared).Ok? then Lossless(declared, transport)
    else
      && TupleField(declared).Some? && TupleField(transport).Some?
      && TupleField(transport).value.name == TupleField(declared).value.name
      && Lossless(TupleField(declared).value.typ, TupleField(transport).value.typ)
  }

  ghost predicate AllLossless(a: seq<string>, b: seq<string>)
    requires AllArguments(a) && AllArguments(b)
  {
    |a| == |b| && forall i | 0 <= i < |a| :: LosslessField(a[i], b[i])
  }

  // ----- one lemma per constructor ------------------------------------------------------------------

  lemma SimpleLossless(value: string, p: Parsed, t: string)
    requires Transport(value) == Ok(t) && Parse(value) == Ok(p) && KindOf(p.name) == Simple
    ensures Lossless(value, t)
  {
    hide Parse, Transport, Valid;
    TransportIffValid(value);
    LeafForm(value, p);
    SimpleText(value, p, t);
    PlainParse(t);
    SimpleIsNoConstructor(p.name);
  }

  lemma SimpleIsNoConstructor(name: string)
    requires KindOf(name) == Simple
    ensures name !in {"DateTime", "Nullable", "LowCardinality", "Array", "Map", "Tuple", "Enum8", "Enum16"}
  {
  }

  lemma SimpleText(value: string, p: Parsed, t: string)
    requires Transport(value) == Ok(t) && Parse(value) == Ok(p) && KindOf(p.name) == Simple
    ensures t == if p.name == "Date" then "Date32" else if p.name in {"IPv4", "IPv6", "UUID"} then "String" else p.name
    ensures t in SIMPLE
  {
    hide Parse, Valid;
    SimpleForm(value, p, t);
  }

  lemma PlainParse(name: string)
    requires name in SIMPLE
    ensures Parse(name) == Ok(Parsed(name, []))
  {
    SimpleNames(name);
    TypeNameFacts(name);
    StripTrimmed(name);
    NoParenthesis(name);
  }

  lemma WrapperLossless(value: string, p: Parsed, argument: string, t: string)
    requires Parse(value) == Ok(p) && p.name in {"Nullable", "LowCardinality", "Array"} && p.arguments == [argument]
    requires IsArgument(t) && Lossless(argument, t)
    ensures Lossless(value, Build(p.name, [t]))
  {
    hide Parse, Build, IsArgument;
    ParseSound(value);
    BuildParses(p.name, [t]);
  }

  lemma MapLossless(value: string, p: Parsed, k: string, v: string)
    requires Parse(value) == Ok(p) && p.name == "Map" && |p.arguments| == 2
    requires IsArgument(k) && IsArgument(v) && Lossless(p.arguments[0], k) && Lossless(p.arguments[1], v)
    ensures Lossless(value, Build("Map", [k, v]))
  {
    hide Parse, Build, IsArgument;
    ParseSound(value);
    BuildParses("Map", [k, v]);
  }

  lemma TupleLossless(value: string, p: Parsed, ts: seq<string>)
    requires Parse(value) == Ok(p) && p.name == "Tuple" && ts != [] && AllArguments(p.arguments) && AllArguments(ts)
    requires AllLossless(p.arguments, ts)
    ensures Lossless(value, Build("Tuple", ts))
  {
    hide Parse, Build, IsArgument, LosslessField;
    EmittedNames();
    BuildParses("Tuple", ts);
  }

  lemma DateTimeLossless(value: string, p: Parsed, t: string)
    requires Transport(value) == Ok(t) && Parse(value) == Ok(p) && KindOf(p.name) == DateTimeType
    ensures Lossless(value, t)
  {
    hide Parse, Build, Transport, Valid, KindOf, IsTypeName, ValidLeaf, IsArgument;
    TransportIffValid(value);
    LeafForm(value, p);
    DateTimeForm(value, p, t);
    ParseSound(value);
    ZeroIsArgument();
    EmittedNames();
    ConstructorNames(p.name);
    BuildParses("DateTime64", ["0"] + p.arguments);
  }

  lemma ConstructorNames(name: string)
    ensures KindOf(name) == DateTimeType <==> name == "DateTime"
    ensures KindOf(name) == TupleType <==> name == "Tuple"
  {
  }

  lemma LeafLossless(value: string, p: Parsed, t: string)
    requires Transport(value) == Ok(t) && Parse(value) == Ok(p) && KindOf(p.name) !in {Wrapper, MapType, TupleType}
    ensures Lossless(value, t)
  {
    hide Parse, Build;
    LeafForm(value, p);
    match KindOf(p.name)
    case Simple => SimpleLossless(value, p, t);
    case DateTimeType => DateTimeLossless(value, p, t);
    case EnumType =>
      EnumForm(value, p, t);
      PlainParse("String");
    case _ =>
      OtherForm(value, p, t);
      ParseStripped(value);
  }

  lemma NamedLossless(argument: string, t: string)
    requires IsArgument(argument) && TupleField(argument).Some? && Lossless(TupleField(argument).value.typ, t)
    requires IsArgument(t) && '\n' !in t
    ensures var b := TupleField(argument).value.name + " " + t; IsArgument(b) && LosslessField(argument, b)
  {
    hide Parse;
    FieldRecognised(argument, t);
    FieldIsNoType(argument);
  }

  // ----- every rewriting is lossless -------------------------------------------------------------------

  /** Every accepted type and its rewriting are related, through all nesting. */
  lemma {:induction false} TransportLossless(value: string)
    requires Valid(value)
    ensures Transport(value).Ok? && Lossless(value, Transport(value).value)
    decreases |value|, 0
  {
    hide Parse, Build, Lossless, Transport, Valid, KindOf, IsTypeName, IsArgument, AllLossless, TransportFields;
    TransportSucceeds(value);
    ValidParses(value);
    ParseSound(value);
    var p, t := Parse(value).value, Transport(value).value;
    if KindOf(p.name) == Wrapper {
      WrapperForm(value, p, t);
      TransportLossless(p.arguments[0]);
      TransportFixedPoint(p.arguments[0]);
      WrapperLossless(value, p, p.arguments[0], Transport(p.arguments[0]).value);
    } else if KindOf(p.name) == MapType {
      MapForm(value, p, t);
      TransportLossless(p.arguments[0]);
      TransportLossless(p.arguments[1]);
      TransportFixedPoint(p.arguments[0]);
      TransportFixedPoint(p.arguments[1]);
      MapLossless(value, p, Transport(p.arguments[0]).value, Transport(p.arguments[1]).value);
    } else if KindOf(p.name) == TupleType {
      TupleArguments(value, p);
      TupleForm(value, p, t);
      var ts := TransportFields(p.arguments, |value|).value;
      FieldsLossless(p.arguments, |value|, ts);
      ConstructorNames(p.name);
      TupleLossless(value, p, ts);
    } else {
      LeafLossless(value, p, t);
    }
  }

  lemma WrapperForm(value: string, p: Parsed, t: string)
    requires Transport(value) == Ok(t) && Parse(value) == Ok(p) && KindOf(p.name) == Wrapper
    ensures p.name in {"Nullable", "LowCardinality", "Array"} && |p.arguments| == 1 && p.arguments == [p.arguments[0]]
    ensures Valid(p.arguments[0]) && Transport(p.arguments[0]).Ok?
    ensures t == Build(p.name, [Transport(p.arguments[0]).value])
  {
    hide Parse, Build;
  }

  lemma MapForm(value: string, p: Parsed, t: string)
    requires Transport(value) == Ok(t) && Parse(value) == Ok(p) && KindOf(p.name) == MapType
    ensures p.name == "Map" && |p.arguments| == 2 && Valid(p.arguments[0]) && Valid(p.arguments[1])
    ensures Transport(p.arguments[0]).Ok? && Transport(p.arguments[1]).Ok?
    ensures t == Build("Map", [Transport(p.arguments[0]).value, Transport(p.arguments[1]).value])
  {
    hide Parse, Build;
  }

  lemma {:induction false} FieldsLossless(arguments: seq<string>, bound: nat, ts: seq<string>)
    requires AllArguments(arguments) && forall a | a in arguments :: |a| < bound
    requires TransportFields(arguments, bound) == Ok(ts)
    ensures AllArguments(ts) && AllLossless(arguments, ts)
    decreases bound, 0, |arguments|
  {
    hide Parse, Lossless, LosslessField, IsArgument, Transport;
    if arguments != [] {
      assert arguments[0] in arguments;
      FieldLossless(arguments[0], ts[0]);
      FieldsLossless(arguments[1..], bound, ts[1..]);
      LosslessCons(arguments, ts);
    }
  }

  lemma {:induction false} FieldLossless(argument: string, t: string)
    requires IsArgument(argument) && TransportField(argument) == Ok(t)
    ensures IsArgument(t) && LosslessField(argument, t)
    decreases |argument|, 1
  {
    hide Parse, Lossless, Valid;
    if Transport(argument).Ok? {
      TransportIffValid(argument);
      TransportLossless(argument);
      TransportFixedPoint(argument);
      ValidParses(argument);
    } else {
      var typ := TupleField(argument).value.typ;
      TransportIffValid(typ);
      TransportLossless(typ);
      TransportCanonical(typ, Transport(typ).value);
      NamedLossless(argument, Transport(typ).value);
    }
  }

  lemma ValidParses(value: string)
    requires Valid(value)
    ensures Parse(value).Ok?
  {
  }

  lemma LosslessCons(a: seq<string>, b: seq<string>)
    requires a != [] && b != [] && AllArguments(a) && IsArgument(b[0]) && AllArguments(b[1..])
    requires LosslessField(a[0], b[0]) && AllLossless(a[1..], b[1..])
    ensures AllArguments(b) && AllLossless(a, b)
  {
    hide IsArgument, LosslessField;
    forall i | 0 <= i < |b| ensures IsArgument(b[i]) {
      if i > 0 { assert b[i] == b[1..][i - 1]; }
    }
    forall i | 0 <= i < |a| ensures LosslessField(a[i], b[i]) {
      if i > 0 { assert a[i] == a[1..][i - 1] && b[i] == b[1..][i - 1]; }
    }
  }

  /** The leaf types and their bounds. */
  lemma AcceptedLeaves(value: string, name: string, arguments: seq<string>)
    requires Parse(value) == Ok(Parsed(name, arguments))
    requires name !in {"Nullable", "LowCardinality", "Array", "Map", "Tuple"}
    ensures Valid(value) <==>
            || (arguments == [] && name in {"Bool", "String", "Date", "Date32", "DateTime", "UUID", "IPv4", "IPv6",
                                            "Float32", "Float64", "Int8", "Int16", "Int32", "Int64",
                                            "UInt8", "UInt16", "UInt32", "UInt64"})
            || (arguments != [] && name in {"Enum8", "Enum16"})
            || (name == "FixedString" && NumberIn(arguments, 1, None))
            || (name == "Decimal32" && NumberIn(arguments, 0, Some(9)))
            || (name == "Decimal64" && NumberIn(arguments, 0, Some(18)))
            || (name == "Decimal128" && NumberIn(arguments, 0, Some(38)))
            || (name == "Decimal" && |arguments| == 2 && NumberIn(arguments[..1], 1, Some(38))
                && IsDecimal(arguments[1]) && Number(arguments[1]) <= Number(arguments[0]))
            || (name == "DateTime" && |arguments| == 1 && IsZone(arguments[0]))
            || (name == "DateTime64" && 1 <= |arguments| <= 2 && NumberIn(arguments[..1], 0, Some(9))
                && (|arguments| == 2 ==> IsZone(arguments[1])))
  {
    hide Parse, IsTimeZone, IsZone, IsInteger, IsDecimal;
    forall i | 0 <= i < |arguments|
      ensures IsTimeZone(arguments[i]) <==> IsZone(arguments[i])
      ensures IsInteger(arguments[i]) <==> IsDecimal(arguments[i])
    {
      ZoneRules(arguments[i]);
    }
    if |arguments| > 0 {
      assert arguments[..1] == [arguments[0]];
    }
  }

  /** Constructors are accepted exactly with accepted arguments, tuples with accepted members. */
  lemma AcceptedConstructors(value: string, name: string, arguments: seq<string>)
    requires Parse(value) == Ok(Parsed(name, arguments))
    ensures name in {"Nullable", "LowCardinality", "Array"} ==>
              (Valid(value) <==> |arguments| == 1 && Valid(arguments[0]))
    ensures name == "Map" ==> (Valid(value) <==> |arguments| == 2 && Valid(arguments[0]) && Valid(arguments[1]))
    ensures name == "Tuple" ==>
              (Valid(value) <==>
               AllArguments(arguments) && arguments != []
                 && forall i | 0 <= i < |arguments| :: ValidMember(arguments[i]))
  {
    hide Parse;
    ParseSound(value);
  }

  /** A member of a tuple is a type or a name with a type. */
  ghost predicate ValidMember(argument: string)
    requires IsArgument(argument)
  {
    Valid(argument) || (TupleField(argument).Some? && Valid(TupleField(argument).value.typ))
  }

  /** Numbers are read in base ten. */
  lemma {:induction false} NumberOfDigits(n: nat)
    ensures IsInteger(Digits(n)) && Number(Digits(n)) == n
  {
    var s := Digits(n);
    forall i | 0 <= i < |s| ensures IsDigit(s[i]) {
      assert s[i] in s;
    }
    if n < 10 {
      assert s[..0] == [];
    } else {
      NumberOfDigits(n / 10);
      assert s[..|s| - 1] == Digits(n / 10);
    }
  }

  predicate IsDecimal(s: string)
    ensures IsDecimal(s) ==> forall i | 0 <= i < |s| :: IsDigit(s[i])
  {
    |s| > 0 && forall i | 0 <= i < |s| :: '0' <= s[i] <= '9'
  }

  /** A quoted time zone: letters, digits and `_+./:-`. */
  predicate IsZone(s: string) {
    && |s| > 2 && s[0] == '\'' && s[|s| - 1] == '\''
    && forall i | 0 < i < |s| - 1 ::
         || 'a' <= s[i] <= 'z' || 'A' <= s[i] <= 'Z' || '0' <= s[i] <= '9'
         || s[i] == '_' || s[i] == '+' || s[i] == '.' || s[i] == '/' || s[i] == ':' || s[i] == '-'
  }

  lemma ZoneRules(s: string)
    ensures IsTimeZone(s) <==> IsZone(s)
    ensures IsInteger(s) <==> IsDecimal(s)
  {
    forall c: char ensures c in "+./:-" <==> c == '+' || c == '.' || c == '/' || c == ':' || c == '-' {
      var t := "+./:-";
      assert t[0] == '+' && t[1] == '.' && t[2] == '/' && t[3] == ':' && t[4] == '-';
    }
  }

  /** A single decimal number within bounds. */
  predicate NumberIn(arguments: seq<string>, low: nat, high: Option<nat>) {
    && |arguments| == 1 && IsDecimal(arguments[0]) && low <= Number(arguments[0])
    && (high.Some? ==> Number(arguments[0]) <= high.value)
  }
}
