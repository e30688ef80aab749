/** Reading a Radon script (src/lib/utils.js, `parseScript` and
    `parseScriptOperator`): a CBOR-decoded value, either a bare opcode or an
    array whose elements are opcodes or `[opcode, argument, ...]` arrays, is
    folded into a chain of operator calls on Radon type objects. The Radon
    type classes and their methods are not part of this model: a script is
    the term that records which calls were made, and the operator registry
    (`RadonOperators`) is a parameter. */
module Script {
  import opened Common
  import opened Values
  import Hex

  /** The Radon type classes a fresh script can start from. */
  datatype Family =
    | AnyType | ArrayType | BooleanType | BytesType | IntegerType | FloatType | MapType | StringType

  /** A script: a fresh object of a family, or a method call on a script
      with its argument, or one of the calls that take an inner script
      (`filter`, `map`, `sort`, `alter`) with the inner script (`None` when
      parsing it gave `undefined`) and the extra arguments. */
  datatype Script =
    | Root(family: Family)
    | Call(base: Script, operator: string, arg: JsValue)
    | NestedCall(base: Script, operator: string, inner: Option<Script>, extra: seq<JsValue>)
  {
    /** The object the chain started from. */
    function Origin(): Family {
      match this
      case Root(f) => f
      case Call(b, _, _) => b.Origin()
      case NestedCall(b, _, _, _) => b.Origin()
    }
  }

  // ---------------------------------------------------------------------
  // The family of a fresh script

  /** The longest prefix of decimal digits. */
  function LeadingDigits(s: string): (r: string)
    ensures |r| <= |s| && r == s[..|r|]
    ensures forall k :: 0 <= k < |r| ==> IsDigit(r[k])
  {
    if s != [] && IsDigit(s[0]) then [s[0]] + LeadingDigits(s[1..]) else ""
  }

  /** The number written by a string of decimal digits. */
  function DecimalNumber(d: string): nat
    requires forall k :: 0 <= k < |d| ==> IsDigit(d[k])
  {
    if d == [] then 0 else DecimalNumber(d[..|d| - 1]) * 10 + DigitValue(d[|d| - 1])
  }

  /** `parseInt(s)` without a radix: leading white space is skipped, then an
      optional sign; a `0x`/`0X` prefix selects base 16, otherwise base 10
      digits are read as far as they go. `None` stands for NaN, the result
      when no digit is read. */
  function ParseInt(s: string): Option<int> {
    Signed(Hex.TrimStart(s))
  }

  /** A non-empty run of decimal digits reads as the number it writes. */
  lemma ParseIntOfDigits(s: string)
    requires s != [] && forall k :: 0 <= k < |s| ==> IsDigit(s[k])
    ensures ParseInt(s) == Some(DecimalNumber(s))
  {
    DigitIsNoSpace(s[0]);
    Untrimmed(s);
    MagnitudeOfDigits(s);
  }

  /** `parseInt` once the leading white space is gone. */
  function Signed(t: string): Option<int> {
    if t != [] && t[0] == '-' then Negated(Magnitude(t[1..]))
    else if t != [] && t[0] == '+' then Magnitude(t[1..])
    else Magnitude(t)
  }

  function Negated(m: Option<nat>): Option<int> {
    if m.None? then None else Some(-(m.value as int))
  }

  /** The unsigned part of `parseInt`. */
  function Magnitude(u: string): (r: Option<nat>) {
    if |u| >= 2 && u[0] == '0' && (u[1] == 'x' || u[1] == 'X') then
      var digits := Hex.LeadingHex(u[2..]);
      if digits == [] then None else Some(Hex.HexNumber(digits))
    else
      var digits := LeadingDigits(u);
      if digits == [] then None else Some(DecimalNumber(digits))
  }

  /** The class listed under `(nibble * 16).toString(16)` in the table of
      families: `"10"` to `"70"`; anything else is `RadonAny`. */
  function NibbleFamily(nibble: nat): Family {
    if nibble == 1 then ArrayType
    else if nibble == 2 then BooleanType
    else if nibble == 3 then BytesType
    else if nibble == 4 then IntegerType
    else if nibble == 5 then FloatType
    else if nibble == 6 then MapType
    else if nibble == 7 then StringType
    else AnyType
  }

  /** `parseInt(opcode) & 0xf0`, as a nibble: NaN becomes 0 and the bitwise
      and keeps bits 4 to 7 of the two's complement, which are those of the
      number modulo 256. */
  function FamilyNibble(opcode: JsValue): (nibble: nat)
    ensures nibble < 16
  {
    match ParseInt(ToText(opcode))
    case None => 0
    case Some(n) => (n % 256) / 16
  }

  /** The class a fresh script is made of, chosen from the opcode. */
  function FamilyOf(opcode: JsValue): Family {
    NibbleFamily(FamilyNibble(opcode))
  }

  lemma {:induction false} LeadingDigitsOfDigits(d: string)
    requires forall k :: 0 <= k < |d| ==> IsDigit(d[k])
    ensures LeadingDigits(d) == d
    decreases |d|
  {
    if d != [] {
      LeadingDigitsOfDigits(d[1..]);
    }
  }

  /** Reading the decimal text of a number gives the number back. */
  lemma {:induction false} DecimalNumberOfDecimal(n: nat)
    ensures DecimalNumber(Decimal(n)) == n
    decreases n
  {
    if n >= 10 {
      DecimalNumberOfDecimal(n / 10);
      var d := Decimal(n);
      assert d == Decimal(n / 10) + [DigitChar(n % 10)];
      assert d[..|d| - 1] == Decimal(n / 10);
      assert DigitValue(d[|d| - 1]) == n % 10;
    } else {
      assert DigitValue(DigitChar(n)) == n;
    }
  }

  lemma DigitIsNoSpace(c: char)
    requires IsDigit(c)
    ensures !IsJsSpace(c) && c != '-' && c != '+'
  {
  }

  lemma MinusIsNoSpace()
    ensures !IsJsSpace('-')
  {
  }

  /** Text that does not start with white space is not trimmed. */
  lemma Untrimmed(s: string)
    requires s != [] && !IsJsSpace(s[0])
    ensures Hex.TrimStart(s) == s
  {
  }

  /** A run of decimal digits reads as its number. */
  lemma MagnitudeOfDigits(d: string)
    requires d != [] && forall k :: 0 <= k < |d| ==> IsDigit(d[k])
    ensures Magnitude(d) == Some(DecimalNumber(d))
  {
    LeadingDigitsOfDigits(d);
    assert !(|d| >= 2 && (d[1] == 'x' || d[1] == 'X'));
  }

  /** The decimal text of a number reads as the number. */
  lemma MagnitudeOfDecimal(m: nat, d: string)
    requires d == Decimal(m)
    ensures Magnitude(d) == Some(m)
  {
    MagnitudeOfDigits(d);
    DecimalNumberOfDecimal(m);
  }

  /** Text that starts with a digit has no sign to read. */
  lemma ParseIntUnsigned(t: string)
    requires t != [] && IsDigit(t[0])
    ensures ParseInt(t) == Magnitude(t)
  {
    DigitIsNoSpace(t[0]);
    Untrimmed(t);
  }

  /** Text that starts with a minus sign reads as the negated rest. */
  lemma ParseIntMinus(t: string)
    requires t != [] && t[0] == '-'
    ensures ParseInt(t) == Negated(Magnitude(t[1..]))
  {
    MinusIsNoSpace();
    Untrimmed(t);
  }

  /** `parseInt(String(n))` is `n` for every integer. */
  lemma ParseIntOfText(n: int)
    ensures ParseInt(ToText(Num(n))) == Some(n)
  {
    if n < 0 {
      ParseIntOfNegative(n);
    } else {
      ParseIntOfNatural(n);
    }
  }

  lemma ParseIntOfNatural(n: nat)
    ensures ParseInt(ToText(Num(n))) == Some(n)
  {
    var t := ToText(Num(n));
    assert t == Decimal(n);
    ParseIntUnsigned(t);
    MagnitudeOfDecimal(n, t);
  }

  lemma ParseIntOfNegative(n: int)
    requires n < 0
    ensures ParseInt(ToText(Num(n))) == Some(n)
  {
    NegativeText(n);
    ReadNegative(ToText(Num(n)), -n);
  }

  lemma ReadNegative(t: string, m: nat)
    requires t != [] && t[0] == '-' && t[1..] == Decimal(m)
    ensures ParseInt(t) == Some(-(m as int))
  {
    ParseIntMinus(t);
    MagnitudeOfDecimal(m, t[1..]);
  }

  lemma NegativeText(n: int)
    requires n < 0
    ensures ToText(Num(n)) != [] && ToText(Num(n))[0] == '-' && ToText(Num(n))[1..] == Decimal(-n)
  {
    assert ToText(Num(n)) == "-" + Decimal(-n);
  }

  /** The bits 4 to 7 of a number are those of the number plus 256, and
      those of the number without its low nibble. */
  lemma HighNibble(n: int)
    ensures (n + 256) % 256 / 16 == n % 256 / 16
    ensures (n - n % 16) % 256 / 16 == n % 256 / 16
  {
    var q, r := n / 256, n % 256;
    assert n == 256 * q + r && 0 <= r < 256;
    assert n + 256 == 256 * (q + 1) + r;
    var l := n % 16;
    assert r % 16 == l;
    assert n - l == 256 * q + (r - l) && 0 <= r - l < 256;
    assert (r - l) / 16 == r / 16;
  }

  /** A numeric opcode picks its family from bits 4 to 7 alone: `0x1_` is
      Array, `0x2_` Boolean, `0x3_` Bytes, `0x4_` Integer, `0x5_` Float,
      `0x6_` Map, `0x7_` String, and every other value Any. */
  lemma FamilyOfOpcode(n: int)
    ensures FamilyNibble(Num(n)) == (n % 256) / 16
    ensures FamilyOf(Num(n)) == NibbleFamily((n % 256) / 16)
  {
    ParseIntOfText(n);
  }

  /** Hence adding 256, or clearing the low nibble, keeps the family. */
  lemma FamilyIgnoresOtherBits(n: int)
    ensures FamilyOf(Num(n)) == FamilyOf(Num(n + 256)) == FamilyOf(Num(n - n % 16))
  {
    var up, low := n + 256, n - n % 16;
    FamilyOfOpcode(n);
    FamilyOfOpcode(up);
    FamilyOfOpcode(low);
    HighNibble(n);
    assert FamilyNibble(Num(n)) == FamilyNibble(Num(up)) == FamilyNibble(Num(low));
  }

  // ---------------------------------------------------------------------
  // The operator of an opcode

  /** `name.split(/(?=[A-Z])/).slice(1).join("")` with its first letter
      lower-cased: the registry name without its first capitalised word. */
  function OperatorName(name: string): (r: string)
    ensures |r| == |DropFirstWord(name)|
    ensures r != [] ==> r[0] == LowerChar(DropFirstWord(name)[0]) && r[1..] == DropFirstWord(name)[1..]
  {
    var rest := DropFirstWord(name);
    if rest == [] then "" else [LowerChar(rest[0])] + rest[1..]
  }

  lemma ParseJsonName()
    ensures OperatorName("StringParseJSON") == "parseJSON"
  {
    var s := "StringParseJSON";
    assert FirstUpperFrom(s, 1) == 6 by {
      assert IsUpper(s[6]);
      assert !IsUpper(s[1]) && !IsUpper(s[2]) && !IsUpper(s[3]) && !IsUpper(s[4]) && !IsUpper(s[5]);
      assert FirstUpperFrom(s, 5) == 6;
      assert FirstUpperFrom(s, 4) == 6;
      assert FirstUpperFrom(s, 3) == 6;
      assert FirstUpperFrom(s, 2) == 6;
    }
    assert DropFirstWord(s) == "ParseJSON";
  }

  /** The operators whose argument is itself a script. */
  predicate TakesScript(operator: string) {
    operator == "filter" || operator == "map" || operator == "sort" || operator == "alter"
  }

  /** `args.slice(1)` spread into the call: the elements after the first of
      an array, the characters after the first of a string; anything else
      has no `slice` to call. */
  function ExtraArguments(args: JsValue): (r: Result<seq<JsValue>>)
    ensures r.Success? <==> args.Arr? || args.Str?
    ensures args.Arr? ==> r.value == if args.items == [] then [] else args.items[1..]
  {
    match args
    case Arr(items) => Success(if items == [] then [] else items[1..])
    case Str(s) =>
      var tail := if s == [] then "" else s[1..];
      Success(seq(|tail|, i requires 0 <= i < |tail| => Str([tail[i]])))
    case Undefined => Failure(TypeError("Cannot read properties of undefined (reading 'slice')"))
    case Null => Failure(TypeError("Cannot read properties of null (reading 'slice')"))
    case _ => Failure(TypeError("args.slice is not a function"))
  }

  // ---------------------------------------------------------------------
  // parseScriptOperator and parseScript

  /** `parseScriptOperator(script, opcode, args)`, with `None` for an
      undefined script and `Success(None)` for an undefined result. A fresh
      root is made when there is no script, but a falsy opcode returns
      nothing at all. An opcode missing from the registry makes
      `undefined.split` throw. */
  function ParseOperator(ops: map<string, string>, script: Option<Script>, opcode: JsValue, args: JsValue): (r: Result<Option<Script>>)
    ensures !Truthy(opcode) ==> r == Success(None)
    ensures Truthy(opcode) && ToText(opcode) !in ops ==> r.Failure? && r.error.TypeError?
    ensures r.Success? && r.value.Some? ==>
      r.value.value.Origin() == (if script.Some? then script.value.Origin() else FamilyOf(opcode))
    decreases Size(args), if Truthy(opcode) then 2 else 0
  {
    var base := if script.Some? then script.value else Root(FamilyOf(opcode));
    if !Truthy(opcode) then Success(None)
    else if ToText(opcode) !in ops then Failure(TypeError("Cannot read properties of undefined (reading 'split')"))
    else
      var operator := OperatorName(ops[ToText(opcode)]);
      if TakesScript(operator) then
        var inner :- Parsed(ops, args);
        var extra :- ExtraArguments(args);
        Success(Some(NestedCall(base, operator, inner, extra)))
      else
        Success(Some(Call(base, operator, args)))
  }

  lemma SizeOfIndex(items: seq<JsValue>, i: nat)
    ensures Size(Index(items, i)) <= SizeOfAll(items)
  {
    if i < |items| {
      SizeOfElement(items, i);
    }
  }

  /** What one element of the array applies: `[opcode, arg, ...]` passes its
      first two entries, anything else is an opcode with no argument. */
  function Step(ops: map<string, string>, script: Option<Script>, item: JsValue): Result<Option<Script>>
    decreases Size(item), 3, 0
  {
    if item.Arr? then
      SizeOfIndex(item.items, 1);
      ParseOperator(ops, script, Index(item.items, 0), Index(item.items, 1))
    else ParseOperator(ops, script, item, Undefined)
  }

  /** The `forEach` over the elements, threading the script from left to
      right; the first exception aborts it. */
  function ParsedItems(ops: map<string, string>, script: Option<Script>, items: seq<JsValue>): Result<Option<Script>>
    decreases SizeOfAll(items), 4, |items|
  {
    if items == [] then Success(script)
    else
      var next :- Step(ops, script, items[0]);
      ParsedItems(ops, next, items[1..])
  }

  /** `parseScript(value)` with no script to start from. */
  function Parsed(ops: map<string, string>, value: JsValue): (r: Result<Option<Script>>)
    ensures value == Arr([]) ==> r == Success(None)
    decreases Size(value), 1
  {
    if value.Arr? then ParsedItems(ops, None, value.items)
    else ParseOperator(ops, None, value, Undefined)
  }

  /** `parseScript(value)`: the loop over the elements of an array, or a
      single operation for any other value. */
  method ParseScript(ops: map<string, string>, value: JsValue) returns (r: Result<Option<Script>>)
    ensures r == Parsed(ops, value)
  {
    if !value.Arr? {
      return ParseOperator(ops, None, value, Undefined);
    }
    var items := value.items;
    var script: Option<Script> := None;
    var i := 0;
    while i < |items|
      invariant i <= |items|
      invariant ParsedItems(ops, script, items[i..]) == Parsed(ops, value)
    {
      assert items[i..][1..] == items[i + 1..];
      var item := items[i];
      var next;
      if item.Arr? {
        next := ParseOperator(ops, script, Index(item.items, 0), Index(item.items, 1));
      } else {
        next := ParseOperator(ops, script, item, Undefined);
      }
      if next.Failure? {
        return Failure(next.error);
      }
      script := next.value;
      i := i + 1;
    }
    return Success(script);
  }

  // ---------------------------------------------------------------------
  // Properties

  /** Parsing the elements of `a + b` is parsing `b` from where `a` left
      the script. */
  lemma {:induction false} ParsedItemsAppend(ops: map<string, string>, script: Option<Script>, a: seq<JsValue>, b: seq<JsValue>)
    ensures ParsedItems(ops, script, a + b)
      == (match ParsedItems(ops, script, a)
          case Success(s) => ParsedItems(ops, s, b)
          case Failure(e) => Failure(e))
    decreases |a|
  {
    if a == [] {
      assert a + b == b;
    } else {
      assert (a + b)[0] == a[0] && (a + b)[1..] == a[1..] + b;
      var next := Step(ops, script, a[0]);
      if next.Success? {
        ParsedItemsAppend(ops, next.value, a[1..], b);
      }
    }
  }

  /** In `[opcode, arg, more...]` only `opcode` and `arg` count. */
  lemma OnlyFirstArgument(ops: map<string, string>, script: Option<Script>, opcode: JsValue, arg: JsValue, more: seq<JsValue>)
    ensures Step(ops, script, Arr([opcode, arg] + more)) == Step(ops, script, Arr([opcode, arg]))
  {
    assert ([opcode, arg] + more)[0] == opcode && ([opcode, arg] + more)[1] == arg;
  }

  /** The argument of `filter`, `map`, `sort` and `alter` is parsed as a
      script of its own, whose root family comes from its own first opcode,
      and the same argument without its first element follows it. */
  lemma NestedScript(ops: map<string, string>, script: Option<Script>, opcode: JsValue, args: JsValue)
    requires Truthy(opcode) && ToText(opcode) in ops && TakesScript(OperatorName(ops[ToText(opcode)]))
    requires Parsed(ops, args).Success? && ExtraArguments(args).Success?
    ensures ParseOperator(ops, script, opcode, args)
      == Success(Some(NestedCall(
           if script.Some? then script.value else Root(FamilyOf(opcode)),
           OperatorName(ops[ToText(opcode)]),
           Parsed(ops, args).value,
           ExtraArguments(args).value)))
  {
  }

  /** A nested script that fails to parse makes the whole operation fail
      with its error, before `args.slice` is looked at. */
  lemma NestedFailure(ops: map<string, string>, script: Option<Script>, opcode: JsValue, args: JsValue)
    requires Truthy(opcode) && ToText(opcode) in ops && TakesScript(OperatorName(ops[ToText(opcode)]))
    requires Parsed(ops, args).Failure?
    ensures ParseOperator(ops, script, opcode, args) == Failure(Parsed(ops, args).error)
  {
  }

  /** A falsy opcode in the middle of an array drops the script built so
      far: the next element starts a fresh one. */
  lemma FalsyOpcodeRestarts(ops: map<string, string>, s: Script, opcode: JsValue, args: JsValue, rest: seq<JsValue>)
    requires !Truthy(opcode)
    ensures ParsedItems(ops, Some(s), [Arr([opcode, args])] + rest) == ParsedItems(ops, None, rest)
  {
    var items := [Arr([opcode, args])] + rest;
    assert items[0] == Arr([opcode, args]) && items[1..] == rest;
    assert Step(ops, Some(s), items[0]) == Success(None);
  }

  /** A bare opcode on its own, with a registry entry that takes no inner
      script, is one call on a fresh root of its family. */
  lemma SingleOpcode(ops: map<string, string>, n: int)
    requires n != 0 && ToText(Num(n)) in ops && !TakesScript(OperatorName(ops[ToText(Num(n))]))
    ensures Parsed(ops, Num(n)) == Success(Some(Call(Root(NibbleFamily((n % 256) / 16)), OperatorName(ops[ToText(Num(n))]), Undefined)))
  {
    FamilyOfOpcode(n);
  }
}
