/** The JavaScript values the modelled code handles: what CBOR decoding
    yields, the asset trees the command line walks, and the Radon artifacts
    found in them. */
module Values {
  import opened Common

  /** The three artifact classes of the toolkit, with what the command line
      reads of them: a template's retrievals' `argsCount`s, in order, and a
      retrieval's own `argsCount`. */
  datatype ArtifactKind =
    | Request
    | Template(argsCounts: seq<nat>)
    | Retrieval(argsCount: nat)

  /** A value. Numbers are integers (NaN and fractions are not modelled);
      the properties of an object, and the enumerable own fields of an
      artifact, are listed in `for ... in` enumeration order. */
  datatype JsValue =
    | Undefined
    | Null
    | Bool(b: bool)
    | Num(n: int)
    | Str(s: string)
    | Arr(items: seq<JsValue>)
    | Obj(props: seq<Prop>)
    | Artifact(kind: ArtifactKind, fields: seq<Prop>)

  datatype Prop = Prop(key: string, value: JsValue)

  /** ToBoolean: `undefined`, `null`, `false`, `0` and `""` are falsy. */
  predicate Truthy(v: JsValue) {
    match v
    case Undefined => false
    case Null => false
    case Bool(b) => b
    case Num(n) => n != 0
    case Str(s) => s != []
    case _ => true
  }

  /** `typeof v === "object"`: arrays, objects, class instances and `null`. */
  predicate IsObjectType(v: JsValue) {
    v.Null? || v.Arr? || v.Obj? || v.Artifact?
  }

  /** `String(v)` for the values whose text does not depend on a
      `toString` of the toolkit's own: arrays are joined with commas, with
      `undefined` and `null` elements left empty. */
  function ToText(v: JsValue): string {
    match v
    case Undefined => "undefined"
    case Null => "null"
    case Bool(b) => if b then "true" else "false"
    case Num(n) => if n < 0 then "-" + Decimal(-n) else Decimal(n)
    case Str(s) => s
    case Arr(items) => JoinTexts(items)
    case Obj(_) => "[object Object]"
    case Artifact(_, _) => "[object Object]"
  }

  function JoinTexts(items: seq<JsValue>): string {
    if items == [] then ""
    else
      var head := if items[0].Undefined? || items[0].Null? then "" else ToText(items[0]);
      if |items| == 1 then head else head + "," + JoinTexts(items[1..])
  }

  /** `array[i]`, which is `undefined` past the end. */
  function Index(items: seq<JsValue>, i: nat): JsValue {
    if i < |items| then items[i] else Undefined
  }

  /** The values of `Object.values(v)` for an object-like value. */
  function PropValues(props: seq<Prop>): (r: seq<JsValue>)
    ensures |r| == |props| && forall i :: 0 <= i < |props| ==> r[i] == props[i].value
  {
    if props == [] then [] else [props[0].value] + PropValues(props[1..])
  }

  /** A size that decreases into every sub-value; `undefined` weighs nothing. */
  function Size(v: JsValue): nat {
    match v
    case Undefined => 0
    case Arr(items) => 1 + SizeOfAll(items)
    case Obj(props) => 1 + SizeOfProps(props)
    case Artifact(_, fields) => 1 + SizeOfProps(fields)
    case _ => 1
  }

  function SizeOfAll(items: seq<JsValue>): nat {
    if items == [] then 0 else Size(items[0]) + SizeOfAll(items[1..])
  }

  function SizeOfProps(props: seq<Prop>): nat {
    if props == [] then 0 else Size(props[0].value) + SizeOfProps(props[1..])
  }

  /** Every element weighs no more than the whole list. */
  lemma {:induction false} SizeOfElement(items: seq<JsValue>, i: nat)
    requires i < |items|
    ensures Size(items[i]) <= SizeOfAll(items)
    ensures SizeOfAll(items[i + 1..]) + Size(items[i]) == SizeOfAll(items[i..])
    decreases |items|
  {
    if i > 0 {
      SizeOfElement(items[1..], i - 1);
      assert items[1..][i - 1..] == items[i..];
      assert items[1..][i..] == items[i + 1..];
    }
  }

  /** A suffix of a list weighs no more than the list. */
  lemma {:induction false} SizeOfSuffix(items: seq<JsValue>, i: nat)
    requires i <= |items|
    ensures SizeOfAll(items[i..]) <= SizeOfAll(items)
    decreases i
  {
    if i > 0 {
      SizeOfSuffix(items, i - 1);
      SizeOfElement(items, i - 1);
    }
  }
}
