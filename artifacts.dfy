/** Walking the asset trees that declare Radon artifacts: `countLeaves` of
    the helpers (src/lib/helpers.js), and `flattenWitnetArtifacts`, which
    the library (src/lib/utils.js) and the command line
    (src/lib/cli/radon.js) each define, with the same body. */
module Artifacts {
  import opened Common
  import opened Values

  /** The artifact classes `countLeaves` is asked about. */
  datatype ArtifactClass = RequestClass | TemplateClass | RetrievalClass

  /** `v instanceof cls`. */
  predicate InstanceOf(v: JsValue, cls: ArtifactClass) {
    v.Artifact? &&
    match cls
    case RequestClass => v.kind.Request?
    case TemplateClass => v.kind.Template?
    case RetrievalClass => v.kind.Retrieval?
  }

  /** The weight of a property list is the weight of its first value
      plus that of the rest. */
  lemma {:induction false} SizeOfProp(props: seq<Prop>)
    requires props != []
    ensures Size(props[0].value) + SizeOfProps(props[1..]) == SizeOfProps(props)
  {
  }

  // ---------------------------------------------------------------------
  // countLeaves

  function StackOverflow(): JsError {
    RangeError("Maximum call stack size exceeded")
  }

  /** `countLeaves(cls, v)`: falsy values count nothing, an instance of the
      class counts one, arrays and other values are summed over their
      elements (`Object.values`). `Object.values` of a non-empty string is
      its characters, each again a non-empty string, so the recursion never
      ends and the stack overflows; `true` and non-zero numbers have no
      values. */
  function CountLeaves(cls: ArtifactClass, v: JsValue): (r: Result<nat>)
    ensures InstanceOf(v, cls) ==> r == Success(1)
    ensures !Truthy(v) ==> r == Success(0)
    ensures v.Str? && v.s != [] ==> r == Failure(StackOverflow())
    decreases Size(v), 1, 0
  {
    if !Truthy(v) then Success(0)
    else if InstanceOf(v, cls) then Success(1)
    else
      match v
      case Arr(items) => CountAll(cls, items)
      case Obj(props) => CountProps(cls, props)
      case Artifact(_, fields) => CountProps(cls, fields)
      case Str(_) => Failure(StackOverflow())
      case _ => Success(0)
  }

  /** `items.map(item => countLeaves(cls, item)).reduce((a, b) => a + b, 0)`:
      the first exception raised aborts the sum. */
  function CountAll(cls: ArtifactClass, items: seq<JsValue>): (r: Result<nat>)
    decreases SizeOfAll(items), 2, |items|
  {
    if items == [] then Success(0)
    else
      var head :- CountLeaves(cls, items[0]);
      var tail :- CountAll(cls, items[1..]);
      Success(head + tail)
  }

  /** The same sum over `Object.values` of an object. */
  function CountProps(cls: ArtifactClass, props: seq<Prop>): (r: Result<nat>)
    decreases SizeOfProps(props), 2, |props|
  {
    if props == [] then Success(0)
    else
      SizeOfProp(props);
      var head :- CountLeaves(cls, props[0].value);
      var tail :- CountProps(cls, props[1..]);
      Success(head + tail)
  }

  /** The count over two lists side by side is the sum of their counts. */
  lemma {:induction false} CountAllAppend(cls: ArtifactClass, a: seq<JsValue>, b: seq<JsValue>)
    requires CountAll(cls, a).Success? && CountAll(cls, b).Success?
    ensures CountAll(cls, a + b) == Success(CountAll(cls, a).value + CountAll(cls, b).value)
    decreases |a|
  {
    if a == [] {
      assert a + b == b;
    } else {
      assert (a + b)[0] == a[0] && (a + b)[1..] == a[1..] + b;
      CountAllAppend(cls, a[1..], b);
    }
  }

  /** A value holds text where the walk reaches a non-empty string before
      it reaches an instance of the class. */
  predicate HasText(cls: ArtifactClass, v: JsValue)
    decreases Size(v), 1, 0
  {
    Truthy(v) && !InstanceOf(v, cls) &&
    match v
    case Str(_) => true
    case Arr(items) => AnyHasText(cls, items)
    case Obj(props) => AnyPropHasText(cls, props)
    case Artifact(_, fields) => AnyPropHasText(cls, fields)
    case _ => false
  }

  predicate AnyHasText(cls: ArtifactClass, items: seq<JsValue>)
    decreases SizeOfAll(items), 2, |items|
  {
    items != [] && (HasText(cls, items[0]) || AnyHasText(cls, items[1..]))
  }

  predicate AnyPropHasText(cls: ArtifactClass, props: seq<Prop>)
    decreases SizeOfProps(props), 2, |props|
  {
    props != [] && (SizeOfProp(props); HasText(cls, props[0].value) || AnyPropHasText(cls, props[1..]))
  }

  /** `countLeaves` throws exactly when the walk meets a non-empty string,
      and then it is the stack that overflows. */
  lemma {:induction false} CountLeavesFails(cls: ArtifactClass, v: JsValue)
    ensures CountLeaves(cls, v).Failure? <==> HasText(cls, v)
    ensures CountLeaves(cls, v).Failure? ==> CountLeaves(cls, v).error == StackOverflow()
    decreases Size(v), 1, 0
  {
    if Truthy(v) && !InstanceOf(v, cls) {
      match v
      case Arr(items) => CountAllFails(cls, items);
      case Obj(props) => CountPropsFails(cls, props);
      case Artifact(_, fields) => CountPropsFails(cls, fields);
      case _ =>
    }
  }

  lemma {:induction false} CountAllFails(cls: ArtifactClass, items: seq<JsValue>)
    ensures CountAll(cls, items).Failure? <==> AnyHasText(cls, items)
    ensures CountAll(cls, items).Failure? ==> CountAll(cls, items).error == StackOverflow()
    decreases SizeOfAll(items), 2, |items|
  {
    if items != [] {
      CountLeavesFails(cls, items[0]);
      CountAllFails(cls, items[1..]);
    }
  }

  lemma {:induction false} CountPropsFails(cls: ArtifactClass, props: seq<Prop>)
    ensures CountProps(cls, props).Failure? <==> AnyPropHasText(cls, props)
    ensures CountProps(cls, props).Failure? ==> CountProps(cls, props).error == StackOverflow()
    decreases SizeOfProps(props), 2, |props|
  {
    if props != [] {
      SizeOfProp(props);
      CountLeavesFails(cls, props[0].value);
      CountPropsFails(cls, props[1..]);
    }
  }

  // ---------------------------------------------------------------------
  // flattenWitnetArtifacts

  /** One entry of the result: the key the artifact was found under, and
      the artifact (always an `Artifact` value). */
  datatype Match = Match(key: string, artifact: JsValue)

  /** The `[key, tree[key]]` pairs a `for ... in` loop visits on an array,
      an object or an artifact: array indices are the decimal texts of the
      positions. */
  function Entries(v: JsValue): (r: seq<Prop>)
    requires v.Arr? || v.Obj? || v.Artifact?
    ensures SizeOfProps(r) < Size(v)
  {
    match v
    case Arr(items) => IndexedSize(items, 0); Indexed(items, 0)
    case Obj(props) => props
    case Artifact(_, fields) => fields
  }

  /** The items of an array keyed by their positions from `offset` on. */
  function Indexed(items: seq<JsValue>, offset: nat): (r: seq<Prop>)
    ensures |r| == |items|
    ensures forall i :: 0 <= i < |items| ==> r[i] == Prop(Decimal(offset + i), items[i])
  {
    if items == [] then [] else [Prop(Decimal(offset), items[0])] + Indexed(items[1..], offset + 1)
  }

  lemma {:induction false} IndexedSize(items: seq<JsValue>, offset: nat)
    ensures SizeOfProps(Indexed(items, offset)) == SizeOfAll(items)
    decreases |items|
  {
    if items != [] {
      IndexedSize(items[1..], offset + 1);
      assert Indexed(items, offset)[1..] == Indexed(items[1..], offset + 1);
    }
  }

  /** The artifacts found in a tree, in the order of the walk: an artifact
      is recorded with its key and not entered; any other value of type
      `object` is entered. A string root is walked character by character,
      and every character is a string, so it yields nothing; so do `null`,
      `undefined`, booleans and numbers. */
  function Flattened(tree: JsValue): (r: seq<Match>)
    ensures forall m :: m in r ==> m.artifact.Artifact?
    decreases Size(tree), 1
  {
    if tree.Arr? || tree.Obj? || tree.Artifact? then FlattenedEntries(Entries(tree)) else []
  }

  /** What one entry of the loop contributes. */
  function FlattenedEntry(key: string, value: JsValue): (r: seq<Match>)
    ensures forall m :: m in r ==> m.artifact.Artifact?
    decreases Size(value), 2
  {
    if value.Artifact? then [Match(key, value)]
    else if IsObjectType(value) then Flattened(value)
    else []
  }

  function FlattenedEntries(entries: seq<Prop>): (r: seq<Match>)
    ensures forall m :: m in r ==> m.artifact.Artifact?
    decreases SizeOfProps(entries), 3, |entries|
  {
    if entries == [] then []
    else
      SizeOfProp(entries);
      FlattenedEntry(entries[0].key, entries[0].value) + FlattenedEntries(entries[1..])
  }

  lemma {:induction false} FlattenedEntriesAppend(a: seq<Prop>, b: seq<Prop>)
    ensures FlattenedEntries(a + b) == FlattenedEntries(a) + FlattenedEntries(b)
    decreases |a|
  {
    if a == [] {
      assert a + b == b;
    } else {
      assert (a + b)[0] == a[0] && (a + b)[1..] == a[1..] + b;
      FlattenedEntriesAppend(a[1..], b);
    }
  }

  lemma FlattenedStep(entries: seq<Prop>, k: nat)
    requires k < |entries|
    ensures FlattenedEntries(entries[..k + 1])
      == FlattenedEntries(entries[..k]) + FlattenedEntry(entries[k].key, entries[k].value)
  {
    FlattenedEntriesAppend(entries[..k], [entries[k]]);
    assert entries[..k + 1] == entries[..k] + [entries[k]];
    assert [entries[k]][1..] == [];
  }

  /** Where a property list sits in the weight of its object. */
  lemma {:induction false} SizeOfPropAt(props: seq<Prop>, k: nat)
    requires k < |props|
    ensures Size(props[k].value) <= SizeOfProps(props)
    decreases k
  {
    SizeOfProp(props);
    if k > 0 {
      SizeOfPropAt(props[1..], k - 1);
    }
  }

  /** `flattenWitnetArtifacts(tree)`: the `for ... in` loop over the
      entries of the tree, pushing every artifact found with its key and
      the matches of every nested object. */
  method FlattenWitnetArtifacts(tree: JsValue) returns (matches: seq<Match>)
    ensures matches == Flattened(tree)
    decreases Size(tree), 1
  {
    matches := [];
    if !(tree.Arr? || tree.Obj? || tree.Artifact?) {
      return;
    }
    var entries := Entries(tree);
    var k := 0;
    while k < |entries|
      invariant k <= |entries|
      invariant matches == FlattenedEntries(entries[..k])
    {
      var key, value := entries[k].key, entries[k].value;
      SizeOfPropAt(entries, k);
      var found := [];
      if value.Artifact? {
        found := [Match(key, value)];
      } else if IsObjectType(value) {
        found := FlattenWitnetArtifacts(value);
      }
      assert found == FlattenedEntry(key, value);
      FlattenedStep(entries, k);
      matches := matches + found;
      k := k + 1;
    }
    assert entries[..k] == entries;
  }

  /** An entry holding an artifact yields that artifact under its key. */
  lemma {:induction false} FlattenedFindsArtifact(entries: seq<Prop>, k: nat)
    requires k < |entries| && entries[k].value.Artifact?
    ensures Match(entries[k].key, entries[k].value) in FlattenedEntries(entries)
    decreases k
  {
    if k > 0 {
      FlattenedFindsArtifact(entries[1..], k - 1);
    }
  }

  /** Where every artifact the walk reaches is of class `cls`, and the
      walk meets no text, `countLeaves` counts exactly the artifacts that
      `flattenWitnetArtifacts` lists. */
  lemma {:induction false} CountLeavesCountsMatches(cls: ArtifactClass, tree: JsValue)
    requires !tree.Artifact? && CountLeaves(cls, tree).Success?
    requires forall m :: m in Flattened(tree) ==> InstanceOf(m.artifact, cls)
    ensures CountLeaves(cls, tree).value == |Flattened(tree)|
    decreases Size(tree), 1, 0
  {
    match tree
    case Arr(items) => CountAllCountsMatches(cls, items, 0);
    case Obj(props) => CountPropsCountsMatches(cls, props);
    case _ =>
  }

  lemma {:induction false} CountAllCountsMatches(cls: ArtifactClass, items: seq<JsValue>, offset: nat)
    requires CountAll(cls, items).Success?
    requires forall m :: m in FlattenedEntries(Indexed(items, offset)) ==> InstanceOf(m.artifact, cls)
    ensures CountAll(cls, items).value == |FlattenedEntries(Indexed(items, offset))|
    decreases SizeOfAll(items), 2, |items|
  {
    if items != [] {
      var e := Indexed(items, offset);
      assert e[0] == Prop(Decimal(offset), items[0]);
      assert e[1..] == Indexed(items[1..], offset + 1);
      EntryCountsMatches(cls, Decimal(offset), items[0]);
      CountAllCountsMatches(cls, items[1..], offset + 1);
    }
  }

  lemma {:induction false} CountPropsCountsMatches(cls: ArtifactClass, props: seq<Prop>)
    requires CountProps(cls, props).Success?
    requires forall m :: m in FlattenedEntries(props) ==> InstanceOf(m.artifact, cls)
    ensures CountProps(cls, props).value == |FlattenedEntries(props)|
    decreases SizeOfProps(props), 2, |props|
  {
    if props != [] {
      SizeOfProp(props);
      EntryCountsMatches(cls, props[0].key, props[0].value);
      CountPropsCountsMatches(cls, props[1..]);
    }
  }

  lemma {:induction false} EntryCountsMatches(cls: ArtifactClass, key: string, v: JsValue)
    requires CountLeaves(cls, v).Success?
    requires forall m :: m in FlattenedEntry(key, v) ==> InstanceOf(m.artifact, cls)
    ensures CountLeaves(cls, v).value == |FlattenedEntry(key, v)|
    decreases Size(v), 1, 1
  {
    if v.Artifact? {
      assert Match(key, v) in FlattenedEntry(key, v);
    } else if v.Arr? || v.Obj? {
      CountLeavesCountsMatches(cls, v);
    }
  }
}
