/** The command-line flag handling of the helpers (src/lib/helpers.js):
    `extractFromArgs`, which takes the declared flags out of the argument
    list in place, and `deleteExtraFlags`, which drops whatever `--` tokens
    are left. */
module Flags {
  import opened Common
  import opened Values

  /** One entry of a flags declaration, in `Object.keys` order: its name
      and its `param` hint, empty when the flag has none (a switch). */
  datatype FlagSpec = FlagSpec(name: string, param: string)

  /** The token that raises a flag on the command line. */
  function Token(name: string): (t: string)
    ensures StartsWith(t, "--") && t[2..] == name
  {
    "--" + name
  }

  /** The argument list the command line hands to `extractFromArgs`; the
      helper removes the tokens it consumes from this very array. */
  class ArgList {
    var items: seq<string>

    constructor (items: seq<string>)
      ensures this.items == items
    {
      this.items := items;
    }
  }

  /** What extraction leaves behind: the remaining arguments, the values
      gathered so far and, when a parameter was missing, the string that
      was thrown (the arguments keep the removals made before it). */
  datatype Extraction = Extraction(rest: seq<string>, curated: map<string, JsValue>, error: Option<JsError>)

  /** `!args[i + 1] || args[i + 1].startsWith('--')`: the token after
      position `i` is no parameter value. */
  predicate MissingValue(items: seq<string>, i: nat) {
    i + 1 >= |items| || items[i + 1] == "" || StartsWith(items[i + 1], "--")
  }

  function MissingParameter(name: string): JsError {
    Thrown("Missing required parameter for --" + name)
  }

  /** One turn of the `forEach`: flag `f` is looked up; when found, it is
      recorded and its token (and its value, for a flag with a parameter)
      is spliced out. */
  function Consume(items: seq<string>, curated: map<string, JsValue>, f: FlagSpec): (e: Extraction)
    ensures |e.rest| <= |items|
  {
    var i := Find(items, Token(f.name));
    if i < 0 then Extraction(items, curated, None)
    else if f.param != "" then
      if MissingValue(items, i) then
        Extraction(items, curated[f.name := Str(Token(f.name))], Some(MissingParameter(f.name)))
      else
        Extraction(items[..i] + items[i + 2..], curated[f.name := Str(items[i + 1])], None)
    else
      Extraction(items[..i] + items[i + 1..], curated[f.name := Bool(true)], None)
  }

  /** The `forEach` over the declared flags, from `items` and `curated` on,
      stopping at the first string thrown. */
  function Extract(items: seq<string>, curated: map<string, JsValue>, flags: seq<FlagSpec>): (e: Extraction)
    ensures |e.rest| <= |items|
    decreases |flags|
  {
    if flags == [] then Extraction(items, curated, None)
    else
      var s := Consume(items, curated, flags[0]);
      if s.error.Some? then s else Extract(s.rest, s.curated, flags[1..])
  }

  /** `extractFromArgs(args, flags)`: `null` stands for a missing argument
      list and `None` for missing flags, in which cases nothing happens.
      The arguments are updated in place; the curated values are returned,
      or the string thrown for a missing parameter. */
  method ExtractFromArgs(args: ArgList?, flags: Option<seq<FlagSpec>>) returns (r: Result<map<string, JsValue>>)
    modifies args
    ensures args == null || flags.None? ==> r == Success(map[]) && (args != null ==> args.items == old(args.items))
    ensures args != null && flags.Some? ==>
      var e := Extract(old(args.items), map[], flags.value);
      args.items == e.rest && (if e.error.None? then r == Success(e.curated) else r == Failure(e.error.value))
  {
    if args == null || flags.None? {
      return Success(map[]);
    }
    var specs := flags.value;
    var curated: map<string, JsValue> := map[];
    var k := 0;
    while k < |specs|
      invariant k <= |specs|
      invariant Extract(args.items, curated, specs[k..]) == Extract(old(args.items), map[], specs)
    {
      var f := specs[k];
      ghost var step := Consume(args.items, curated, f);
      assert specs[k..][1..] == specs[k + 1..];
      var i := Find(args.items, Token(f.name));
      if i >= 0 {
        if f.param != "" {
          curated := curated[f.name := Str(Token(f.name))];
          if MissingValue(args.items, i) {
            return Failure(MissingParameter(f.name));
          }
          curated := curated[f.name := Str(args.items[i + 1])];
          args.items := args.items[..i] + args.items[i + 2..];
        } else {
          curated := curated[f.name := Bool(true)];
          args.items := args.items[..i] + args.items[i + 1..];
        }
      }
      assert step.rest == args.items && step.curated == curated;
      k := k + 1;
    }
    return Success(curated);
  }

  // ---------------------------------------------------------------------
  // Properties of the extraction

  /** One turn only deletes arguments. */
  lemma ConsumeSubsequence(items: seq<string>, curated: map<string, JsValue>, f: FlagSpec)
    ensures IsSubsequence(Consume(items, curated, f).rest, items)
  {
    var i := Find(items, Token(f.name));
    if i >= 0 && f.param != "" && !MissingValue(items, i) {
      RemoveSliceSubsequence(items, i, i + 2);
    } else if i >= 0 && f.param == "" {
      RemoveSliceSubsequence(items, i, i + 1);
    } else {
      SubsequenceRefl(items);
    }
  }

  /** Extraction only deletes arguments, and keeps the others in order. */
  lemma {:induction false} ExtractSubsequence(items: seq<string>, curated: map<string, JsValue>, flags: seq<FlagSpec>)
    ensures IsSubsequence(Extract(items, curated, flags).rest, items)
    decreases |flags|
  {
    if flags == [] {
      SubsequenceRefl(items);
    } else {
      var s := Consume(items, curated, flags[0]);
      ConsumeSubsequence(items, curated, flags[0]);
      if s.error.None? {
        ExtractSubsequence(s.rest, s.curated, flags[1..]);
        SubsequenceTrans(Extract(s.rest, s.curated, flags[1..]).rest, s.rest, items);
      }
    }
  }

  function Names(flags: seq<FlagSpec>): set<string> {
    set f | f in flags :: f.name
  }

  predicate DistinctNames(flags: seq<FlagSpec>) {
    forall i, j :: 0 <= i < j < |flags| ==> flags[i].name != flags[j].name
  }

  /** Extraction adds keys of declared flags only, and leaves every other
      key with the value it had. */
  lemma {:induction false} ExtractKeys(items: seq<string>, curated: map<string, JsValue>, flags: seq<FlagSpec>)
    ensures var e := Extract(items, curated, flags);
      curated.Keys <= e.curated.Keys <= curated.Keys + Names(flags)
    ensures var e := Extract(items, curated, flags);
      forall key :: key in curated && key !in Names(flags) ==> e.curated[key] == curated[key]
    decreases |flags|
  {
    if flags != [] {
      var s := Consume(items, curated, flags[0]);
      assert Names(flags) == {flags[0].name} + Names(flags[1..]);
      if s.error.None? {
        ExtractKeys(s.rest, s.curated, flags[1..]);
      }
    }
  }

  /** What a successful extraction records for a flag: `true` for a switch,
      and for a flag with a parameter a non-empty value that is no flag. */
  predicate Recorded(f: FlagSpec, v: JsValue) {
    if f.param == "" then v == Bool(true) else v.Str? && v.s != "" && !StartsWith(v.s, "--")
  }

  /** Removing a token that is not `t` (and, with it, a value that does
      not start with `--`) neither adds nor removes occurrences of `t`. */
  lemma RemovalKeepsToken(items: seq<string>, i: nat, j: nat, t: string)
    requires i < j <= |items|
    requires forall k :: i <= k < j ==> items[k] != t
    ensures t in items <==> t in items[..i] + items[j..]
  {
    if t in items {
      var k :| 0 <= k < |items| && items[k] == t;
      if k < i {
        assert (items[..i] + items[j..])[k] == t;
      } else {
        assert (items[..i] + items[j..])[k - (j - i)] == t;
      }
    }
  }

  /** A turn that throws nothing records its flag exactly when its token is
      present, with a value of the flag's kind. */
  lemma ConsumeRecords(items: seq<string>, curated: map<string, JsValue>, f: FlagSpec)
    requires Consume(items, curated, f).error.None?
    ensures var s := Consume(items, curated, f);
      (f.name in s.curated <==> f.name in curated || Token(f.name) in items)
      && (Token(f.name) in items ==> Recorded(f, s.curated[f.name]))
  {
  }

  /** A flag with a parameter that is found takes two tokens out. */
  lemma ConsumeSplicesTwo(items: seq<string>, curated: map<string, JsValue>, f: FlagSpec, i: int)
    requires i == Find(items, Token(f.name)) && i >= 0 && f.param != "" && !MissingValue(items, i)
    ensures Consume(items, curated, f).rest == items[..i] + items[i + 2..]
  {
  }

  /** A switch that is found takes its own token out. */
  lemma ConsumeSplicesOne(items: seq<string>, curated: map<string, JsValue>, f: FlagSpec, i: int)
    requires i == Find(items, Token(f.name)) && i >= 0 && f.param == ""
    ensures Consume(items, curated, f).rest == items[..i] + items[i + 1..]
  {
  }

  /** A turn that throws nothing keeps every other flag's token. */
  lemma ConsumeKeepsToken(items: seq<string>, curated: map<string, JsValue>, f: FlagSpec, t: string)
    requires Consume(items, curated, f).error.None?
    requires StartsWith(t, "--") && t != Token(f.name)
    ensures t in items <==> t in Consume(items, curated, f).rest
  {
    var i := Find(items, Token(f.name));
    if i < 0 {
      assert Consume(items, curated, f).rest == items;
    } else if f.param != "" {
      assert !MissingValue(items, i);
      assert items[i + 1] != t;
      ConsumeSplicesTwo(items, curated, f, i);
      RemovalKeepsToken(items, i, i + 2, t);
    } else {
      ConsumeSplicesOne(items, curated, f, i);
      RemovalKeepsToken(items, i, i + 1, t);
    }
  }

  /** A successful extraction with distinct flag names records exactly the
      flags whose token was among the arguments, each with a value of its
      kind. */
  lemma {:induction false} ExtractRecords(items: seq<string>, curated: map<string, JsValue>, flags: seq<FlagSpec>)
    requires DistinctNames(flags) && Extract(items, curated, flags).error.None?
    ensures var e := Extract(items, curated, flags);
      forall f :: f in flags ==> (f.name in e.curated <==> f.name in curated || Token(f.name) in items)
    ensures var e := Extract(items, curated, flags);
      forall f :: f in flags && Token(f.name) in items ==> Recorded(f, e.curated[f.name])
    decreases |flags|
  {
    if flags != [] {
      var f := flags[0];
      var s := Consume(items, curated, f);
      var e := Extract(items, curated, flags);
      assert DistinctNames(flags[1..]);
      assert e == Extract(s.rest, s.curated, flags[1..]);
      ExtractRecords(s.rest, s.curated, flags[1..]);
      ExtractKeys(s.rest, s.curated, flags[1..]);
      ConsumeRecords(items, curated, f);
      assert f.name !in Names(flags[1..]);
      forall g | g in flags[1..]
        ensures Token(g.name) in items <==> Token(g.name) in s.rest
        ensures g.name in s.curated <==> g.name in curated
      {
        assert g.name in Names(flags[1..]);
        assert Token(g.name)[2..] == g.name && Token(f.name)[2..] == f.name;
        ConsumeKeepsToken(items, curated, f, Token(g.name));
      }
    }
  }

  /** An extraction that fails names a declared flag with a parameter. */
  lemma {:induction false} ExtractErrorNamesFlag(items: seq<string>, curated: map<string, JsValue>, flags: seq<FlagSpec>)
    requires Extract(items, curated, flags).error.Some?
    ensures exists f :: f in flags && f.param != "" && Extract(items, curated, flags).error.value == MissingParameter(f.name)
    decreases |flags|
  {
    var f := flags[0];
    var s := Consume(items, curated, f);
    if s.error.Some? {
      assert s.error.value == MissingParameter(f.name) && f.param != "";
    } else {
      ExtractErrorNamesFlag(s.rest, s.curated, flags[1..]);
      var g :| g in flags[1..] && g.param != "" && Extract(s.rest, s.curated, flags[1..]).error.value == MissingParameter(g.name);
      assert g in flags;
    }
  }

  /** `--gas` given last, without its value: the flag is recorded with its
      own token and the thrown string names it; nothing is removed. */
  lemma MissingParameterExample()
    ensures Extract(["deploy", "--gas"], map[], [FlagSpec("gas", ":number")])
      == Extraction(["deploy", "--gas"], map["gas" := Str("--gas")], Some(Thrown("Missing required parameter for --gas")))
  {
    var items := ["deploy", "--gas"];
    assert Token("gas") == "--gas";
    assert items[0] != Token("gas") && items[1] == Token("gas");
    assert Find(items, Token("gas")) == 1;
    assert MissingValue(items, 1);
    assert MissingParameter("gas") == Thrown("Missing required parameter for --gas");
    assert map[]["gas" := Str(Token("gas"))] == map["gas" := Str("--gas")];
  }

  /** A flag with a parameter takes the token after it. */
  lemma ParameterExample()
    ensures Extract(["--indent", "4", "x"], map[], [FlagSpec("indent", ":number")])
      == Extraction(["x"], map["indent" := Str("4")], None)
  {
    var items := ["--indent", "4", "x"];
    assert Token("indent") == "--indent";
    assert items[0] == Token("indent");
    assert !StartsWith("4", "--");
    assert Find(items, Token("indent")) == 0;
    assert items[..0] + items[2..] == ["x"];
  }

  // ---------------------------------------------------------------------
  // deleteExtraFlags

  /** `args.filter(arg => !arg.startsWith('--'))`. */
  function DeleteExtraFlags(args: seq<string>): (r: seq<string>)
    ensures |r| <= |args|
    ensures forall x :: x in r <==> x in args && !StartsWith(x, "--")
    ensures forall x :: multiset(r)[x] == if StartsWith(x, "--") then 0 else multiset(args)[x]
  {
    if args == [] then []
    else
      assert args == [args[0]] + args[1..];
      (if StartsWith(args[0], "--") then [] else [args[0]]) + DeleteExtraFlags(args[1..])
  }

  /** The filter keeps the remaining arguments in their order. */
  lemma {:induction false} DeleteExtraFlagsSubsequence(args: seq<string>)
    ensures IsSubsequence(DeleteExtraFlags(args), args)
    decreases |args|
  {
    if args != [] {
      DeleteExtraFlagsSubsequence(args[1..]);
      var r := DeleteExtraFlags(args);
      if StartsWith(args[0], "--") {
        assert r == DeleteExtraFlags(args[1..]);
        if r != [] {
          assert IsSubsequence(r, args[1..]);
        }
      } else {
        assert r[0] == args[0] && r[1..] == DeleteExtraFlags(args[1..]);
      }
    }
  }

  /** Filtering twice is filtering once. */
  lemma {:induction false} DeleteExtraFlagsIdempotent(args: seq<string>)
    ensures DeleteExtraFlags(DeleteExtraFlags(args)) == DeleteExtraFlags(args)
    decreases |args|
  {
    if args != [] {
      DeleteExtraFlagsIdempotent(args[1..]);
      var rest := DeleteExtraFlags(args[1..]);
      if StartsWith(args[0], "--") {
        assert [] + rest == rest;
      } else {
        assert ([args[0]] + rest)[0] == args[0] && ([args[0]] + rest)[1..] == rest;
      }
    }
  }
}
