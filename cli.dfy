/** The argument handling of the `decode` and `dryRun` commands of the
    Radon command line (src/lib/cli/radon.js:205-333), and
    `extractTypeName` (src/lib/cli/radon.js:340).

    Both commands take the asset pattern from the front of the command
    line arguments, select the artifacts whose key contains it, and hand
    every selected template or retrieval its arguments from one shared
    array that `splice(0, n)` consumes front to back. Loading the asset
    files, building requests from templates and printing the reports are
    not part of this model: the asset tree is a parameter, and what each
    selected artifact would be built with is the result. */
module RadonCli {
  import opened Common
  import opened Values
  import Hex
  import opened Artifacts
  import opened Flags

  // ---------------------------------------------------------------------
  // extractTypeName

  /** `extractTypeName(str)`: `"Any"` for a missing or empty name,
      otherwise the name without its first capitalised word. */
  function ExtractTypeName(name: Option<string>): (r: string)
    ensures name.None? || name.value == [] ==> r == "Any"
    ensures name.Some? && name.value != [] ==>
      && |r| < |name.value|
      && r == name.value[|name.value| - |r|..]
      && (r == [] || IsUpper(r[0]))
      && forall j :: 1 <= j < |name.value| - |r| ==> !IsUpper(name.value[j])
  {
    if name.None? || name.value == [] then "Any" else DropFirstWord(name.value)
  }

  lemma TypeNameExamples()
    ensures ExtractTypeName(Some("RadonString")) == "String"
    ensures ExtractTypeName(Some("Radon")) == ""
    ensures ExtractTypeName(None) == "Any"
  {
    var s := "RadonString";
    assert FirstUpperFrom(s, 1) == 5 by {
      assert IsUpper(s[5]);
      assert FirstUpperFrom(s, 4) == 5;
      assert FirstUpperFrom(s, 3) == 5;
      assert FirstUpperFrom(s, 2) == 5;
    }
    var t := "Radon";
    assert FirstUpperFrom(t, 1) == 5 by {
      assert FirstUpperFrom(t, 4) == 5;
      assert FirstUpperFrom(t, 3) == 5;
      assert FirstUpperFrom(t, 2) == 5;
    }
  }

  // ---------------------------------------------------------------------
  // Selecting the crafts

  /** `key.toLowerCase().indexOf(pattern.toLowerCase()) >= 0`. */
  predicate KeyMatches(key: string, pattern: string) {
    IndexOf(Lower(key), Lower(pattern)) >= 0
  }

  /** The `filter` over the flattened artifacts. */
  function Selected(ms: seq<Match>, pattern: string): (r: seq<Match>)
    ensures |r| <= |ms|
    ensures forall m :: m in r <==> m in ms && KeyMatches(m.key, pattern)
  {
    if ms == [] then []
    else (if KeyMatches(ms[0].key, pattern) then [ms[0]] else []) + Selected(ms[1..], pattern)
  }

  /** The selection keeps the order of the walk. */
  lemma {:induction false} SelectedKeepsOrder(ms: seq<Match>, pattern: string)
    ensures IsSubsequence(Selected(ms, pattern), ms)
  {
    if ms != [] {
      SelectedKeepsOrder(ms[1..], pattern);
      var r := Selected(ms, pattern);
      if KeyMatches(ms[0].key, pattern) {
        assert r[0] == ms[0] && r[1..] == Selected(ms[1..], pattern);
      } else {
        assert r == Selected(ms[1..], pattern);
      }
    }
  }

  lemma LowerCharTwice(c: char)
    ensures LowerChar(LowerChar(c)) == LowerChar(c)
  {
  }

  /** Lower-casing twice is lower-casing once. */
  lemma LowerTwice(s: string)
    ensures Lower(Lower(s)) == Lower(s)
  {
    forall i | 0 <= i < |s|
      ensures Lower(Lower(s))[i] == Lower(s)[i]
    {
      LowerCharTwice(s[i]);
    }
  }

  /** The match ignores the case of the pattern and of the key, and the
      empty pattern selects every key. */
  lemma KeyMatchesIgnoresCase(key: string, pattern: string)
    ensures KeyMatches(key, pattern) <==> KeyMatches(Lower(key), Lower(pattern))
    ensures KeyMatches(key, "")
  {
    LowerTwice(key);
    LowerTwice(pattern);
    assert OccursAt(Lower(key), Lower(""), 0);
  }

  /** `indexOf` finds a pattern exactly when it occurs somewhere. */
  lemma IndexOfFinds(s: string, pat: string)
    ensures IndexOf(s, pat) >= 0 <==> exists i :: OccursAt(s, pat, i)
  {
    var r := IndexOfFrom(s, pat, 0);
    assert IndexOf(s, pat) == r;
    if r >= 0 {
      assert OccursAt(s, pat, r);
    }
    if exists i :: OccursAt(s, pat, i) {
      var i :| OccursAt(s, pat, i);
      assert 0 <= i <= |s|;
      assert r != -1;
    }
  }

  /** A match is an occurrence of the lower-cased pattern in the
      lower-cased key. */
  lemma KeyMatchesOccurs(key: string, pattern: string)
    ensures KeyMatches(key, pattern) <==> exists i :: OccursAt(Lower(key), Lower(pattern), i)
  {
    IndexOfFinds(Lower(key), Lower(pattern));
    if KeyMatches(key, pattern) {
      assert exists j :: OccursAt(Lower(key), Lower(pattern), j);
    }
  }

  // ---------------------------------------------------------------------
  // Taking arguments from the shared array

  /** How many entries `splice(0, n)` removes. */
  function Took(items: seq<string>, n: nat): (k: nat)
    ensures k <= |items| && k <= n
    ensures k < n ==> k == |items|
  {
    if n <= |items| then n else |items|
  }

  /** The template literal `{:${k}}`. */
  function Placeholder(k: nat): string {
    "{:" + Decimal(k) + "}"
  }

  /** The arguments taken, followed by placeholders that each name their
      own position, up to `count` entries. */
  function Padded(taken: seq<string>, count: nat): (r: seq<string>)
    requires |taken| <= count
    ensures |r| == count
    ensures forall k :: 0 <= k < |taken| ==> r[k] == taken[k]
    ensures forall k :: |taken| <= k < count ==> r[k] == Placeholder(k)
  {
    taken + seq(count - |taken|, i requires 0 <= i < count - |taken| => Placeholder(|taken| + i))
  }

  /** `decode`'s slot for one retrieval: `splice(0, count)` and then the
      padding loop. */
  method FillSlot(args: ArgList, count: nat) returns (slot: seq<string>)
    modifies args
    ensures slot == Padded(old(args.items)[..Took(old(args.items), count)], count)
    ensures args.items == old(args.items)[Took(old(args.items), count)..]
  {
    var n := Took(args.items, count);
    slot := args.items[..n];
    ghost var taken := slot;
    args.items := args.items[n..];
    PaddedNothing(taken);
    while |slot| < count
      invariant n <= |slot| <= count
      invariant slot == Padded(taken, |slot|)
      invariant args.items == old(args.items)[n..]
    {
      PaddedStep(taken, |slot|);
      slot := slot + [Placeholder(|slot|)];
    }
    assert |slot| == count && taken == old(args.items)[..n];
  }

  lemma PaddedNothing(taken: seq<string>)
    ensures Padded(taken, |taken|) == taken
  {
  }

  /** One more turn of the padding loop. */
  lemma PaddedStep(taken: seq<string>, count: nat)
    requires |taken| <= count
    ensures Padded(taken, count) + [Placeholder(count)] == Padded(taken, count + 1)
  {
  }

  /** The slots `decode` fills for a template whose retrievals need
      `counts[0]`, `counts[1]`, ... arguments. */
  function Slots(items: seq<string>, counts: seq<nat>): (r: seq<seq<string>>)
    ensures |r| == |counts|
    ensures forall i :: 0 <= i < |counts| ==> |r[i]| == counts[i]
  {
    if counts == [] then []
    else
      var n := Took(items, counts[0]);
      [Padded(items[..n], counts[0])] + Slots(items[n..], counts[1..])
  }

  /** What is left of the shared array after those slots. */
  function Leftover(items: seq<string>, counts: seq<nat>): seq<string> {
    if counts == [] then items
    else Leftover(items[Took(items, counts[0])..], counts[1..])
  }

  function Sum(counts: seq<nat>): nat {
    if counts == [] then 0 else counts[0] + Sum(counts[1..])
  }

  function Concat(slots: seq<seq<string>>): seq<string> {
    if slots == [] then [] else slots[0] + Concat(slots[1..])
  }

  /** The slots consume the front of the array: exactly as many entries
      as the counts add up to, or all of them. */
  lemma {:induction false} LeftoverDrops(items: seq<string>, counts: seq<nat>)
    ensures Leftover(items, counts) == items[Took(items, Sum(counts))..]
  {
    if counts != [] {
      var n := Took(items, counts[0]);
      LeftoverDrops(items[n..], counts[1..]);
      assert items[n..][Took(items[n..], Sum(counts[1..]))..] == items[Took(items, Sum(counts))..];
    }
  }

  /** With enough arguments no placeholder is needed: the slots, laid end
      to end, are the front of the array in its order. */
  lemma {:induction false} SlotsExact(items: seq<string>, counts: seq<nat>)
    requires Sum(counts) <= |items|
    ensures Concat(Slots(items, counts)) == items[..Sum(counts)]
  {
    if counts != [] {
      var n := counts[0];
      assert Sum(counts) == n + Sum(counts[1..]);
      assert Took(items, n) == n;
      SlotsExact(items[n..], counts[1..]);
      var slot := Padded(items[..n], n);
      assert slot == items[..n];
      var rest := Slots(items[n..], counts[1..]);
      assert Slots(items, counts) == [slot] + rest;
      assert ([slot] + rest)[1..] == rest;
      assert Concat(Slots(items, counts)) == slot + Concat(rest);
      assert items[..n] + items[n..][..Sum(counts[1..])] == items[..Sum(counts)];
    }
  }

  /** With no arguments left every slot is all placeholders. */
  lemma {:induction false} SlotsOfNothing(counts: seq<nat>, i: nat)
    requires i < |counts|
    ensures Slots([], counts)[i] == Padded([], counts[i])
  {
    if i > 0 {
      SlotsOfNothing(counts[1..], i - 1);
    }
  }

  /** `decode`'s template branch: one slot per retrieval, in order. */
  method DistributeTemplateArgs(args: ArgList, counts: seq<nat>) returns (templateArgs: seq<seq<string>>)
    modifies args
    ensures templateArgs == Slots(old(args.items), counts)
    ensures args.items == Leftover(old(args.items), counts)
  {
    ghost var total := Slots(args.items, counts);
    ghost var left := Leftover(args.items, counts);
    assert counts[0..] == counts;
    templateArgs := [];
    var i := 0;
    while i < |counts|
      invariant i <= |counts|
      invariant templateArgs + Slots(args.items, counts[i..]) == total
      invariant Leftover(args.items, counts[i..]) == left
    {
      ghost var before := args.items;
      var slot := FillSlot(args, counts[i]);
      DistributeStep(templateArgs, before, counts, i, slot, total, left);
      templateArgs := templateArgs + [slot];
      i := i + 1;
    }
    assert i == |counts| && counts[i..] == [];
  }

  /** One turn of the template loop: the slot it fills is the next of
      `Slots`, and the rest of the array has the same leftover. */
  lemma DistributeStep(done: seq<seq<string>>, items: seq<string>, counts: seq<nat>, i: nat, slot: seq<string>,
                       total: seq<seq<string>>, left: seq<string>)
    requires i < |counts|
    requires done + Slots(items, counts[i..]) == total && Leftover(items, counts[i..]) == left
    requires slot == Padded(items[..Took(items, counts[i])], counts[i])
    ensures (done + [slot]) + Slots(items[Took(items, counts[i])..], counts[i + 1..]) == total
    ensures Leftover(items[Took(items, counts[i])..], counts[i + 1..]) == left
  {
    assert counts[i..][0] == counts[i] && counts[i..][1..] == counts[i + 1..];
    var rest := Slots(items[Took(items, counts[i])..], counts[i + 1..]);
    assert Slots(items, counts[i..]) == [slot] + rest;
    assert (done + [slot]) + rest == done + ([slot] + rest);
  }

  // ---------------------------------------------------------------------
  // dryRun: no padding, a short slot throws

  function ShortTemplate(index: nat, got: nat, count: nat): JsError {
    Thrown("Exact number of template args must be provided for retrieval #" + Decimal(index + 1)
      + " (" + Decimal(got) + " < " + Decimal(count) + ")")
  }

  /** `dryRun`'s template branch, from the retrieval numbered `index`. */
  function StrictSlots(items: seq<string>, counts: seq<nat>, index: nat): (r: Result<seq<seq<string>>>)
    ensures r.Success? ==> |r.value| == |counts|
  {
    if counts == [] then Success([])
    else
      var n := Took(items, counts[0]);
      if n < counts[0] then Failure(ShortTemplate(index, n, counts[0]))
      else
        var rest :- StrictSlots(items[n..], counts[1..], index + 1);
        Success([items[..n]] + rest)
  }

  /** The dry run accepts a template exactly when there are enough
      arguments for all its retrievals, and then fills the same slots as
      `decode`. */
  lemma {:induction false} StrictSlotsAgree(items: seq<string>, counts: seq<nat>, index: nat)
    ensures StrictSlots(items, counts, index).Success? <==> Sum(counts) <= |items|
    ensures StrictSlots(items, counts, index).Success? ==> StrictSlots(items, counts, index).value == Slots(items, counts)
  {
    if counts != [] {
      var n := Took(items, counts[0]);
      StrictSlotsAgree(items[n..], counts[1..], index + 1);
      if n == counts[0] {
        assert Padded(items[..n], n) == items[..n];
      }
    }
  }

  /** A result with some slots before it. */
  function Prepend<T>(front: seq<T>, r: Result<seq<T>>): Result<seq<T>> {
    if r.Failure? then r else Success(front + r.value)
  }

  lemma PrependNothing<T>(r: Result<seq<T>>)
    ensures Prepend([], r) == r
    ensures r.Success? ==> Prepend(r.value, Success([])) == r
  {
    if r.Success? {
      assert [] + r.value == r.value;
      assert r.value + [] == r.value;
    }
  }

  lemma PrependTwice<T>(a: seq<T>, b: seq<T>, r: Result<seq<T>>)
    ensures Prepend(a, Prepend(b, r)) == Prepend(a + b, r)
  {
    if r.Success? {
      assert a + (b + r.value) == (a + b) + r.value;
    }
  }

  /** `dryRun`'s template branch: slots are spliced off one by one, and a
      short one throws once it has taken all that was left. */
  method StrictTemplateArgs(args: ArgList, counts: seq<nat>) returns (r: Result<seq<seq<string>>>)
    modifies args
    ensures r == StrictSlots(old(args.items), counts, 0)
    ensures r.Success? ==> args.items == Leftover(old(args.items), counts)
    ensures r.Failure? ==> args.items == []
  {
    var templateArgs: seq<seq<string>> := [];
    var i := 0;
    assert counts[0..] == counts;
    PrependNothing(StrictSlots(args.items, counts, 0));
    while i < |counts|
      invariant i <= |counts|
      invariant StrictSlots(old(args.items), counts, 0) == Prepend(templateArgs, StrictSlots(args.items, counts[i..], i))
      invariant Leftover(args.items, counts[i..]) == Leftover(old(args.items), counts)
    {
      assert counts[i..][0] == counts[i] && counts[i..][1..] == counts[i + 1..];
      ghost var before := args.items;
      var n := Took(args.items, counts[i]);
      var slot := args.items[..n];
      args.items := args.items[n..];
      if n < counts[i] {
        assert StrictSlots(before, counts[i..], i) == Failure(ShortTemplate(i, n, counts[i]));
        return Failure(ShortTemplate(i, n, counts[i]));
      }
      var rest := StrictSlots(args.items, counts[i + 1..], i + 1);
      assert StrictSlots(before, counts[i..], i) == Prepend([slot], rest);
      PrependTwice(templateArgs, [slot], rest);
      templateArgs := templateArgs + [slot];
      i := i + 1;
    }
    assert StrictSlots(args.items, counts[i..], i) == Success([]);
    PrependNothing(Success(templateArgs));
    return Success(templateArgs);
  }

  // ---------------------------------------------------------------------
  // One selected craft

  /** What a selected artifact is built with: the prefix of its headline,
      its key, and the argument slots handed to `buildRequest` (one per
      retrieval) or to `foldArgs` (a single one). */
  datatype Prepared = Prepared(prefix: string, key: string, slots: seq<seq<string>>)

  /** `decode`'s handling of one craft, and what it leaves of the shared
      array. */
  function DecodeCraft(queue: seq<string>, m: Match): (r: (Prepared, seq<string>))
    ensures r.0.key == m.key
  {
    match m.artifact
    case Artifact(Request, _) => (Prepared("RadonRequest::", m.key, []), queue)
    case Artifact(Template(counts), _) =>
      (Prepared("RadonTemplate::", m.key, Slots(queue, counts)), Leftover(queue, counts))
    case Artifact(Retrieval(count), _) =>
      if count > 0 then
        var n := Took(queue, count);
        (Prepared("RadonRetrieval::", m.key, [Padded(queue[..n], count)]), queue[n..])
      else (Prepared("RadonRetrieval::", m.key, []), queue)
    case _ => (Prepared("", m.key, []), queue)
  }

  /** A retrieval that needs no argument leaves the shared array alone. */
  lemma RetrievalWithoutArgs(queue: seq<string>, key: string, fields: seq<Prop>)
    ensures DecodeCraft(queue, Match(key, Artifact(Retrieval(0), fields))) == (Prepared("RadonRetrieval::", key, []), queue)
  {
  }

  /** `dryRun`'s handling of one craft. A short retrieval throws, but the
      message reads `retrieval.argsCount` of a variable that is not
      declared there, so what surfaces is a `ReferenceError`. */
  function DryRunCraft(queue: seq<string>, m: Match): (r: (Result<Prepared>, seq<string>))
    ensures r.0.Success? ==> r.0.value.key == m.key
  {
    match m.artifact
    case Artifact(Request, _) => (Success(Prepared("RadonRequest::", m.key, [])), queue)
    case Artifact(Template(counts), _) =>
      var slots := StrictSlots(queue, counts, 0);
      if slots.Failure? then (Failure(slots.error), [])
      else (Success(Prepared("RadonTemplate::", m.key, slots.value)), Leftover(queue, counts))
    case Artifact(Retrieval(count), _) =>
      if count > 0 then
        var n := Took(queue, count);
        if n < count then (Failure(ReferenceError("retrieval is not defined")), queue[n..])
        else (Success(Prepared("RadonRetrieval::", m.key, [queue[..n]])), queue[n..])
      else (Success(Prepared("RadonRetrieval::", m.key, [])), queue)
    case _ => (Success(Prepared("", m.key, [])), queue)
  }

  /** Where the dry run accepts a craft it prepares it exactly as `decode`
      does and leaves the same arguments. */
  lemma DryRunCraftAgrees(queue: seq<string>, m: Match)
    requires DryRunCraft(queue, m).0.Success?
    ensures DryRunCraft(queue, m).0.value == DecodeCraft(queue, m).0
    ensures DryRunCraft(queue, m).1 == DecodeCraft(queue, m).1
  {
    if m.artifact.Artifact? && m.artifact.kind.Template? {
      StrictSlotsAgree(queue, m.artifact.kind.argsCounts, 0);
    }
    if m.artifact.Artifact? && m.artifact.kind.Retrieval? && m.artifact.kind.argsCount > 0 {
      var count := m.artifact.kind.argsCount;
      assert Padded(queue[..count], count) == queue[..count];
    }
  }

  method PrepareForDecode(args: ArgList, m: Match) returns (p: Prepared)
    modifies args
    ensures (p, args.items) == DecodeCraft(old(args.items), m)
  {
    match m.artifact
    case Artifact(Request, _) =>
      p := Prepared("RadonRequest::", m.key, []);
    case Artifact(Template(counts), _) =>
      var templateArgs := DistributeTemplateArgs(args, counts);
      p := Prepared("RadonTemplate::", m.key, templateArgs);
    case Artifact(Retrieval(count), _) =>
      if count > 0 {
        var retrievalArgs := FillSlot(args, count);
        p := Prepared("RadonRetrieval::", m.key, [retrievalArgs]);
      } else {
        p := Prepared("RadonRetrieval::", m.key, []);
      }
    case _ =>
      p := Prepared("", m.key, []);
  }

  method PrepareForDryRun(args: ArgList, m: Match) returns (p: Result<Prepared>)
    modifies args
    ensures (p, args.items) == DryRunCraft(old(args.items), m)
  {
    match m.artifact
    case Artifact(Request, _) =>
      p := Success(Prepared("RadonRequest::", m.key, []));
    case Artifact(Template(counts), _) =>
      var templateArgs := StrictTemplateArgs(args, counts);
      if templateArgs.Failure? {
        p := Failure(templateArgs.error);
      } else {
        p := Success(Prepared("RadonTemplate::", m.key, templateArgs.value));
      }
    case Artifact(Retrieval(count), _) =>
      if count > 0 {
        var n := Took(args.items, count);
        var retrievalArgs := args.items[..n];
        args.items := args.items[n..];
        if n < count {
          p := Failure(ReferenceError("retrieval is not defined"));
        } else {
          p := Success(Prepared("RadonRetrieval::", m.key, [retrievalArgs]));
        }
      } else {
        p := Success(Prepared("RadonRetrieval::", m.key, []));
      }
    case _ =>
      p := Success(Prepared("", m.key, []));
  }

  // ---------------------------------------------------------------------
  // All selected crafts, sharing one array

  /** `decode`'s `forEach` over the selected crafts: each takes its
      arguments from what the previous ones left. */
  function DecodeAll(queue: seq<string>, crafts: seq<Match>): (r: seq<Prepared>)
    ensures |r| == |crafts|
    decreases |crafts|
  {
    if crafts == [] then []
    else
      var (p, rest) := DecodeCraft(queue, crafts[0]);
      [p] + DecodeAll(rest, crafts[1..])
  }

  /** Each prepared craft is under the key of the artifact it came from. */
  lemma {:induction false} DecodeAllKeys(queue: seq<string>, crafts: seq<Match>)
    ensures forall i :: 0 <= i < |crafts| ==> DecodeAll(queue, crafts)[i].key == crafts[i].key
    decreases |crafts|
  {
    if crafts != [] {
      var (p, rest) := DecodeCraft(queue, crafts[0]);
      DecodeAllKeys(rest, crafts[1..]);
      assert DecodeAll(queue, crafts) == [p] + DecodeAll(rest, crafts[1..]);
    }
  }

  /** Two templates sharing the arguments: the first takes the front, the
      second gets the rest and placeholders. */
  lemma SharedArgsExample()
    ensures DecodeAll(["a", "b", "c"], [Match("x", Artifact(Template([2]), [])), Match("y", Artifact(Template([2]), []))])
      == [Prepared("RadonTemplate::", "x", [["a", "b"]]), Prepared("RadonTemplate::", "y", [["c", "{:1}"]])]
  {
    var q := ["a", "b", "c"];
    assert Slots(q, [2]) == [q[..2]] by {
      assert Padded(q[..2], 2) == q[..2];
    }
    assert Leftover(q, [2]) == ["c"];
    var p := Padded(["c"], 2);
    assert Decimal(1) == "1";
    assert p[1] == Placeholder(1) == "{:1}";
    assert p == ["c", "{:1}"];
    assert ["c"][..Took(["c"], 2)] == ["c"];
    assert Slots(["c"], [2]) == [p];
    assert Leftover(["c"], [2]) == [];
    var crafts := [Match("x", Artifact(Template([2]), [])), Match("y", Artifact(Template([2]), []))];
    var second := Prepared("RadonTemplate::", "y", [p]);
    assert DecodeCraft(["c"], crafts[1]) == (second, []);
    assert crafts[1..][0] == crafts[1] && crafts[1..][1..] == [];
    assert [second] + [] == [second];
    assert DecodeAll(["c"], crafts[1..]) == [second];
    var first := Prepared("RadonTemplate::", "x", [q[..2]]);
    assert DecodeCraft(q, crafts[0]) == (first, ["c"]);
    assert DecodeAll(q, crafts) == [first] + [second];
    assert [first] + [second] == [first, second];
    assert q[..2] == ["a", "b"];
  }

  /** The dry run over all the selected crafts, each after the previous
      one, as the loop is evidently meant to run. A headline that cannot
      be set (no options object) throws at the first craft; so does the
      report of the first craft when it throws (`reportThrows`, see
      `ReportError`). */
  function DryRunAll(queue: seq<string>, crafts: seq<Match>, hasOptions: bool, reportThrows: bool): (r: Result<seq<Prepared>>)
    ensures r.Success? ==> |r.value| == |crafts|
    ensures r.Success? && crafts != [] ==> hasOptions && !reportThrows
    decreases |crafts|
  {
    if crafts == [] then Success([])
    else
      var (p, rest) := DryRunCraft(queue, crafts[0]);
      if p.Failure? then Failure(p.error)
      else if !hasOptions then Failure(HeadlineError())
      else if reportThrows then Failure(ReportError())
      else
        var more :- DryRunAll(rest, crafts[1..], hasOptions, reportThrows);
        Success([p.value] + more)
  }

  /** The dry run as written: after the first craft the separator line
      reads the undeclared `indent`, so a second craft is never reached.
      Up to one craft it is the intended dry run; with more, it is the
      intended dry run of the first craft alone, and where that goes
      through it fails with the `ReferenceError`. */
  function DryRunAsWritten(queue: seq<string>, crafts: seq<Match>, hasOptions: bool, reportThrows: bool): (r: Result<seq<Prepared>>)
    ensures |crafts| <= 1 ==> r == DryRunAll(queue, crafts, hasOptions, reportThrows)
    ensures |crafts| >= 2 ==> r == if DryRunAll(queue, crafts[..1], hasOptions, reportThrows).Failure? then DryRunAll(queue, crafts[..1], hasOptions, reportThrows)
      else Failure(ReferenceError("indent is not defined"))
  {
    if crafts == [] then Success([])
    else
      var (p, rest) := DryRunCraft(queue, crafts[0]);
      assert DryRunAll(rest, [], hasOptions, reportThrows) == Success([]);
      assert crafts[..1][0] == crafts[0] && crafts[..1][1..] == [];
      assert |crafts| == 1 ==> crafts[1..] == [];
      if p.Failure? then Failure(p.error)
      else if !hasOptions then Failure(HeadlineError())
      else if reportThrows then Failure(ReportError())
      else if |crafts| > 1 then Failure(ReferenceError("indent is not defined"))
      else
        assert [p.value] + [] == [p.value];
        Success([p.value])
  }

  /** Two plain requests: as written the dry run throws a
      `ReferenceError`; as intended it prepares both. */
  lemma DryRunTwoRequests()
    ensures var crafts := [Match("a", Artifact(Request, [])), Match("b", Artifact(Request, []))];
      && DryRunAsWritten([], crafts, true, false) == Failure(ReferenceError("indent is not defined"))
      && DryRunAll([], crafts, true, false) == Success([Prepared("RadonRequest::", "a", []), Prepared("RadonRequest::", "b", [])])
  {
    var crafts := [Match("a", Artifact(Request, [])), Match("b", Artifact(Request, []))];
    assert DryRunCraft([], crafts[1]) == (Success(Prepared("RadonRequest::", "b", [])), []);
    assert DryRunCraft([], crafts[0]) == (Success(Prepared("RadonRequest::", "a", [])), []);
    assert crafts[1..][0] == crafts[1] && crafts[1..][1..] == [];
    assert DryRunAll([], crafts[1..][1..], true, false) == Success([]);
    assert [Prepared("RadonRequest::", "b", [])] + [] == [Prepared("RadonRequest::", "b", [])];
    assert DryRunAll([], crafts[1..], true, false) == Success([Prepared("RadonRequest::", "b", [])]);
    assert [Prepared("RadonRequest::", "a", [])] + [Prepared("RadonRequest::", "b", [])] == [Prepared("RadonRequest::", "a", []), Prepared("RadonRequest::", "b", [])];
  }

  /** A dry run that goes through prepares every craft exactly as
      `decode` does. */
  lemma {:induction false} DryRunAllAgrees(queue: seq<string>, crafts: seq<Match>, hasOptions: bool, reportThrows: bool)
    requires DryRunAll(queue, crafts, hasOptions, reportThrows).Success?
    ensures DryRunAll(queue, crafts, hasOptions, reportThrows).value == DecodeAll(queue, crafts)
    decreases |crafts|
  {
    if crafts != [] {
      DryRunCraftAgrees(queue, crafts[0]);
      var (p, rest) := DryRunCraft(queue, crafts[0]);
      DryRunAllAgrees(rest, crafts[1..], hasOptions, reportThrows);
    }
  }

  // ---------------------------------------------------------------------
  // The headline and the commands

  /** The options object the report functions read: the headline they
      print, and whether its `json` and `indent` members are truthy. */
  class Options {
    var headline: string
    var json: bool
    var indent: bool

    constructor (headline: string, json: bool, indent: bool)
      ensures this.headline == headline && this.json == json && this.indent == indent
    {
      this.headline := headline;
      this.json := json;
      this.indent := indent;
    }
  }

  /** The report functions begin with `const indent = options?.indent ?
      " ".repeat(…indent…) : ""`, which reads `indent` inside its own
      declaration (src/lib/cli/radon.js:397 and 422): with a truthy
      `options.indent` a report throws before it prints anything. */
  function ReportError(): JsError {
    ReferenceError("Cannot access 'indent' before initialization")
  }

  function HeadlineError(): JsError {
    TypeError("Cannot set properties of undefined (setting 'headline')")
  }

  /** `if (!options?.headline) options.headline = prefix + key`, after each
      of the crafts in turn. */
  function FinalHeadline(headline: string, ps: seq<Prepared>): string {
    if ps == [] then headline
    else
      var before := FinalHeadline(headline, ps[..|ps| - 1]);
      if before != "" then before else ps[|ps| - 1].prefix + ps[|ps| - 1].key
  }

  lemma HeadlineStep(headline: string, ps: seq<Prepared>, p: Prepared)
    ensures FinalHeadline(headline, ps + [p])
      == if FinalHeadline(headline, ps) != "" then FinalHeadline(headline, ps) else p.prefix + p.key
  {
    assert (ps + [p])[..|ps|] == ps;
  }

  /** The headline is set once, by the first craft, and only when the
      caller had not set one. */
  lemma {:induction false} HeadlineSetOnce(headline: string, ps: seq<Prepared>)
    ensures headline != "" ==> FinalHeadline(headline, ps) == headline
    ensures headline == "" && ps != [] && ps[0].prefix != "" ==> FinalHeadline(headline, ps) == ps[0].prefix + ps[0].key
  {
    if ps != [] {
      HeadlineSetOnce(headline, ps[..|ps| - 1]);
      if |ps| > 1 {
        assert ps[..|ps| - 1][0] == ps[0];
      }
    }
  }

  /** What a command ends in: a bytecode given on the command line is
      reported directly; otherwise the prepared crafts. */
  datatype Outcome = Bytecode(asset: string) | Crafted(prepared: seq<Prepared>)

  function NoAsset(): JsError {
    Thrown("No Radon asset was specified.")
  }

  /** The selected crafts for a pattern. */
  function Crafts(assets: JsValue, pattern: string): seq<Match> {
    Selected(Flattened(assets), pattern)
  }

  /** `decode`'s loop: it prepares every craft, but the first one throws
      when there is no options object to set the headline on, and
      otherwise its report throws when `indent` is truthy. */
  function DecodeAllOutcome(queue: seq<string>, crafts: seq<Match>, hasOptions: bool, indent: bool): (r: Result<seq<Prepared>>)
    ensures r.Success? <==> crafts == [] || (hasOptions && !indent)
    ensures r.Success? ==> r.value == DecodeAll(queue, crafts)
    ensures r.Failure? ==> r.error == if hasOptions then ReportError() else HeadlineError()
  {
    if crafts != [] && !hasOptions then Failure(HeadlineError())
    else if crafts != [] && indent then Failure(ReportError())
    else Success(DecodeAll(queue, crafts))
  }

  /** Every craft `decode` prepares has a key that matches the pattern. */
  lemma PreparedMatch(queue: seq<string>, assets: JsValue, pattern: string, ps: seq<Prepared>)
    requires ps == DecodeAll(queue, Crafts(assets, pattern))
    ensures forall i :: 0 <= i < |ps| ==> KeyMatches(ps[i].key, pattern)
  {
    var crafts := Crafts(assets, pattern);
    DecodeAllKeys(queue, crafts);
    forall i | 0 <= i < |ps|
      ensures KeyMatches(ps[i].key, pattern)
    {
      assert crafts[i] in crafts;
    }
  }

  /** `decode(flags, args, options)`: it throws only when no asset is
      named, when the first craft finds no options object, or when the
      first craft's report throws on a truthy `indent`; otherwise it
      prepares every craft whose key contains the pattern, whatever the
      case. A bytecode argument never throws: its report runs inside a
      `try` whose `catch` swallows every error. */
  function DecodeOutcome(argv: seq<string>, initialized: bool, assets: JsValue, hasOptions: bool, indent: bool): (r: Result<Outcome>)
    ensures argv == [] ==> r == Failure(NoAsset())
    ensures r.Failure? ==> r == Failure(NoAsset()) || r == Failure(HeadlineError()) || r == Failure(ReportError())
    ensures argv != [] && r.Success? && r.value.Crafted? ==>
      && |r.value.prepared| == |Crafts(assets, argv[0])|
      && forall i :: 0 <= i < |r.value.prepared| ==> KeyMatches(r.value.prepared[i].key, argv[0])
  {
    if argv == [] then Failure(NoAsset())
    else if Hex.IsHexString(Str(argv[0])) || !initialized then Success(Bytecode(argv[0]))
    else
      var crafts := Crafts(assets, argv[0]);
      var prepared := DecodeAllOutcome(argv[1..], crafts, hasOptions, indent);
      if prepared.Failure? then Failure(prepared.error)
      else
        PreparedMatch(argv[1..], assets, argv[0], prepared.value);
        Success(Crafted(prepared.value))
  }

  /** `dryRun(flags, args, options, settings)`, with the separator line
      between crafts that cannot be printed left out. Its report throws
      on a truthy `indent` only when `json` is falsy, since the JSON
      report returns before the headline is printed. Where it goes
      through it ends exactly as `decode` with a falsy `indent` does; a
      pattern that selects nothing makes it throw, where `decode` does
      nothing. */
  function DryRunOutcome(argv: seq<string>, initialized: bool, assets: JsValue, hasOptions: bool, indent: bool, json: bool): (r: Result<Outcome>)
    ensures r.Success? ==> r == DecodeOutcome(argv, initialized, assets, hasOptions, false)
    ensures argv != [] && initialized && !Hex.IsHexString(Str(argv[0])) && Crafts(assets, argv[0]) == [] ==>
      && r == Failure(Thrown("No matched found for pattern \"" + argv[0] + "\""))
      && DecodeOutcome(argv, initialized, assets, hasOptions, false) == Success(Crafted([]))
  {
    if argv == [] then Failure(NoAsset())
    else if Hex.IsHexString(Str(argv[0])) || !initialized then Success(Bytecode(argv[0]))
    else
      var crafts := Crafts(assets, argv[0]);
      if crafts == [] then Failure(Thrown("No matched found for pattern \"" + argv[0] + "\""))
      else
        var prepared :- DryRunAll(argv[1..], crafts, hasOptions, indent && !json);
        DryRunAllAgrees(argv[1..], crafts, hasOptions, indent && !json);
        Success(Crafted(prepared))
  }

  lemma DecodeAllStep(queue: seq<string>, crafts: seq<Match>, i: nat, prepared: seq<Prepared>, total: seq<Prepared>)
    requires i < |crafts|
    requires prepared + DecodeAll(queue, crafts[i..]) == total
    ensures var (p, rest) := DecodeCraft(queue, crafts[i]);
      (prepared + [p]) + DecodeAll(rest, crafts[i + 1..]) == total
  {
    assert crafts[i..][0] == crafts[i] && crafts[i..][1..] == crafts[i + 1..];
    var (p, rest) := DecodeCraft(queue, crafts[i]);
    assert prepared + ([p] + DecodeAll(rest, crafts[i + 1..])) == (prepared + [p]) + DecodeAll(rest, crafts[i + 1..]);
  }

  lemma DryRunAllStep(queue: seq<string>, crafts: seq<Match>, i: nat, prepared: seq<Prepared>, total: Result<seq<Prepared>>)
    requires i < |crafts| && DryRunCraft(queue, crafts[i]).0.Success?
    requires total == Prepend(prepared, DryRunAll(queue, crafts[i..], true, false))
    ensures var (p, rest) := DryRunCraft(queue, crafts[i]);
      total == Prepend(prepared + [p.value], DryRunAll(rest, crafts[i + 1..], true, false))
  {
    assert crafts[i..][0] == crafts[i] && crafts[i..][1..] == crafts[i + 1..];
    var (p, rest) := DryRunCraft(queue, crafts[i]);
    PrependTwice(prepared, [p.value], DryRunAll(rest, crafts[i + 1..], true, false));
  }

  lemma DryRunAllFails(queue: seq<string>, crafts: seq<Match>, i: nat, hasOptions: bool, reportThrows: bool)
    requires i < |crafts|
    requires DryRunCraft(queue, crafts[i]).0.Failure? || !hasOptions || reportThrows
    ensures DryRunAll(queue, crafts[i..], hasOptions, reportThrows)
      == if DryRunCraft(queue, crafts[i]).0.Failure? then Failure(DryRunCraft(queue, crafts[i]).0.error)
        else if !hasOptions then Failure(HeadlineError())
        else Failure(ReportError())
  {
    assert crafts[i..][0] == crafts[i];
  }

  /** The headline the disassembling report sets when none is set
      (src/lib/cli/radon.js:427). */
  const DisassembleHeadline := "WITNET DATA REQUEST DISASSEMBLE"

  /** The headline the dry-run report sets when none is set
      (src/lib/cli/radon.js:529). */
  const DryRunHeadline := "WITNET DATA REQUEST DRY RUN REPORT"

  /** `if (!options?.headline) options.headline = prefix + key` for one
      more craft, on an options object that is there. */
  method SetHeadline(options: Options, p: Prepared, ghost headline: string, ghost ps: seq<Prepared>)
    requires options.headline == FinalHeadline(headline, ps)
    modifies options
    ensures options.headline == FinalHeadline(headline, ps + [p])
    ensures headline != "" ==> options.headline == headline
    ensures options.json == old(options.json) && options.indent == old(options.indent)
  {
    if options.headline == "" {
      options.headline := p.prefix + p.key;
    }
    HeadlineStep(headline, ps, p);
    HeadlineSetOnce(headline, ps + [p]);
  }

  /** The report of a bytecode argument, inside its `try`: when it gets as
      far as the headline (`reaches`), it sets an unset one; a missing
      options object throws there, and the `catch` swallows it. */
  method ReportBytecode(options: Options?, reaches: bool, headline: string)
    modifies options
    ensures options != null ==>
      options.headline == if reaches && old(options.headline) == "" then headline else old(options.headline)
    ensures options != null ==> options.json == old(options.json) && options.indent == old(options.indent)
  {
    if reaches && options != null && options.headline == "" {
      options.headline := headline;
    }
  }

  /** `decode`'s loop over the selected crafts, on one shared copy of
      the arguments after the pattern. Each craft sets the headline if
      none is set, then reports. */
  method DecodeCrafts(queue: seq<string>, crafts: seq<Match>, options: Options?) returns (r: Result<seq<Prepared>>)
    modifies options
    ensures r == DecodeAllOutcome(queue, crafts, options != null, options != null && old(options.indent))
    ensures options != null && r.Success? ==> options.headline == FinalHeadline(old(options.headline), r.value)
    ensures options != null && r.Failure? ==>
      options.headline == FinalHeadline(old(options.headline), DecodeAll(queue, crafts)[..1])
    ensures options != null ==> options.json == old(options.json) && options.indent == old(options.indent)
  {
    var shared := new ArgList(queue);
    var prepared: seq<Prepared> := [];
    var i := 0;
    while i < |crafts|
      invariant i <= |crafts| && |prepared| == i
      invariant prepared + DecodeAll(shared.items, crafts[i..]) == DecodeAll(queue, crafts)
      invariant options != null ==> options.headline == FinalHeadline(old(options.headline), prepared)
      invariant options != null ==> options.json == old(options.json) && options.indent == old(options.indent)
      invariant i > 0 ==> options != null && !options.indent
    {
      ghost var before := shared.items;
      var p := PrepareForDecode(shared, crafts[i]);
      if options == null {
        return Failure(HeadlineError());
      }
      SetHeadline(options, p, old(options.headline), prepared);
      DecodeAllStep(before, crafts, i, prepared, DecodeAll(queue, crafts));
      if options.indent {
        assert prepared + [p] == [p];
        assert DecodeAll(queue, crafts)[..1] == [p];
        return Failure(ReportError());
      }
      prepared := prepared + [p];
      i := i + 1;
    }
    assert i == |crafts|;
    assert crafts[i..] == [] && prepared + [] == prepared;
    return Success(prepared);
  }

  /** The pattern branch of `decode`: the crafts selected by `argv[0]`,
      prepared in turn from the arguments after it. */
  method DecodePattern(argv: seq<string>, initialized: bool, assets: JsValue, options: Options?) returns (r: Result<Outcome>)
    requires argv != [] && initialized && !Hex.IsHexString(Str(argv[0]))
    modifies options
    ensures r == DecodeOutcome(argv, initialized, assets, options != null, options != null && old(options.indent))
    ensures options != null && r.Success? ==>
      r.value.Crafted? && options.headline == FinalHeadline(old(options.headline), r.value.prepared)
    ensures options != null && old(options.headline) != "" ==> options.headline == old(options.headline)
  {
    var crafts := Crafts(assets, argv[0]);
    var prepared := DecodeCrafts(argv[1..], crafts, options);
    if prepared.Failure? {
      if options != null {
        HeadlineSetOnce(old(options.headline), DecodeAll(argv[1..], crafts)[..1]);
      }
      return Failure(prepared.error);
    }
    if options != null {
      HeadlineSetOnce(old(options.headline), prepared.value);
    }
    return Success(Crafted(prepared.value));
  }

  /** `decode(flags, args, options)`. Whether `RadonRequest.from` accepts
      a bytecode argument is `fromAccepts`: when it does, the report sets
      the disassembling headline, unless `indent` made it throw first or
      `json` chose the JSON report; every error there is swallowed. */
  method Decode(argv: seq<string>, initialized: bool, assets: JsValue, options: Options?, fromAccepts: bool) returns (r: Result<Outcome>)
    modifies options
    ensures r == DecodeOutcome(argv, initialized, assets, options != null, options != null && old(options.indent))
    ensures options != null && r.Success? && r.value.Crafted? ==>
      options.headline == FinalHeadline(old(options.headline), r.value.prepared)
    ensures options != null && r.Success? && r.value.Bytecode? ==>
      options.headline
        == if fromAccepts && !old(options.indent) && !old(options.json) && old(options.headline) == "" then DisassembleHeadline
           else old(options.headline)
    ensures options != null && old(options.headline) != "" ==> options.headline == old(options.headline)
  {
    if |argv| == 0 {
      return Failure(NoAsset());
    }
    var asset := argv[0];
    if Hex.IsHexString(Str(asset)) || !initialized {
      ReportBytecode(options, fromAccepts && !(options != null && (options.indent || options.json)), DisassembleHeadline);
      return Success(Bytecode(asset));
    }
    r := DecodePattern(argv, initialized, assets, options);
  }

  /** `dryRun`'s loop over the selected crafts, run to the end. Each craft
      sets the headline if none is set, then reports; the report throws
      on a truthy `indent` unless `json` is truthy too. */
  method DryRunCrafts(queue: seq<string>, crafts: seq<Match>, options: Options?) returns (r: Result<seq<Prepared>>)
    modifies options
    ensures r == DryRunAll(queue, crafts, options != null, options != null && old(options.indent) && !old(options.json))
    ensures options != null && r.Success? ==> options.headline == FinalHeadline(old(options.headline), r.value)
    ensures options != null && old(options.headline) != "" ==> options.headline == old(options.headline)
    ensures options != null ==> options.json == old(options.json) && options.indent == old(options.indent)
  {
    ghost var throws := options != null && options.indent && !options.json;
    var shared := new ArgList(queue);
    var prepared: seq<Prepared> := [];
    var i := 0;
    assert crafts[0..] == crafts;
    PrependNothing(DryRunAll(queue, crafts, options != null, throws));
    while i < |crafts|
      invariant i <= |crafts| && |prepared| == i
      invariant DryRunAll(queue, crafts, options != null, throws) == Prepend(prepared, DryRunAll(shared.items, crafts[i..], options != null, throws))
      invariant options != null ==> options.headline == FinalHeadline(old(options.headline), prepared)
      invariant options != null && old(options.headline) != "" ==> options.headline == old(options.headline)
      invariant options != null ==> options.json == old(options.json) && options.indent == old(options.indent)
      invariant i > 0 ==> options != null && !throws
    {
      ghost var before := shared.items;
      var p := PrepareForDryRun(shared, crafts[i]);
      if p.Failure? {
        DryRunAllFails(before, crafts, i, options != null, throws);
        return Failure(p.error);
      }
      if options == null {
        DryRunAllFails(before, crafts, i, false, throws);
        return Failure(HeadlineError());
      }
      SetHeadline(options, p.value, old(options.headline), prepared);
      if options.indent && !options.json {
        DryRunAllFails(before, crafts, i, true, true);
        PrependNothing(DryRunAll(before, crafts[i..], true, true));
        return Failure(ReportError());
      }
      DryRunAllStep(before, crafts, i, prepared, DryRunAll(queue, crafts, true, false));
      prepared := prepared + [p.value];
      i := i + 1;
    }
    assert crafts[i..] == [];
    PrependNothing(Success(prepared));
    return Success(prepared);
  }

  /** A pattern that selects something ends as the dry run of its crafts. */
  lemma PatternOutcome(argv: seq<string>, assets: JsValue, hasOptions: bool, indent: bool, json: bool)
    requires argv != [] && !Hex.IsHexString(Str(argv[0])) && Crafts(assets, argv[0]) != []
    ensures var p := DryRunAll(argv[1..], Crafts(assets, argv[0]), hasOptions, indent && !json);
      DryRunOutcome(argv, true, assets, hasOptions, indent, json)
        == if p.Failure? then Failure(p.error) else Success(Crafted(p.value))
  {
  }

  /** The pattern branch of `dryRun`: the crafts selected by `argv[0]`,
      dry-run in turn on the arguments after it. */
  method DryRunPattern(argv: seq<string>, initialized: bool, assets: JsValue, options: Options?) returns (r: Result<Outcome>)
    requires argv != [] && initialized && !Hex.IsHexString(Str(argv[0]))
    modifies options
    ensures r == DryRunOutcome(argv, initialized, assets, options != null,
      options != null && old(options.indent), options != null && old(options.json))
    ensures options != null && r.Success? ==>
      r.value.Crafted? && options.headline == FinalHeadline(old(options.headline), r.value.prepared)
    ensures options != null && old(options.headline) != "" ==> options.headline == old(options.headline)
  {
    var asset := argv[0];
    var crafts := Crafts(assets, asset);
    if |crafts| == 0 {
      return Failure(Thrown("No matched found for pattern \"" + asset + "\""));
    }
    PatternOutcome(argv, assets, options != null, options != null && options.indent, options != null && options.json);
    var prepared := DryRunCrafts(argv[1..], crafts, options);
    if prepared.Failure? {
      return Failure(prepared.error);
    }
    return Success(Crafted(prepared.value));
  }

  /** `dryRun(flags, args, options, settings)`. Whether `RadonRequest.from`
      accepts a bytecode argument is `fromAccepts`: when it does, the
      dry-run report sets its headline unless `json` chose the JSON
      report; every error there is swallowed. */
  method DryRun(argv: seq<string>, initialized: bool, assets: JsValue, options: Options?, fromAccepts: bool) returns (r: Result<Outcome>)
    modifies options
    ensures r == DryRunOutcome(argv, initialized, assets, options != null,
      options != null && old(options.indent), options != null && old(options.json))
    ensures options != null && r.Success? && r.value.Crafted? ==>
      options.headline == FinalHeadline(old(options.headline), r.value.prepared)
    ensures options != null && r.Success? && r.value.Bytecode? ==>
      options.headline
        == if fromAccepts && !old(options.json) && old(options.headline) == "" then DryRunHeadline
           else old(options.headline)
    ensures options != null && old(options.headline) != "" ==> options.headline == old(options.headline)
  {
    if |argv| == 0 {
      return Failure(NoAsset());
    }
    var asset := argv[0];
    if Hex.IsHexString(Str(asset)) || !initialized {
      ReportBytecode(options, fromAccepts && !(options != null && options.json), DryRunHeadline);
      return Success(Bytecode(asset));
    }
    r := DryRunPattern(argv, initialized, assets, options);
  }

}
