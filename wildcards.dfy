/** The `\N\` placeholders of Radon templates (src/lib/helpers.js:331-379):
    counting them, recognising one, substituting arguments for them and
    splicing one of them out while renumbering the rest. */
module Wildcards {
  import opened Common
  import opened Values

  /** The placeholder text `\n\`, as a template literal writes it. */
  function WildcardText(n: nat): (r: string)
    ensures |r| >= 3 && r[0] == '\\' && r[|r| - 1] == '\\'
    ensures n < 10 ==> r == ['\\', DigitChar(n), '\\']
  {
    "\\" + Decimal(n) + "\\"
  }

  /** `/\\\d\\/` matches at position `p`. */
  predicate WildcardAt(s: string, p: nat) {
    p + 3 <= |s| && s[p] == '\\' && IsDigit(s[p + 1]) && s[p + 2] == '\\'
  }

  /** The digits of the matches a global `/\\\d\\/g` finds from position
      `i` on: after a match the search resumes behind it, so matches never
      overlap. */
  function MatchedDigits(s: string, i: nat): (r: seq<nat>)
    ensures forall k :: 0 <= k < |r| ==> r[k] < 10
    decreases |s| - i
  {
    if i + 3 > |s| then []
    else if WildcardAt(s, i) then [DigitValue(s[i + 1])] + MatchedDigits(s, i + 3)
    else MatchedDigits(s, i + 1)
  }

  /** The scan finds a match exactly when the pattern occurs somewhere. */
  lemma {:induction false} MatchedDigitsEmpty(s: string, i: nat)
    ensures MatchedDigits(s, i) == [] <==> forall p :: i <= p ==> !WildcardAt(s, p)
    decreases |s| - i
  {
    if i + 3 <= |s| && !WildcardAt(s, i) {
      MatchedDigitsEmpty(s, i + 1);
    }
  }

  /** One more than the largest digit, or 0 for none. */
  function MaxIndex(digits: seq<nat>): (r: nat)
    ensures r == 0 <==> digits == []
    ensures r > 0 ==> r - 1 in digits
    ensures forall d :: d in digits ==> d < r
    ensures (forall k :: 0 <= k < |digits| ==> digits[k] < 10) ==> r <= 10
  {
    if digits == [] then 0
    else
      var rest := MaxIndex(digits[1..]);
      assert forall d :: d in digits ==> d == digits[0] || d in digits[1..];
      if digits[0] + 1 > rest then digits[0] + 1 else rest
  }

  /** What `getWildcardsCountFromString` computes. */
  function WildcardsCount(s: string): nat {
    MaxIndex(MatchedDigits(s, 0))
  }

  /** `getWildcardsCountFromString(str)`: runs the global regular
      expression over the string and keeps one more than the largest digit
      it matched. */
  method GetWildcardsCountFromString(str: string) returns (maxArgsIndex: nat)
    ensures maxArgsIndex == WildcardsCount(str)
    ensures maxArgsIndex <= 10
    ensures maxArgsIndex == 0 <==> forall p :: !WildcardAt(str, p)
  {
    maxArgsIndex := 0;
    var i := 0;
    while i + 3 <= |str|
      invariant Max(maxArgsIndex, MaxIndex(MatchedDigits(str, i))) == WildcardsCount(str)
      decreases |str| - i
    {
      CountStep(str, i);
      if WildcardAt(str, i) {
        var argsIndex := DigitValue(str[i + 1]) + 1;
        if argsIndex > maxArgsIndex {
          maxArgsIndex := argsIndex;
        }
        i := i + 3;
      } else {
        i := i + 1;
      }
    }
    assert MatchedDigits(str, i) == [];
    MatchedDigitsEmpty(str, 0);
  }

  function Max(a: nat, b: nat): nat {
    if a > b then a else b
  }

  /** One step of the scan: a match at `i` contributes its digit plus one. */
  lemma CountStep(s: string, i: nat)
    requires i + 3 <= |s|
    ensures WildcardAt(s, i) ==>
      MaxIndex(MatchedDigits(s, i)) == Max(DigitValue(s[i + 1]) + 1, MaxIndex(MatchedDigits(s, i + 3)))
    ensures !WildcardAt(s, i) ==> MaxIndex(MatchedDigits(s, i)) == MaxIndex(MatchedDigits(s, i + 1))
  {
    if WildcardAt(s, i) {
      var ds := MatchedDigits(s, i);
      assert ds[1..] == MatchedDigits(s, i + 3);
    }
  }

  /** Overlapping placeholders: in `\1\9\` the `\9\` shares its backslash
      with the `\1\` before it, so it is never matched and the count is 2. */
  lemma OverlapNotCounted()
    ensures WildcardAt("\\1\\9\\", 2)
    ensures WildcardsCount("\\1\\9\\") == 2
  {
    var s := "\\1\\9\\";
    assert WildcardAt(s, 0);
    assert !WildcardAt(s, 3);
    assert MatchedDigits(s, 3) == [];
    assert MatchedDigits(s, 0) == [1];
  }

  /** `isWildcard(str)`: three characters on which the pattern matches. */
  function IsWildcard(str: string): (r: bool)
    ensures r <==> |str| == 3 && str[0] == '\\' && IsDigit(str[1]) && str[2] == '\\'
  {
    MatchedDigitsEmpty(str, 0);
    |str| == 3 && MatchedDigits(str, 0) != []
  }

  /** The placeholders are the wildcards, and a wildcard counts its own
      index plus one. */
  lemma WildcardCountsItself(d: nat)
    requires d < 10
    ensures IsWildcard(WildcardText(d))
    ensures WildcardsCount(WildcardText(d)) == d + 1
  {
    var s := WildcardText(d);
    assert WildcardAt(s, 0);
    assert MatchedDigits(s, 3) == [];
  }

  // ---------------------------------------------------------------------
  // `String.prototype.replaceAll` with a string pattern

  /** GetSubstitution of ECMAScript for a match without capture groups:
      `$$`, `$&`, `` $` `` and `$'` are expanded, every other character,
      including a `$` that starts none of them, is copied. */
  function Expand(rep: string, matched: string, before: string, after: string): (r: string)
    ensures '$' !in rep ==> r == rep
  {
    if rep == [] then ""
    else if rep[0] == '$' && |rep| >= 2 && rep[1] == '$' then "$" + Expand(rep[2..], matched, before, after)
    else if rep[0] == '$' && |rep| >= 2 && rep[1] == '&' then matched + Expand(rep[2..], matched, before, after)
    else if rep[0] == '$' && |rep| >= 2 && rep[1] == '`' then before + Expand(rep[2..], matched, before, after)
    else if rep[0] == '$' && |rep| >= 2 && rep[1] == '\'' then after + Expand(rep[2..], matched, before, after)
    else
      assert '$' !in rep ==> '$' !in rep[1..] by {
        assert forall c :: c in rep[1..] ==> c in rep;
      }
      [rep[0]] + Expand(rep[1..], matched, before, after)
  }

  /** `s.replaceAll(pat, rep)` from position `i` on: every occurrence, left
      to right and without overlap, is replaced. */
  function ReplaceAllFrom(s: string, pat: string, rep: string, i: nat): string
    requires |pat| > 0 && i <= |s|
    decreases |s| - i
  {
    var k := IndexOfFrom(s, pat, i);
    if k == -1 then s[i..]
    else s[i..k] + Expand(rep, pat, s[..k], s[k + |pat|..]) + ReplaceAllFrom(s, pat, rep, k + |pat|)
  }

  function ReplaceAll(s: string, pat: string, rep: string): string
    requires |pat| > 0
  {
    ReplaceAllFrom(s, pat, rep, 0)
  }

  /** Without an occurrence of the pattern nothing is replaced. */
  lemma ReplaceAllAbsent(s: string, pat: string, rep: string)
    requires |pat| > 0 && forall p :: 0 <= p <= |s| ==> !OccursAt(s, pat, p)
    ensures ReplaceAll(s, pat, rep) == s
  {
    assert IndexOfFrom(s, pat, 0) == -1;
  }

  // ---------------------------------------------------------------------
  // replaceWildcards

  /** The arguments `replaceWildcards` uses: `args.slice(0, 10)` once there
      are more than ten. */
  function FirstTen(args: seq<string>): (r: seq<string>)
    ensures |r| <= 10 && |r| <= |args| && r == args[..|r|]
    ensures |args| <= 10 ==> r == args
  {
    if |args| > 10 then args[..10] else args
  }

  /** The string after the first `n` arguments have been substituted, in
      order: `\0\` by `args[0]`, then `\1\` by `args[1]`, and so on. */
  function Substituted(s: string, args: seq<string>, n: nat): string
    requires n <= |args|
  {
    if n == 0 then s else ReplaceAll(Substituted(s, args, n - 1), WildcardText(n - 1), args[n - 1])
  }

  /** Whether `replaceWildcards` and `spliceWildcard` descend into a value:
      strings and arrays. */
  predicate Descends(v: JsValue) {
    v.Str? || v.Arr?
  }

  /** What `replaceWildcards(obj, args)` returns: strings stay strings,
      arrays stay arrays of the same length whose elements other than
      strings and arrays are kept, and every other value is returned as it
      is. */
  function ReplacedValue(obj: JsValue, args: seq<string>): (r: JsValue)
    ensures obj.Str? ==> r.Str?
    ensures obj.Arr? ==> r.Arr? && |r.items| == |obj.items|
    ensures obj.Arr? ==> forall k :: 0 <= k < |obj.items| && !Descends(obj.items[k]) ==> r.items[k] == obj.items[k]
    ensures !Descends(obj) ==> r == obj
    decreases obj
  {
    match obj
    case Str(s) => if s == [] then obj else Str(Substituted(s, FirstTen(args), |FirstTen(args)|))
    case Arr(items) =>
      Arr(seq(|items|, k requires 0 <= k < |items| =>
        if Descends(items[k]) then ReplacedValue(items[k], args) else items[k]))
    case _ => obj
  }

  /** The loop of `replaceWildcards` on a string. */
  method SubstituteText(text: string, args: seq<string>) returns (s: string)
    ensures s == Substituted(text, FirstTen(args), |FirstTen(args)|)
  {
    var used := if |args| > 10 then args[..10] else args;
    s := text;
    for argIndex := 0 to |used|
      invariant s == Substituted(text, used, argIndex)
    {
      s := ReplaceAll(s, WildcardText(argIndex), used[argIndex]);
    }
  }

  /** `replaceWildcards(obj, args)`: for a non-empty string, one
      `replaceAll` per argument; for an array, the same on every string or
      array element; anything else is returned as it is. */
  method ReplaceWildcards(obj: JsValue, args: seq<string>) returns (r: JsValue)
    ensures r == ReplacedValue(obj, args)
    decreases obj
  {
    if obj.Str? && obj.s != [] {
      var s := SubstituteText(obj.s, args);
      r := Str(s);
    } else if obj.Arr? {
      var items := obj.items;
      var mapped: seq<JsValue> := [];
      for k := 0 to |items|
        invariant |mapped| == k
        invariant forall j :: 0 <= j < k ==> mapped[j] == (if Descends(items[j]) then ReplacedValue(items[j], args) else items[j])
      {
        var value := items[k];
        if Descends(value) {
          value := ReplaceWildcards(items[k], args);
        }
        mapped := mapped + [value];
      }
      r := Arr(mapped);
    } else {
      r := obj;
    }
  }

  /** Arguments past the tenth are never used. */
  lemma {:induction false} OnlyFirstTenUsed(obj: JsValue, args: seq<string>, extra: seq<string>)
    requires |args| == 10
    ensures ReplacedValue(obj, args + extra) == ReplacedValue(obj, args)
    decreases obj
  {
    assert FirstTen(args + extra) == args by {
      assert (args + extra)[..10] == args;
    }
    match obj
    case Arr(items) =>
      forall k | 0 <= k < |items| && Descends(items[k])
        ensures ReplacedValue(items[k], args + extra) == ReplacedValue(items[k], args)
      {
        OnlyFirstTenUsed(items[k], args, extra);
      }
    case _ =>
  }

  /** No substitution touches a string without a backslash. */
  lemma {:induction false} SubstitutedWithoutBackslash(s: string, args: seq<string>, n: nat)
    requires n <= |args| && '\\' !in s
    ensures Substituted(s, args, n) == s
  {
    if n > 0 {
      SubstitutedWithoutBackslash(s, args, n - 1);
      var w := WildcardText(n - 1);
      forall p | 0 <= p <= |s| ensures !OccursAt(s, w, p) {
        if p + |w| <= |s| {
          assert s[p..p + |w|][0] == s[p];
        }
      }
      ReplaceAllAbsent(s, w, args[n - 1]);
    }
  }

  /** Text without placeholders comes back as it went in. */
  lemma NoBackslashUnchanged(s: string, args: seq<string>)
    requires '\\' !in s
    ensures ReplacedValue(Str(s), args) == Str(s)
  {
    SubstitutedWithoutBackslash(s, FirstTen(args), |FirstTen(args)|);
  }

  // ---------------------------------------------------------------------
  // spliceWildcard

  /** The string after `\argIndex\` has been replaced by the value and
      `\j\` renamed `\j-1\` for each `j` from `argIndex + 1` up to `upTo`. */
  function Spliced(s: string, argIndex: nat, argValue: string, upTo: nat): string
    requires argIndex < upTo
    decreases upTo
  {
    if upTo == argIndex + 1 then ReplaceAll(s, WildcardText(argIndex), argValue)
    else ReplaceAll(Spliced(s, argIndex, argValue, upTo - 1), WildcardText(upTo - 1), WildcardText(upTo - 2))
  }

  /** What `spliceWildcard(obj, argIndex, argValue, argsCount)` returns,
      with the same shape guarantees as `ReplacedValue`. */
  function SplicedValue(obj: JsValue, argIndex: nat, argValue: string, argsCount: int): (r: JsValue)
    ensures obj.Str? ==> r.Str?
    ensures obj.Arr? ==> r.Arr? && |r.items| == |obj.items|
    ensures obj.Arr? ==> forall k :: 0 <= k < |obj.items| && !Descends(obj.items[k]) ==> r.items[k] == obj.items[k]
    ensures !Descends(obj) ==> r == obj
    decreases obj
  {
    match obj
    case Str(s) =>
      if s == [] then obj
      else Str(Spliced(s, argIndex, argValue, if argsCount > argIndex + 1 then argsCount else argIndex + 1))
    case Arr(items) =>
      Arr(seq(|items|, k requires 0 <= k < |items| =>
        if Descends(items[k]) then SplicedValue(items[k], argIndex, argValue, argsCount) else items[k]))
    case _ => obj
  }

  lemma SplicedStep(text: string, argIndex: nat, argValue: string, j: nat, s: string, next: string, k: nat)
    requires argIndex < j && k == j + 1 && s == Spliced(text, argIndex, argValue, j)
    requires next == ReplaceAll(s, WildcardText(j), WildcardText(j - 1))
    ensures next == Spliced(text, argIndex, argValue, k)
  {
  }

  /** The loop of `spliceWildcard` on a string. */
  method SpliceText(text: string, argIndex: nat, argValue: string, argsCount: int) returns (s: string)
    ensures s == Spliced(text, argIndex, argValue, if argsCount > argIndex + 1 then argsCount else argIndex + 1)
  {
    ghost var upTo: nat := if argsCount > argIndex + 1 then argsCount else argIndex + 1;
    s := SpliceFirst(text, argIndex, argValue);
    var j: nat := argIndex + 1;
    while j < argsCount
      invariant argIndex < j <= upTo
      invariant s == Spliced(text, argIndex, argValue, j)
      decreases argsCount - j
    {
      var k: nat := j + 1;
      s := ShiftDown(text, argIndex, argValue, j, k, s);
      j := k;
    }
    assert j == upTo;
  }

  /** The first replacement: `\argIndex\` becomes the value. */
  method SpliceFirst(text: string, argIndex: nat, argValue: string) returns (s: string)
    ensures s == Spliced(text, argIndex, argValue, argIndex + 1)
  {
    s := ReplaceAll(text, WildcardText(argIndex), argValue);
  }

  /** One turn of that loop: `\j\` becomes `\j-1\`. */
  method ShiftDown(ghost text: string, ghost argIndex: nat, ghost argValue: string, j: nat, ghost k: nat, s: string) returns (next: string)
    requires argIndex < j && k == j + 1 && s == Spliced(text, argIndex, argValue, j)
    ensures next == Spliced(text, argIndex, argValue, k)
  {
    next := ReplaceAll(s, WildcardText(j), WildcardText(j - 1));
    SplicedStep(text, argIndex, argValue, j, s, next, k);
  }

  /** `spliceWildcard(obj, argIndex, argValue, argsCount)`: the wildcard
      `\argIndex\` is replaced by the value and every later wildcard up to
      `argsCount - 1` moves down by one; arrays are mapped element by
      element. */
  method SpliceWildcard(obj: JsValue, argIndex: nat, argValue: string, argsCount: int) returns (r: JsValue)
    ensures r == SplicedValue(obj, argIndex, argValue, argsCount)
    decreases obj
  {
    if obj.Str? && obj.s != [] {
      var s := SpliceText(obj.s, argIndex, argValue, argsCount);
      r := Str(s);
    } else if obj.Arr? {
      var items := obj.items;
      var mapped: seq<JsValue> := [];
      for k := 0 to |items|
        invariant |mapped| == k
        invariant forall i :: 0 <= i < k ==>
          mapped[i] == (if Descends(items[i]) then SplicedValue(items[i], argIndex, argValue, argsCount) else items[i])
      {
        var value := items[k];
        if Descends(value) {
          value := SpliceWildcard(items[k], argIndex, argValue, argsCount);
        }
        ghost var prev := mapped;
        mapped := mapped + [value];
        assert forall i :: 0 <= i < k ==> mapped[i] == prev[i];
      }
      r := Arr(mapped);
    } else {
      r := obj;
    }
  }
}
