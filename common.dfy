/** Shared vocabulary: the failure type that stands for a thrown JavaScript
    exception, and the small string operations (decimal rendering, searching,
    ASCII case) that several helpers of the toolkit rely on. */
module Common {

  /** The JavaScript exceptions the modelled code can raise. */
  datatype JsError =
    | TypeError(what: string)       // a property read on undefined, a call of a missing method, ...
    | ReferenceError(name: string)  // use of an undeclared identifier
    | RangeError(what: string)      // call-stack exhaustion
    | Thrown(message: string)       // an explicit `throw "..."` of a string
    | External(what: string)        // raised inside a collaborator that is not modelled

  /** A value or the exception that aborted its computation. */
  datatype Result<+T> = Success(value: T) | Failure(error: JsError) {
    predicate IsFailure() { Failure? }
    function PropagateFailure<U>(): Result<U>
      requires Failure?
    {
      Failure(error)
    }
    function Extract(): T
      requires Success?
    {
      value
    }
  }

  datatype Option<+T> = None | Some(value: T)

  predicate IsDigit(c: char) { '0' <= c <= '9' }
  predicate IsUpper(c: char) { 'A' <= c <= 'Z' }
  predicate IsLower(c: char) { 'a' <= c <= 'z' }

  /** `\w` of a JavaScript regular expression without the `u` flag. */
  predicate IsWordChar(c: char) { IsDigit(c) || IsUpper(c) || IsLower(c) || c == '_' }

  /** A line terminator of ECMAScript: what `.` in a regular expression
      does not match. */
  predicate IsLineTerminator(c: char) {
    c == '\n' || c == '\r' || c == '\U{2028}' || c == '\U{2029}'
  }

  /** `\s` of a JavaScript regular expression, which is also the set of
      characters `trim` and `parseInt` skip: the WhiteSpace code points of
      ECMAScript (tab, vertical tab, form feed, space, no-break space, the
      byte order mark and the space separators of Unicode) and the line
      terminators. */
  predicate IsJsSpace(c: char) {
    || c == '\t' || c == '\U{000B}' || c == '\U{000C}' || c == ' ' || c == '\U{00A0}' || c == '\U{FEFF}'
    || c == '\U{1680}' || '\U{2000}' <= c <= '\U{200A}' || c == '\U{202F}' || c == '\U{205F}' || c == '\U{3000}'
    || IsLineTerminator(c)
  }

  predicate IsHexDigit(c: char) { IsDigit(c) || 'a' <= c <= 'f' || 'A' <= c <= 'F' }

  /** The lower-case hexadecimal digit of `d`, as `Number.prototype.toString(16)` writes it. */
  function HexDigitChar(d: nat): (c: char)
    requires d < 16
    ensures IsHexDigit(c) && !IsUpper(c)
    ensures HexValue(c) == d
  {
    if d < 10 then ('0' as int + d) as char else ('a' as int + d - 10) as char
  }

  function HexValue(c: char): (d: nat)
    requires IsHexDigit(c)
    ensures d < 16
  {
    if IsDigit(c) then c as int - '0' as int
    else if 'a' <= c <= 'f' then c as int - 'a' as int + 10
    else c as int - 'A' as int + 10
  }

  function DigitChar(d: nat): (c: char)
    requires d < 10
    ensures IsDigit(c)
  {
    "0123456789"[d]
  }

  function DigitValue(c: char): (d: nat)
    requires IsDigit(c)
    ensures d < 10 && DigitChar(d) == c
  {
    (c as int - '0' as int) as nat
  }

  /** The decimal text of a non-negative number, as JavaScript's `String(n)`
      or a template literal renders it (no sign, no leading zeros). */
  function Decimal(n: nat): (r: string)
    ensures 1 <= |r|
    ensures forall i :: 0 <= i < |r| ==> IsDigit(r[i])
    ensures n < 10 ==> r == [DigitChar(n)]
    ensures n >= 10 ==> |r| >= 2 && r[0] != '0'
  {
    if n < 10 then [DigitChar(n)] else Decimal(n / 10) + [DigitChar(n % 10)]
  }

  /** ASCII lower-casing, as `toLowerCase` acts on the letters A-Z. */
  function LowerChar(c: char): (r: char)
    ensures IsUpper(c) ==> IsLower(r) && r as int == c as int + 32
    ensures !IsUpper(c) ==> r == c
  {
    if IsUpper(c) then (c as int + 32) as char else c
  }

  /** ASCII upper-casing, as `toUpperCase` acts on the letters a-z. */
  function UpperChar(c: char): (r: char)
    ensures IsLower(c) ==> IsUpper(r) && r as int == c as int - 32
    ensures !IsLower(c) ==> r == c
  {
    if IsLower(c) then (c as int - 32) as char else c
  }

  function Lower(s: string): (r: string)
    ensures |r| == |s| && forall i :: 0 <= i < |s| ==> r[i] == LowerChar(s[i])
  {
    if s == [] then [] else [LowerChar(s[0])] + Lower(s[1..])
  }

  predicate StartsWith<T(==)>(s: seq<T>, prefix: seq<T>) {
    |prefix| <= |s| && s[..|prefix|] == prefix
  }

  predicate OccursAt<T(==)>(s: seq<T>, pat: seq<T>, i: int) {
    0 <= i && i + |pat| <= |s| && s[i..i + |pat|] == pat
  }

  /** `s.indexOf(pat, from)` for a `from` within the string: the first
      position at or after `from` where `pat` occurs, or -1. */
  function IndexOfFrom<T(==)>(s: seq<T>, pat: seq<T>, from: nat): (r: int)
    requires from <= |s|
    ensures r == -1 || (from <= r && OccursAt(s, pat, r))
    ensures r == -1 ==> forall i :: from <= i <= |s| ==> !OccursAt(s, pat, i)
    ensures r != -1 ==> forall i :: from <= i < r ==> !OccursAt(s, pat, i)
    decreases |s| - from
  {
    if OccursAt(s, pat, from) then from
    else if from == |s| then -1
    else IndexOfFrom(s, pat, from + 1)
  }

  function IndexOf<T(==)>(s: seq<T>, pat: seq<T>): int {
    IndexOfFrom(s, pat, 0)
  }

  /** `array.indexOf(x)`: the first position holding `x`, or -1. */
  function Find<T(==)>(s: seq<T>, x: T): (r: int)
    ensures r == -1 <==> x !in s
    ensures r != -1 ==> 0 <= r < |s| && s[r] == x && forall j :: 0 <= j < r ==> s[j] != x
  {
    if s == [] then -1
    else if s[0] == x then 0
    else var k := Find(s[1..], x); if k == -1 then -1 else k + 1
  }

  /** The position of the first upper-case letter at or after `i`, or |s|. */
  function FirstUpperFrom(s: string, i: nat): (k: nat)
    requires i <= |s|
    ensures i <= k <= |s|
    ensures k < |s| ==> IsUpper(s[k])
    ensures forall j :: i <= j < k ==> !IsUpper(s[j])
    decreases |s| - i
  {
    if i == |s| || IsUpper(s[i]) then i else FirstUpperFrom(s, i + 1)
  }

  /** `s.split(/(?=[A-Z])/).slice(1).join("")`: the split happens before every
      upper-case letter except one at position 0, so dropping the first piece
      and joining the rest leaves the suffix that starts at the first
      upper-case letter after position 0 (nothing when there is none). */
  function DropFirstWord(s: string): (r: string)
    ensures |r| < |s| || s == []
    ensures |r| <= |s| && r == s[|s| - |r|..]
    ensures r != [] ==> IsUpper(r[0])
    ensures forall j :: 1 <= j < |s| - |r| ==> !IsUpper(s[j])
  {
    if |s| <= 1 then "" else s[FirstUpperFrom(s, 1)..]
  }

  /** `s` is obtained from `t` by deleting some of its elements. */
  predicate IsSubsequence<T(==)>(s: seq<T>, t: seq<T>)
    decreases |t|
  {
    s == [] || (t != [] && ((s[0] == t[0] && IsSubsequence(s[1..], t[1..])) || IsSubsequence(s, t[1..])))
  }

  lemma {:induction false} SubsequenceRefl<T>(s: seq<T>)
    ensures IsSubsequence(s, s)
    decreases |s|
  {
    if s != [] {
      SubsequenceRefl(s[1..]);
    }
  }

  /** Deleting elements twice is deleting elements. */
  lemma {:induction false} SubsequenceTrans<T>(a: seq<T>, b: seq<T>, c: seq<T>)
    requires IsSubsequence(a, b) && IsSubsequence(b, c)
    ensures IsSubsequence(a, c)
    decreases |c|
  {
    if a == [] {
    } else if b == [] {
    } else {
      assert c != [];
      if b[0] == c[0] && IsSubsequence(b[1..], c[1..]) {
        if a[0] == b[0] && IsSubsequence(a[1..], b[1..]) {
          SubsequenceTrans(a[1..], b[1..], c[1..]);
        } else {
          SubsequenceTrans(a, b[1..], c[1..]);
        }
      } else {
        SubsequenceTrans(a, b, c[1..]);
      }
    }
  }

  /** Removing a slice `s[i..j]` leaves a subsequence. */
  lemma {:induction false} RemoveSliceSubsequence<T>(s: seq<T>, i: nat, j: nat)
    requires i <= j <= |s|
    ensures IsSubsequence(s[..i] + s[j..], s)
    decreases |s|
  {
    if i > 0 {
      RemoveSliceSubsequence(s[1..], i - 1, j - 1);
      assert (s[..i] + s[j..])[1..] == s[1..][..i - 1] + s[1..][j - 1..];
    } else if j > 0 {
      RemoveSliceSubsequence(s[1..], 0, j - 1);
      assert s[..i] + s[j..] == s[1..][..0] + s[1..][j - 1..];
    } else {
      assert s[..i] + s[j..] == s;
      SubsequenceRefl(s);
    }
  }

  // ---------------------------------------------------------------------
  // Array.prototype.map with a callback that may throw

  /** `xs.map(f)`: the callback runs on the elements left to right and the
      first exception it throws ends the whole map. */
  function MapAll<A, B>(f: A -> Result<B>, xs: seq<A>): (r: Result<seq<B>>)
    ensures r.Success? <==> forall i :: 0 <= i < |xs| ==> f(xs[i]).Success?
    ensures r.Success? ==> |r.value| == |xs|
    ensures r.Success? ==> forall i :: 0 <= i < |xs| ==> f(xs[i]) == Success(r.value[i])
  {
    if xs == [] then Success([])
    else
      var init :- MapAll(f, xs[..|xs| - 1]);
      var last :- f(xs[|xs| - 1]);
      Success(init + [last])
  }

  /** The exception of a map is that of the first element whose callback
      throws. */
  lemma MapAllFirstFailure<A, B>(f: A -> Result<B>, xs: seq<A>, k: nat)
    requires k < |xs| && MapAll(f, xs[..k]).Success? && f(xs[k]).Failure?
    ensures MapAll(f, xs) == Failure(f(xs[k]).error)
  {
    forall i | 0 <= i < k
      ensures f(xs[i]).Success?
    {
      assert xs[..k][i] == xs[i];
    }
    FirstFailureFrom(f, xs, k);
  }

  lemma {:induction false} FirstFailureFrom<A, B>(f: A -> Result<B>, xs: seq<A>, k: nat)
    requires k < |xs| && f(xs[k]).Failure?
    requires forall i :: 0 <= i < k ==> f(xs[i]).Success?
    ensures MapAll(f, xs) == Failure(f(xs[k]).error)
    decreases |xs|
  {
    var init := xs[..|xs| - 1];
    FirstSuccesses(f, xs, init, k);
    if k < |xs| - 1 {
      assert init[k] == xs[k];
      FirstFailureFrom(f, init, k);
    }
  }

  lemma FirstSuccesses<A, B>(f: A -> Result<B>, xs: seq<A>, init: seq<A>, k: nat)
    requires xs != [] && init == xs[..|xs| - 1] && k <= |init|
    requires forall i :: 0 <= i < k ==> f(xs[i]).Success?
    ensures forall i :: 0 <= i < k ==> f(init[i]).Success?
  {
    forall i | 0 <= i < k
      ensures f(init[i]).Success?
    {
      assert init[i] == xs[i];
    }
  }

  /** Mapping one more element. */
  lemma MapAllStep<A, B>(f: A -> Result<B>, xs: seq<A>, i: nat)
    requires i < |xs|
    ensures MapAll(f, xs[..i + 1])
      == if MapAll(f, xs[..i]).Failure? then MapAll(f, xs[..i])
         else if f(xs[i]).Failure? then Failure(f(xs[i]).error)
         else Success(MapAll(f, xs[..i]).value + [f(xs[i]).value])
  {
    assert xs[..i + 1][..i] == xs[..i];
  }
}
