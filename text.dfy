/** The text formatters of the helpers (src/lib/helpers.js): `commas`,
    which groups the digits of a number by thousands, `toFixedTrunc`,
    which cuts or pads a decimal fraction to a fixed number of digits, and
    `toUpperCamelCase`. */
module Text {
  import opened Common

  /** `s.split(c)` for a one-character separator: the pieces between the
      separators, in order. */
  function Split(s: string, c: char): (r: seq<string>)
    ensures |r| >= 1
    ensures forall k :: 0 <= k < |r| ==> c !in r[k]
    ensures c !in s ==> r == [s]
  {
    var k := Find(s, c);
    if k < 0 then [s] else [s[..k]] + Split(s[k + 1..], c)
  }

  /** `pieces.join(c)`. */
  function Join(pieces: seq<string>, c: char): string
    requires |pieces| >= 1
  {
    if |pieces| == 1 then pieces[0] else pieces[0] + [c] + Join(pieces[1..], c)
  }

  /** Joining the pieces again gives back the string. */
  lemma {:induction false} SplitJoin(s: string, c: char)
    ensures Join(Split(s, c), c) == s
    decreases |s|
  {
    var k := Find(s, c);
    if k >= 0 {
      var rest := Split(s[k + 1..], c);
      SplitJoin(s[k + 1..], c);
      var pieces := [s[..k]] + rest;
      SplitStep(s, c);
      assert pieces[1..] == rest;
      assert Join(pieces, c) == s[..k] + [c] + Join(rest, c);
      Around(s, k);
    } else {
      assert Split(s, c) == [s];
    }
  }

  lemma Around(s: string, k: nat)
    requires k < |s|
    ensures s == s[..k] + [s[k]] + s[k + 1..]
  {
  }

  lemma SplitStep(s: string, c: char)
    requires Find(s, c) >= 0
    ensures Split(s, c) == [s[..Find(s, c)]] + Split(s[Find(s, c) + 1..], c)
  {
  }

  /** The piece at index `i`, or `""` where `split` gave fewer pieces,
      which is what `v[1] || ''` and the template literals make of
      `undefined` here. */
  function Piece(pieces: seq<string>, i: nat): string {
    if i < |pieces| then pieces[i] else ""
  }

  // ---------------------------------------------------------------------
  // commas

  /** The length of the run of digits that starts at `p`. */
  function DigitRun(t: string, p: nat): (n: nat)
    requires p <= |t|
    ensures p + n <= |t|
    ensures forall k :: p <= k < p + n ==> IsDigit(t[k])
    ensures p + n < |t| ==> !IsDigit(t[p + n])
    decreases |t| - p
  {
    if p < |t| && IsDigit(t[p]) then 1 + DigitRun(t, p + 1) else 0
  }

  /** `/\B(?=(\d{3})+(?!\d))/` matches at position `p`: the digits that
      start there come in whole groups of three up to the end of the run,
      and `p` is no word boundary, so a word character precedes it. */
  predicate CommaBefore(t: string, p: nat)
    requires p < |t|
  {
    1 <= p && IsWordChar(t[p - 1]) && DigitRun(t, p) >= 3 && DigitRun(t, p) % 3 == 0
  }

  /** `t.replace(/\B(?=(\d{3})+(?!\d))/g, ",")` on the first `m`
      characters: every match inserts a comma in front of its position. */
  function GroupedUpTo(t: string, m: nat): string
    requires m <= |t|
  {
    if m == 0 then ""
    else GroupedUpTo(t, m - 1) + (if CommaBefore(t, m - 1) then "," else "") + [t[m - 1]]
  }

  function Grouped(t: string): (r: string)
    ensures ',' !in t ==> DropCommas(r) == t
    ensures AllDigits(t) ==> r == GroupThousands(t)
  {
    assert t[..|t|] == t;
    if AllDigits(t) then
      GroupedUpToThousands(t, |t|);
      if ',' !in t then GroupedDropCommas(t, |t|); GroupedUpTo(t, |t|) else GroupedUpTo(t, |t|)
    else if ',' !in t then GroupedDropCommas(t, |t|); GroupedUpTo(t, |t|)
    else GroupedUpTo(t, |t|)
  }

  /** `commas(number)` on the text of the number: the part before the first
      `.` is grouped by thousands; the piece after it, up to a second `.`
      if any, is appended unchanged. */
  function Commas(text: string): (r: string)
    ensures '.' !in text ==> r == Grouped(text)
    ensures '.' in text ==> r == Grouped(Split(text, '.')[0]) + "." + Split(text, '.')[1]
  {
    var parts := Split(text, '.');
    if |parts| <= 1 then Grouped(parts[0]) else Grouped(parts[0]) + "." + parts[1]
  }

  function DropCommas(s: string): (r: string)
    ensures ',' !in r
  {
    if s == [] then "" else (if s[0] == ',' then "" else [s[0]]) + DropCommas(s[1..])
  }

  lemma {:induction false} DropCommasAppend(a: string, b: string)
    ensures DropCommas(a + b) == DropCommas(a) + DropCommas(b)
    decreases |a|
  {
    if a == [] {
      assert a + b == b;
    } else {
      DropCommasAppend(a[1..], b);
      var first := if a[0] == ',' then "" else [a[0]];
      assert (a + b)[0] == a[0] && (a + b)[1..] == a[1..] + b;
      assert DropCommas(a + b) == first + DropCommas(a[1..] + b);
      assert DropCommas(a) == first + DropCommas(a[1..]);
    }
  }

  /** Only commas are inserted: deleting them gives back the text. */
  lemma {:induction false} GroupedDropCommas(t: string, m: nat)
    requires m <= |t| && ',' !in t
    ensures DropCommas(GroupedUpTo(t, m)) == t[..m]
  {
    if m > 0 {
      GroupedDropCommas(t, m - 1);
      GroupedStepDropCommas(t, m);
      assert t[..m] == t[..m - 1] + [t[m - 1]];
    }
  }

  lemma GroupedStepDropCommas(t: string, m: nat)
    requires 0 < m <= |t| && t[m - 1] != ','
    ensures DropCommas(GroupedUpTo(t, m)) == DropCommas(GroupedUpTo(t, m - 1)) + [t[m - 1]]
  {
    var g := GroupedUpTo(t, m - 1);
    var sep := if CommaBefore(t, m - 1) then "," else "";
    var last := [t[m - 1]];
    assert GroupedUpTo(t, m) == g + sep + last;
    DropCommasAppend(g + sep, last);
    DropCommasAppend(g, sep);
    assert DropCommas(sep) == "";
    assert DropCommas(last) == last by {
      assert last[1..] == [];
    }
  }

  /** No `.` follows another one. */
  predicate AtMostOneDot(text: string) {
    forall i, j :: 0 <= i < j < |text| && text[i] == '.' ==> text[j] != '.'
  }

  /** `commas` changes nothing but the commas it inserts, for the text of
      any number: digits with at most one decimal point. */
  lemma CommasDropCommas(text: string)
    requires ',' !in text && AtMostOneDot(text)
    ensures DropCommas(Commas(text)) == text
  {
    var k := Find(text, '.');
    if k < 0 {
      GroupedDropCommas(text, |text|);
    } else {
      var a, b := text[..k], text[k + 1..];
      assert '.' !in b by {
        forall j | 0 <= j < |b| ensures b[j] != '.' {
          assert b[j] == text[k + 1 + j];
        }
      }
      assert text == a + "." + b;
      SplitAt(a, b);
      GroupedDropCommas(a, |a|);
      var g := Grouped(a);
      DropCommasAppend(g + ".", b);
      DropCommasAppend(g, ".");
      assert DropCommas(".") == ".";
      assert ',' !in b;
      DropCommasIdle(b);
    }
  }

  lemma {:induction false} DropCommasIdle(s: string)
    requires ',' !in s
    ensures DropCommas(s) == s
    decreases |s|
  {
    if s != [] {
      DropCommasIdle(s[1..]);
    }
  }

  predicate AllDigits(t: string) {
    forall k :: 0 <= k < |t| ==> IsDigit(t[k])
  }

  /** The textbook grouping of a digit string, three by three from the
      right. */
  function GroupThousands(t: string): string
    decreases |t|
  {
    if |t| <= 3 then t else GroupThousands(t[..|t| - 3]) + "," + t[|t| - 3..]
  }

  lemma DigitRunAll(t: string, p: nat)
    requires AllDigits(t) && p <= |t|
    ensures DigitRun(t, p) == |t| - p
  {
  }

  lemma {:induction false} GroupedUpToThousands(t: string, m: nat)
    requires AllDigits(t) && m <= |t| && (|t| - m) % 3 == 0
    ensures GroupedUpTo(t, m) == GroupThousands(t[..m])
    decreases m
  {
    if m <= 3 {
      NoCommaBelow(t, m, m);
    } else {
      GroupedUpToThousands(t, m - 3);
      GroupedThreeMore(t, m);
      assert t[..m][..m - 3] == t[..m - 3];
    }
  }

  /** The last three digits of a group are preceded by a comma and by
      nothing else. */
  lemma GroupedThreeMore(t: string, m: nat)
    requires AllDigits(t) && 3 < m <= |t| && (|t| - m) % 3 == 0
    ensures GroupedUpTo(t, m) == GroupedUpTo(t, m - 3) + "," + t[m - 3..m]
  {
    CommasOfLastGroup(t, m);
    var g := GroupedUpTo(t, m - 3);
    assert GroupedUpTo(t, m - 2) == g + "," + [t[m - 3]];
    assert GroupedUpTo(t, m - 1) == g + "," + [t[m - 3]] + [t[m - 2]];
    assert GroupedUpTo(t, m) == g + "," + [t[m - 3]] + [t[m - 2]] + [t[m - 1]];
    assert t[m - 3..m] == [t[m - 3]] + [t[m - 2]] + [t[m - 1]];
  }

  lemma CommasOfLastGroup(t: string, m: nat)
    requires AllDigits(t) && 3 < m <= |t| && (|t| - m) % 3 == 0
    ensures CommaBefore(t, m - 3) && !CommaBefore(t, m - 2) && !CommaBefore(t, m - 1)
  {
    DigitRunAll(t, m - 1);
    DigitRunAll(t, m - 2);
    DigitRunAll(t, m - 3);
  }

  /** Below the first three digits of the remaining text no comma goes in. */
  lemma {:induction false} NoCommaBelow(t: string, m: nat, k: nat)
    requires AllDigits(t) && k <= m <= 3 && m <= |t| && (|t| - m) % 3 == 0
    ensures GroupedUpTo(t, k) == t[..k]
    decreases k
  {
    if k > 0 {
      NoCommaBelow(t, m, k - 1);
      DigitRunAll(t, k - 1);
      assert !CommaBefore(t, k - 1) by {
        if k > 1 {
          var q := (|t| - m) / 3;
          assert DigitRun(t, k - 1) == 3 * q + (m - k + 1);
          assert 0 < m - k + 1 < 3;
        }
      }
      assert GroupedUpTo(t, k) == GroupedUpTo(t, k - 1) + [t[k - 1]];
      assert t[..k] == t[..k - 1] + [t[k - 1]];
    }
  }

  /** On a string of digits `commas` is the grouping by thousands from the
      right. */
  lemma CommasOfDigits(t: string)
    requires AllDigits(t)
    ensures Commas(t) == GroupThousands(t)
  {
    assert forall k :: 0 <= k < |t| ==> t[k] != '.';
    GroupedUpToThousands(t, |t|);
    assert t[..|t|] == t;
  }

  // ---------------------------------------------------------------------
  // toFixedTrunc

  /** What `toFixedTrunc(x, n)` returns: the integer part alone when
      `n <= 0`, otherwise the integer part, a `.` and the first `n` digits
      of the fraction, padded with `0`s. */
  function FixedTrunc(x: string, n: int): (r: string)
    ensures var v := Split(x, '.');
      n <= 0 ==> r == v[0]
    ensures var v := Split(x, '.');
      n > 0 ==> |r| == |v[0]| + 1 + n && r[..|v[0]| + 1] == v[0] + "."
    ensures var v := Split(x, '.');
      n > 0 ==> forall i :: 0 <= i < n ==>
        r[|v[0]| + 1 + i] == (if i < |Piece(v, 1)| then Piece(v, 1)[i] else '0')
  {
    var v := Split(x, '.');
    if n <= 0 then v[0]
    else
      var f := Piece(v, 1);
      var digits := if |f| > n then f[..n] else f + Zeros(n - |f|);
      v[0] + "." + digits
  }

  function Zeros(k: nat): (r: string)
    ensures |r| == k && forall i :: 0 <= i < k ==> r[i] == '0'
  {
    if k == 0 then "" else Zeros(k - 1) + "0"
  }

  /** `toFixedTrunc(x, n)` on the text `x` of a number. */
  method ToFixedTrunc(x: string, n: int) returns (r: string)
    ensures r == FixedTrunc(x, n)
  {
    var v := Split(x, '.');
    if n <= 0 {
      return v[0];
    }
    var f := if |v| > 1 then v[1] else "";
    if |f| > n {
      return v[0] + "." + f[..n];
    }
    while |f| < n
      invariant |Piece(v, 1)| <= |f| <= n
      invariant f == Piece(v, 1) + Zeros(|f| - |Piece(v, 1)|)
      decreases n - |f|
    {
      f := f + "0";
    }
    r := v[0] + "." + f;
  }

  /** Cutting to `n` digits again changes nothing. */
  lemma FixedTruncIdempotent(x: string, n: int)
    ensures FixedTrunc(FixedTrunc(x, n), n) == FixedTrunc(x, n)
  {
    var v := Split(x, '.');
    var r := FixedTrunc(x, n);
    if n > 0 {
      var head, tail := v[0], r[|v[0]| + 1..];
      assert r == head + "." + tail;
      assert '.' !in tail;
      SplitAt(head, tail);
      var w := Split(r, '.');
      assert w[0] == head && Piece(w, 1) == tail;
      var r2 := FixedTrunc(r, n);
      assert |r2| == |r|;
      forall i | 0 <= i < |r| ensures r2[i] == r[i] {
        if i < |head| + 1 {
          assert r2[..|head| + 1] == r[..|head| + 1];
          assert r2[i] == r2[..|head| + 1][i];
        }
      }
    } else {
      assert '.' !in r;
    }
  }

  /** Splitting `head.tail`, with no `.` in either, gives the two of them. */
  lemma SplitAt(head: string, tail: string)
    requires '.' !in head && '.' !in tail
    ensures Split(head + "." + tail, '.') == [head, tail]
  {
    var s := head + "." + tail;
    assert s[|head|] == '.' && s[..|head|] == head;
    var k := Find(s, '.');
    assert k != -1;
    assert k == |head|;
    assert s[|head| + 1..] == tail;
  }

  // ---------------------------------------------------------------------
  // toUpperCamelCase

  /** `s.replace(/\b(\w)/g, c => c.toUpperCase())`, character by character:
      a word character that follows no word character starts a word and
      is upper-cased. `afterWord` tells whether the character before `s`
      was a word character. */
  function Capitalized(s: string, afterWord: bool): (r: string)
    ensures |r| == |s|
  {
    if s == [] then ""
    else
      var c := if IsWordChar(s[0]) && !afterWord then UpperChar(s[0]) else s[0];
      [c] + Capitalized(s[1..], IsWordChar(s[0]))
  }

  /** Character `i` is upper-cased exactly when it is a word character
      that follows no word character (`\b` before `\w`); every other
      character is kept. */
  lemma {:induction false} CapitalizedAt(s: string, afterWord: bool, i: nat)
    requires i < |s|
    ensures Capitalized(s, afterWord)[i]
      == if IsWordChar(s[i]) && !(if i == 0 then afterWord else IsWordChar(s[i - 1])) then UpperChar(s[i]) else s[i]
    decreases i
  {
    if i > 0 {
      CapitalizedAt(s[1..], IsWordChar(s[0]), i - 1);
      assert s[1..][i - 1] == s[i];
      if i > 1 {
        assert s[1..][i - 2] == s[i - 1];
      }
    }
  }

  /** `s.replace(/\s+/g, '')`: every white-space character is removed. */
  function WithoutSpaces(s: string): (r: string)
    ensures |r| <= |s| && forall k :: 0 <= k < |r| ==> !IsJsSpace(r[k])
  {
    if s == [] then "" else (if IsJsSpace(s[0]) then "" else [s[0]]) + WithoutSpaces(s[1..])
  }

  /** Every other character is kept as often as it occurs. */
  lemma {:induction false} WithoutSpacesKeeps(s: string)
    ensures forall c :: multiset(WithoutSpaces(s))[c] == if IsJsSpace(c) then 0 else multiset(s)[c]
    decreases |s|
  {
    if s != [] {
      WithoutSpacesKeeps(s[1..]);
      assert s == [s[0]] + s[1..];
    }
  }

  /** The characters kept stay in their order. */
  lemma {:induction false} WithoutSpacesSubsequence(s: string)
    ensures IsSubsequence(WithoutSpaces(s), s)
    decreases |s|
  {
    if s != [] {
      WithoutSpacesSubsequence(s[1..]);
      var r := WithoutSpaces(s);
      if IsJsSpace(s[0]) {
        assert r == WithoutSpaces(s[1..]);
        if r != [] {
          assert IsSubsequence(r, s[1..]);
        }
      } else {
        assert r[0] == s[0] && r[1..] == WithoutSpaces(s[1..]);
      }
    }
  }

  /** `toUpperCamelCase(str)`: the characters of `str` but its white space,
      each word start upper-cased (`Capitalized`). */
  function ToUpperCamelCase(s: string): (r: string)
    ensures |r| <= |s| && forall k :: 0 <= k < |r| ==> !IsJsSpace(r[k])
    ensures forall c :: multiset(r)[c] == if IsJsSpace(c) then 0 else multiset(Capitalized(s, false))[c]
  {
    WithoutSpacesKeeps(Capitalized(s, false));
    WithoutSpaces(Capitalized(s, false))
  }

  predicate IsWord(w: string) {
    w != [] && forall k :: 0 <= k < |w| ==> IsWordChar(w[k])
  }

  /** A word with its first letter upper-cased. */
  function CapitalizedWord(w: string): (r: string)
    requires IsWord(w)
    ensures |r| == |w| && r[0] == UpperChar(w[0]) && r[1..] == w[1..]
  {
    [UpperChar(w[0])] + w[1..]
  }

  function CamelWords(ws: seq<string>): string
    requires forall i :: 0 <= i < |ws| ==> IsWord(ws[i])
  {
    if ws == [] then "" else CapitalizedWord(ws[0]) + CamelWords(ws[1..])
  }

  /** Words separated by single spaces come out capitalised and glued
      together: `toUpperCamelCase("radon string")` is `"RadonString"`. */
  lemma {:induction false} UpperCamelCaseOfWords(ws: seq<string>)
    requires |ws| >= 1 && forall i :: 0 <= i < |ws| ==> IsWord(ws[i])
    ensures ToUpperCamelCase(Join(ws, ' ')) == CamelWords(ws)
  {
    CamelPassSplits(Join(ws, ' '), false);
    CamelPassWords(ws);
  }

  lemma {:induction false} CamelPassWords(ws: seq<string>)
    requires |ws| >= 1 && forall i :: 0 <= i < |ws| ==> IsWord(ws[i])
    ensures CamelPass(Join(ws, ' '), false) == CamelWords(ws)
    decreases |ws|
  {
    var w := ws[0];
    if |ws| == 1 {
      CamelPassWord(w, "");
      assert Join(ws, ' ') == w + "";
      assert CamelPass("", true) == "";
      assert ws[1..] == [];
      assert CamelWords(ws) == CapitalizedWord(w) + "";
    } else {
      var rest := Join(ws[1..], ' ');
      assert Join(ws, ' ') == w + (" " + rest);
      CamelPassWord(w, " " + rest);
      assert (" " + rest)[0] == ' ' && (" " + rest)[1..] == rest;
      assert CamelPass(" " + rest, true) == CamelPass(rest, false);
      CamelPassWords(ws[1..]);
    }
  }

  /** A word at a word start is capitalised, and the pass goes on after it. */
  lemma CamelPassWord(w: string, rest: string)
    requires IsWord(w)
    ensures CamelPass(w + rest, false) == CapitalizedWord(w) + CamelPass(rest, true)
  {
    assert (w + rest)[0] == w[0] && (w + rest)[1..] == w[1..] + rest;
    assert !IsJsSpace(w[0]);
    CamelPassInWord(w[1..], rest);
  }

  /** Inside a word nothing changes. */
  lemma {:induction false} CamelPassInWord(w: string, rest: string)
    requires forall k :: 0 <= k < |w| ==> IsWordChar(w[k])
    ensures CamelPass(w + rest, true) == w + CamelPass(rest, true)
    decreases |w|
  {
    if w != [] {
      assert (w + rest)[0] == w[0] && (w + rest)[1..] == w[1..] + rest;
      assert !IsJsSpace(w[0]);
      CamelPassInWord(w[1..], rest);
    } else {
      assert w + rest == rest;
    }
  }

  /** Both passes in one: what the two replacements leave of `s`. */
  function CamelPass(s: string, afterWord: bool): string {
    if s == [] then ""
    else if IsJsSpace(s[0]) then CamelPass(s[1..], false)
    else
      var c := if IsWordChar(s[0]) && !afterWord then UpperChar(s[0]) else s[0];
      [c] + CamelPass(s[1..], IsWordChar(s[0]))
  }

  lemma {:induction false} CamelPassSplits(s: string, afterWord: bool)
    ensures CamelPass(s, afterWord) == WithoutSpaces(Capitalized(s, afterWord))
    decreases |s|
  {
    if s != [] {
      CamelPassSplits(s[1..], IsWordChar(s[0]));
      if IsJsSpace(s[0]) {
        CamelPassSplits(s[1..], false);
        assert !IsWordChar(s[0]);
      }
    }
  }

  lemma {:induction false} CamelPassStable(s: string, before: bool, after: bool)
    requires before ==> after
    ensures Capitalized(CamelPass(s, before), after) == CamelPass(s, before)
    decreases |s|
  {
    if s != [] {
      if IsJsSpace(s[0]) {
        CamelPassStable(s[1..], false, after);
        CamelPassStable(s[1..], false, false);
      } else {
        CamelPassStable(s[1..], IsWordChar(s[0]), IsWordChar(s[0]));
      }
    }
  }

  /** A string in upper camel case stays as it is. */
  lemma UpperCamelCaseIdempotent(s: string)
    ensures ToUpperCamelCase(ToUpperCamelCase(s)) == ToUpperCamelCase(s)
  {
    var t := ToUpperCamelCase(s);
    CamelPassSplits(s, false);
    CamelPassStable(s, false, false);
    NoSpacesUnchanged(Capitalized(t, false));
  }

  lemma {:induction false} NoSpacesUnchanged(s: string)
    requires forall k :: 0 <= k < |s| ==> !IsJsSpace(s[k])
    ensures WithoutSpaces(s) == s
  {
    if s != [] {
      NoSpacesUnchanged(s[1..]);
    }
  }
}
