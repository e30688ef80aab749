/** The hand-written text codec of helpers.js: `toUtf8Array` turns a string,
    seen as its UTF-16 code units, into UTF-8 bytes (the shapes of section 3
    of RFC 3629), and `utf8ArrayToStr` turns bytes back into code units.
    Bitwise `|` in the source always joins operands whose bits do not
    overlap, so it is written here as `+`; `>> k` on these non-negative
    values is division by 2^k and `& m` with m = 2^k - 1 is `% 2^k`. */
module Utf8 {
  import opened Common

  type Byte = x: int | 0 <= x < 0x100
  type CodeUnit = x: int | 0 <= x < 0x1_0000

  /** A UTF-16 surrogate code unit (section 2.1 of RFC 2781). */
  predicate IsSurrogate(c: CodeUnit) { 0xD800 <= c < 0xE000 }

  predicate HasSurrogate(s: seq<CodeUnit>) {
    exists i :: 0 <= i < |s| && IsSurrogate(s[i])
  }

  /** A continuation byte `10xx xxxx`. */
  predicate IsContinuation(b: Byte) { 0x80 <= b < 0xC0 }

  /** How many bytes section 3 of RFC 3629 uses for a code point below U+10000. */
  function UnitSize(c: CodeUnit): nat {
    if c < 0x80 then 1 else if c < 0x800 then 2 else 3
  }

  /** The bytes `toUtf8Array` pushes for one code unit below 0xD800 or at or
      above 0xE000 (src/lib/helpers.js:406-415); a surrogate unit never
      gets here in the encoder as written. */
  function EncodeUnit(c: CodeUnit): (r: seq<Byte>)
    ensures |r| == UnitSize(c)
    ensures |r| == 1 ==> r[0] == c
    ensures |r| == 2 ==> r[0] / 16 in {12, 13} && r[0] >= 0xC2 && IsContinuation(r[1])
    ensures |r| == 3 ==> r[0] / 16 == 14 && IsContinuation(r[1]) && IsContinuation(r[2])
  {
    if c < 0x80 then [c]
    else if c < 0x800 then [0xC0 + c / 64, 0x80 + c % 64]
    else [0xE0 + c / 4096, 0x80 + (c / 64) % 64, 0x80 + c % 64]
  }

  /** The per-unit encodings, in order: what `toUtf8Array` builds for a
      surrogate-free string. */
  function Encoded(s: seq<CodeUnit>): seq<Byte>
  {
    if s == [] then [] else EncodeUnit(s[0]) + Encoded(s[1..])
  }

  /** What `toUtf8Array` returns or throws. The first surrogate code unit
      reaches line 422, which assigns to the `const charcode` and so throws. */
  function ToUtf8(s: seq<CodeUnit>): (r: Result<seq<Byte>>)
    ensures r.Failure? <==> HasSurrogate(s)
    ensures r.Failure? ==> r.error == TypeError("Assignment to constant variable.")
    ensures r.Success? ==> |r.value| == TotalSize(s) && Decoded(r.value) == s
  {
    if HasSurrogate(s) then Failure(TypeError("Assignment to constant variable."))
    else
      EncodedLength(s);
      DecodeEncoded(s);
      Success(Encoded(s))
  }

  function TotalSize(s: seq<CodeUnit>): nat {
    if s == [] then 0 else UnitSize(s[0]) + TotalSize(s[1..])
  }

  /** `toUtf8Array(str)` (src/lib/helpers.js:402-431). */
  method ToUtf8Array(str: seq<CodeUnit>) returns (r: Result<seq<Byte>>)
    ensures r == ToUtf8(str)
    ensures r.Failure? <==> HasSurrogate(str)
  {
    var utf8: seq<Byte> := [];
    var i := 0;
    while i < |str|
      invariant 0 <= i <= |str|
      invariant !HasSurrogate(str[..i]) && utf8 == Encoded(str[..i])
    {
      var charcode := str[i];
      if IsSurrogate(charcode) {
        assert HasSurrogate(str);
        return Failure(TypeError("Assignment to constant variable."));
      }
      if charcode < 0x80 {
        utf8 := utf8 + [charcode];
      } else if charcode < 0x800 {
        utf8 := utf8 + [0xC0 + charcode / 64, 0x80 + charcode % 64];
      } else {
        utf8 := utf8 + [0xE0 + charcode / 4096, 0x80 + (charcode / 64) % 64, 0x80 + charcode % 64];
      }
      PrefixStep(str, i);
      i := i + 1;
    }
    assert str[..i] == str;
    return Success(utf8);
  }

  /** Byte `i`, or 0 past the end: `array[i]` is then `undefined`, and
      `undefined & 0x3F` is 0. */
  function At(b: seq<Byte>, i: nat): Byte {
    if i < |b| then b[i] else 0
  }

  /** `c >> 4`, the switch value of the decoding loop. */
  function HighNibble(c: Byte): (n: nat)
    ensures n < 16 && n * 16 <= c < n * 16 + 16
  {
    c / 16
  }

  /** How many bytes `utf8ArrayToStr` consumes for a lead byte, by its high
      nibble `c >> 4`: 0-7 one, 12-13 (0xC0-0xDF) two, 14 (0xE0-0xEF) three;
      a byte with high nibble 8-11 (a stray continuation) or 15 (a 4-byte
      lead) is consumed alone. */
  function Width(c: Byte): (n: nat)
    ensures 1 <= n <= 3
  {
    if 0xC0 <= c < 0xE0 then 2 else if 0xE0 <= c < 0xF0 then 3 else 1
  }

  /** What the step of the loop that starts at byte `i` appends to `out`
      (src/lib/helpers.js:442-459): one code unit, or nothing for nibbles
      8-11 and 15. On 0xC0-0xDF, `c & 0x1F` is `c - 0xC0`; on 0xE0-0xEF,
      `c & 0x0F` is `c - 0xE0`. */
  function Emitted(b: seq<Byte>, i: nat): (r: seq<CodeUnit>)
    requires i < |b|
    ensures |r| <= 1
  {
    var c := b[i] as int;
    if c < 0x80 then [c]
    else if 0xC0 <= c < 0xE0 then [(c - 0xC0) * 64 + At(b, i + 1) % 64]
    else if 0xE0 <= c < 0xF0 then [(c - 0xE0) * 4096 + (At(b, i + 1) % 64) * 64 + At(b, i + 2) % 64]
    else []
  }

  /** The code units `utf8ArrayToStr` produces from position `i` on: step
      after step, each step emitting at most one unit. */
  function DecodedFrom(b: seq<Byte>, i: nat): seq<CodeUnit>
    decreases |b| - i
  {
    if i >= |b| then [] else Emitted(b, i) + DecodedFrom(b, i + Width(b[i]))
  }

  function Decoded(b: seq<Byte>): (r: seq<CodeUnit>)
    ensures |r| <= |b|
  {
    DecodedLength(b, 0);
    DecodedFrom(b, 0)
  }

  /** `utf8ArrayToStr(array)` (src/lib/helpers.js:433-463). */
  method Utf8ArrayToStr(bytes: seq<Byte>) returns (out: seq<CodeUnit>)
    ensures out == Decoded(bytes)
    ensures |out| <= |bytes|
  {
    out := [];
    var len := |bytes|;
    var i := 0;
    while i < len
      invariant 0 <= i <= len + 2
      invariant out + DecodedFrom(bytes, i) == Decoded(bytes)
      decreases len - i
    {
      ghost var start, before := i, out;
      var c: int := bytes[i];
      var nibble := HighNibble(bytes[i]);
      i := i + 1;
      if nibble < 8 {
        out := out + [c];
        StepOne(bytes, start);
      } else if nibble == 12 || nibble == 13 {
        var char2: int := At(bytes, i);
        i := i + 1;
        out := out + [(c % 32) * 64 + char2 % 64];
        StepTwo(bytes, start);
      } else if nibble == 14 {
        var char2: int := At(bytes, i);
        var char3: int := At(bytes, i + 1);
        i := i + 2;
        out := out + [(c % 16) * 4096 + (char2 % 64) * 64 + char3 % 64];
        StepThree(bytes, start);
      } else {
        StepSkipped(bytes, start);
      }
      DecodeAdvance(bytes, start, before, out);
    }
    DecodedLength(bytes, 0);
  }

  /** The loop's nibble tests pick the step `Width` and `Emitted` describe:
      a byte 0xxx xxxx is a unit by itself, ... */
  lemma StepOne(bytes: seq<Byte>, k: nat)
    requires k < |bytes| && HighNibble(bytes[k]) < 8
    ensures Width(bytes[k]) == 1 && Emitted(bytes, k) == [bytes[k]]
  {
  }

  /** ... a lead byte 110x xxxx gives five bits and the next byte six, ... */
  lemma StepTwo(bytes: seq<Byte>, k: nat)
    requires k < |bytes| && (HighNibble(bytes[k]) == 12 || HighNibble(bytes[k]) == 13)
    ensures Width(bytes[k]) == 2
    ensures Emitted(bytes, k) == [(bytes[k] % 32) * 64 + At(bytes, k + 1) % 64]
  {
  }

  /** ... a lead byte 1110 xxxx gives four bits and each of the next two six, ... */
  lemma StepThree(bytes: seq<Byte>, k: nat)
    requires k < |bytes| && HighNibble(bytes[k]) == 14
    ensures Width(bytes[k]) == 3
    ensures Emitted(bytes, k) == [(bytes[k] % 16) * 4096 + (At(bytes, k + 1) % 64) * 64 + At(bytes, k + 2) % 64]
  {
  }

  /** ... and any other byte is passed over without output. */
  lemma StepSkipped(bytes: seq<Byte>, k: nat)
    requires k < |bytes| && (8 <= HighNibble(bytes[k]) < 12 || HighNibble(bytes[k]) == 15)
    ensures Width(bytes[k]) == 1 && Emitted(bytes, k) == []
  {
  }

  /** One step of the loop keeps `out + DecodedFrom(bytes, i) == Decoded(bytes)`. */
  lemma DecodeAdvance(bytes: seq<Byte>, start: nat, before: seq<CodeUnit>, after: seq<CodeUnit>)
    requires start < |bytes|
    requires before + DecodedFrom(bytes, start) == Decoded(bytes)
    requires after == before + Emitted(bytes, start)
    ensures after + DecodedFrom(bytes, start + Width(bytes[start])) == Decoded(bytes)
  {
    DecodedStep(bytes, start);
    Regroup(before, Emitted(bytes, start), DecodedFrom(bytes, start + Width(bytes[start])), Decoded(bytes), after);
  }

  lemma DecodedStep(b: seq<Byte>, i: nat)
    requires i < |b|
    ensures DecodedFrom(b, i) == Emitted(b, i) + DecodedFrom(b, i + Width(b[i]))
  {
  }

  lemma Regroup<T>(before: seq<T>, e: seq<T>, rest: seq<T>, whole: seq<T>, after: seq<T>)
    requires before + (e + rest) == whole && after == before + e
    ensures after + rest == whole
  {
  }

  /** The decoder emits at most one code unit per byte it consumes. */
  lemma {:induction false} DecodedLength(b: seq<Byte>, i: nat)
    requires i <= |b|
    ensures |DecodedFrom(b, i)| <= |b| - i
    decreases |b| - i
  {
    if i < |b| {
      var j := i + Width(b[i]);
      if j <= |b| {
        DecodedLength(b, j);
      }
    }
  }

  /** Decoding does not look at bytes before the position it starts from. */
  lemma {:induction false} DecodedShift(p: seq<Byte>, rest: seq<Byte>, j: nat)
    ensures DecodedFrom(p + rest, |p| + j) == DecodedFrom(rest, j)
    decreases |rest| - j
  {
    if j < |rest| {
      var w := Width(rest[j]);
      EmittedShift(p, rest, j);
      DecodedStepTo(p + rest, |p| + j, |p| + (j + w));
      DecodedStep(rest, j);
      DecodedShift(p, rest, j + w);
    }
  }

  lemma DecodedStepTo(b: seq<Byte>, i: nat, k: nat)
    requires i < |b| && k == i + Width(b[i])
    ensures DecodedFrom(b, i) == Emitted(b, i) + DecodedFrom(b, k)
  {
  }

  lemma EmittedShift(p: seq<Byte>, rest: seq<Byte>, j: nat)
    requires j < |rest|
    ensures (p + rest)[|p| + j] == rest[j]
    ensures Emitted(p + rest, |p| + j) == Emitted(rest, j)
  {
    var b := p + rest;
    assert b[|p| + j] == rest[j];
    assert At(b, |p| + j + 1) == At(rest, j + 1) && At(b, |p| + j + 2) == At(rest, j + 2);
  }

  /** Growing the encoded prefix by one non-surrogate unit. */
  lemma PrefixStep(str: seq<CodeUnit>, i: nat)
    requires i < |str| && !IsSurrogate(str[i]) && !HasSurrogate(str[..i])
    ensures !HasSurrogate(str[..i + 1])
    ensures Encoded(str[..i + 1]) == Encoded(str[..i]) + EncodeUnit(str[i])
  {
    assert str[..i + 1] == str[..i] + [str[i]];
    EncodedSnoc(str[..i], str[i]);
    ghost var done := str[..i + 1];
    forall k | 0 <= k < i + 1 ensures !IsSurrogate(done[k]) {
      if k < i { assert done[k] == str[..i][k]; }
    }
  }

  /** Encoding one more unit appends its bytes. */
  lemma {:induction false} EncodedSnoc(s: seq<CodeUnit>, c: CodeUnit)
    ensures Encoded(s + [c]) == Encoded(s) + EncodeUnit(c)
    decreases |s|
  {
    if s == [] {
      assert [] + [c] == [c];
      assert [c][1..] == [];
    } else {
      assert (s + [c])[1..] == s[1..] + [c];
      EncodedSnoc(s[1..], c);
    }
  }

  /** The output length is the sum of the per-unit sizes 1, 2 or 3. */
  lemma {:induction false} EncodedLength(s: seq<CodeUnit>)
    ensures |Encoded(s)| == TotalSize(s)
    decreases |s|
  {
    if s != [] {
      EncodedLength(s[1..]);
    }
  }

  lemma SuffixNoSurrogate(s: seq<CodeUnit>)
    requires s != [] && !HasSurrogate(s)
    ensures !IsSurrogate(s[0]) && !HasSurrogate(s[1..])
  {
    forall k | 0 <= k < |s| - 1 ensures !IsSurrogate(s[1..][k]) {
      assert s[1..][k] == s[k + 1];
    }
  }

  /** Decoding the bytes of one code unit, followed by anything, gives back
      that code unit followed by the decoding of the rest. */
  lemma DecodeUnit(c: CodeUnit, rest: seq<Byte>)
    ensures Decoded(EncodeUnit(c) + rest) == [c] + Decoded(rest)
  {
    var p := EncodeUnit(c);
    var b := p + rest;
    DecodedShift(p, rest, 0);
    assert DecodedFrom(b, 0) == Emitted(b, 0) + DecodedFrom(b, |p|);
    if c < 0x80 {
    } else if c < 0x800 {
      assert b[0] == 0xC0 + c / 64 && At(b, 1) == 0x80 + c % 64;
      TwoByteArith(c);
    } else {
      assert b[0] == 0xE0 + c / 4096;
      assert At(b, 1) == 0x80 + (c / 64) % 64 && At(b, 2) == 0x80 + c % 64;
      ThreeByteArith(c);
    }
  }

  lemma TwoByteArith(c: int)
    requires 0x80 <= c < 0x800
    ensures ((0xC0 + c / 64) % 32) * 64 + (0x80 + c % 64) % 64 == c
  {
    var q, r := c / 64, c % 64;
    assert c == q * 64 + r;
    assert (0xC0 + q) % 32 == q;
    assert (0x80 + r) % 64 == r;
  }

  lemma ThreeByteArith(c: int)
    requires 0x800 <= c < 0x10000
    ensures ((0xE0 + c / 4096) % 16) * 4096 + ((0x80 + (c / 64) % 64) % 64) * 64 + (0x80 + c % 64) % 64 == c
  {
    var q1, r0 := c / 64, c % 64;
    assert c == q1 * 64 + r0;
    var q2, r1 := q1 / 64, q1 % 64;
    assert q1 == q2 * 64 + r1;
    assert c == q2 * 4096 + r1 * 64 + r0;
    assert q2 == c / 4096;
    assert (0xE0 + q2) % 16 == q2;
    assert (0x80 + r1) % 64 == r1;
    assert (0x80 + r0) % 64 == r0;
  }

  lemma FourByteArith(cp: int)
    requires 0 <= cp < 0x110000
    ensures var b0, b1, b2, b3 := 0xF0 + cp / 0x40000, 0x80 + (cp / 0x1000) % 64, 0x80 + (cp / 64) % 64, 0x80 + cp % 64;
      (b0 % 8) * 0x40000 + (b1 % 64) * 0x1000 + (b2 % 64) * 64 + b3 % 64 == cp
  {
    var q1, r0 := cp / 64, cp % 64;
    assert cp == q1 * 64 + r0;
    var q2, r1 := q1 / 64, q1 % 64;
    assert q1 == q2 * 64 + r1;
    assert q2 == cp / 0x1000;
    var q3, r2 := q2 / 64, q2 % 64;
    assert q2 == q3 * 64 + r2;
    assert cp == q3 * 0x40000 + r2 * 0x1000 + r1 * 64 + r0;
    assert q3 == cp / 0x40000;
    assert (0xF0 + q3) % 8 == q3;
    assert (0x80 + r2) % 64 == r2;
    assert (0x80 + r1) % 64 == r1;
    assert (0x80 + r0) % 64 == r0;
  }

  /** Round trip: decoding the per-unit encodings gives the code units back.
      With `ToUtf8` this is `utf8ArrayToStr(toUtf8Array(s)) == s` for every
      string on which `toUtf8Array` does not throw. */
  lemma {:induction false} DecodeEncoded(s: seq<CodeUnit>)
    ensures Decoded(Encoded(s)) == s
    decreases |s|
  {
    if s != [] {
      var rest := s[1..];
      DecodeUnit(s[0], Encoded(rest));
      DecodeEncoded(rest);
    }
  }

  /** The two code units of U+1F600 reach the surrogate branch, so
      `toUtf8Array` throws instead of producing four bytes. */
  lemma SurrogatePairThrows()
    ensures ToUtf8([0xD83D, 0xDE00]).Failure?
  {
    assert IsSurrogate([0xD83D, 0xDE00][0]);
  }

  /** Code unit `i`, or NaN past the end, which `& 0x3ff` turns into 0. */
  function UnitAt(s: seq<CodeUnit>, i: nat): CodeUnit {
    if i < |s| then s[i] else 0
  }

  /** The code point a surrogate unit and the unit after it stand for:
      ten bits from each on top of U+10000 (section 2.2 of RFC 2781). */
  function PairCodePoint(high: CodeUnit, low: CodeUnit): (cp: int)
    ensures 0x10000 <= cp < 0x110000
  {
    0x10000 + (high % 1024) * 1024 + low % 1024
  }

  /** The 4-byte form of section 3 of RFC 3629: a `11110xxx` lead and three
      continuations that carry the 21 bits of the code point. */
  function FourBytes(cp: int): (r: seq<Byte>)
    requires 0x10000 <= cp < 0x110000
    ensures |r| == 4 && r[0] / 8 == 0x1E
    ensures IsContinuation(r[1]) && IsContinuation(r[2]) && IsContinuation(r[3])
    ensures (r[0] as int % 8) * 0x40000 + (r[1] as int % 64) * 0x1000 + (r[2] as int % 64) * 64 + r[3] as int % 64 == cp
  {
    FourByteArith(cp);
    [0xF0 + cp / 0x40000, 0x80 + (cp / 0x1000) % 64, 0x80 + (cp / 64) % 64, 0x80 + cp % 64]
  }

  /** The encoder as evidently intended: the surrogate branch combines the
      unit with the next one and emits the 4-byte form of the code point;
      other units as before. */
  function EncodedIntended(s: seq<CodeUnit>): seq<Byte>
    decreases |s|
  {
    if s == [] then []
    else if !IsSurrogate(s[0]) then EncodeUnit(s[0]) + EncodedIntended(s[1..])
    else FourBytes(PairCodePoint(s[0], UnitAt(s, 1))) + EncodedIntended(if |s| >= 2 then s[2..] else [])
  }

  /** A high/low surrogate pair becomes the 4-byte form of the code point
      U+10000 + (high - 0xD800) * 0x400 + (low - 0xDC00). */
  lemma IntendedPairEncoding(high: CodeUnit, low: CodeUnit)
    requires 0xD800 <= high < 0xDC00 && 0xDC00 <= low < 0xE000
    ensures EncodedIntended([high, low]) == FourBytes(0x10000 + (high - 0xD800) * 0x400 + (low - 0xDC00))
  {
    IntendedOnPair(high, low);
    PairCodePointValue(high, low);
  }

  lemma PairCodePointValue(high: CodeUnit, low: CodeUnit)
    requires 0xD800 <= high < 0xDC00 && 0xDC00 <= low < 0xE000
    ensures PairCodePoint(high, low) == 0x10000 + (high - 0xD800) * 0x400 + (low - 0xDC00)
  {
    assert high % 1024 == high - 0xD800 && low % 1024 == low - 0xDC00;
  }

  lemma IntendedOnPair(high: CodeUnit, low: CodeUnit)
    requires IsSurrogate(high)
    ensures EncodedIntended([high, low]) == FourBytes(PairCodePoint(high, low))
  {
    var s: seq<CodeUnit> := [high, low];
    assert UnitAt(s, 1) == low && s[2..] == [];
    assert EncodedIntended(s) == FourBytes(PairCodePoint(high, low)) + EncodedIntended([]);
  }

  /** On surrogate-free strings the intended encoder is the one as written. */
  lemma {:induction false} IntendedAgreesWithoutSurrogates(s: seq<CodeUnit>)
    requires !HasSurrogate(s)
    ensures EncodedIntended(s) == Encoded(s)
    decreases |s|
  {
    if s != [] {
      SuffixNoSurrogate(s);
      IntendedAgreesWithoutSurrogates(s[1..]);
    }
  }
}
