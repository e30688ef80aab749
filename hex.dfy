/** Base 16 text (section 8 of RFC 4648) as helpers.js writes, reads and
    recognises it: `toHexString`, `fromHexString` and `isHexString`. */
module Hex {
  import opened Common
  import opened Values
  import U = Utf8

  type Byte = U.Byte

  /** `n.toString(16)`: lower-case digits, no leading zeros. */
  function Radix16(n: nat): (r: string)
    ensures 1 <= |r| && forall i :: 0 <= i < |r| ==> IsHexDigit(r[i])
    ensures n < 16 ==> r == [HexDigitChar(n)]
    ensures 16 <= n < 256 ==> r == [HexDigitChar(n / 16), HexDigitChar(n % 16)]
  {
    if n < 16 then [HexDigitChar(n)] else Radix16(n / 16) + [HexDigitChar(n % 16)]
  }

  /** `('00' + x.toString(16)).slice(-2)`, the text of one byte. */
  function HexPair(x: Byte): string {
    var t := "00" + Radix16(x);
    t[|t| - 2..]
  }

  /** Every byte becomes its two lower-case digits, high nibble first. */
  lemma HexPairDigits(x: Byte)
    ensures HexPair(x) == [HexDigitChar(x / 16), HexDigitChar(x % 16)]
  {
    if x < 16 {
      assert "00" + Radix16(x) == ['0', '0', HexDigitChar(x)];
    } else {
      assert "00" + Radix16(x) == ['0', '0', HexDigitChar(x / 16), HexDigitChar(x % 16)];
    }
  }

  /** `buffer.map(byte => HexPair(byte)).join('')`. */
  function JoinedPairs(b: seq<Byte>): (r: string)
    ensures |r| == 2 * |b|
  {
    if b == [] then "" else HexPair(b[0]) + JoinedPairs(b[1..])
  }

  /** Byte `i` is written at positions `2i` and `2i + 1`. */
  lemma {:induction false} JoinedAt(b: seq<Byte>, i: nat)
    requires i < |b|
    ensures JoinedPairs(b)[2 * i] == HexDigitChar(b[i] / 16)
    ensures JoinedPairs(b)[2 * i + 1] == HexDigitChar(b[i] % 16)
  {
    if i == 0 {
      HexPairDigits(b[0]);
    } else {
      JoinedAt(b[1..], i - 1);
    }
  }

  lemma {:induction false} JoinedIsHex(b: seq<Byte>)
    ensures forall k :: 0 <= k < |JoinedPairs(b)| ==> IsHexDigit(JoinedPairs(b)[k])
  {
    if b != [] {
      JoinedIsHex(b[1..]);
      HexPairDigits(b[0]);
    }
  }

  /** `s.match(/[a-fA-F0-9]{2}/g)` from position `i` on: the leftmost pair
      of hex digits, then the search goes on after it. */
  function PairsFrom(s: string, i: nat): seq<string>
    decreases |s| - i
  {
    if i + 1 >= |s| then []
    else if IsHexDigit(s[i]) && IsHexDigit(s[i + 1]) then [s[i..i + 2]] + PairsFrom(s, i + 2)
    else PairsFrom(s, i + 1)
  }

  function Concat(pieces: seq<string>): string {
    if pieces == [] then "" else pieces[0] + Concat(pieces[1..])
  }

  /** On a string of hex digits of even length the match finds the pairs
      that make it up, so joining them gives the string back. */
  lemma {:induction false} PairsOfHexText(s: string, i: nat)
    requires i <= |s| && (|s| - i) % 2 == 0
    requires forall k :: i <= k < |s| ==> IsHexDigit(s[k])
    ensures Concat(PairsFrom(s, i)) == s[i..]
    ensures PairsFrom(s, i) == [] <==> i == |s|
    decreases |s| - i
  {
    if i < |s| {
      PairsOfHexText(s, i + 2);
      assert s[i..] == s[i..i + 2] + s[i + 2..];
    }
  }

  /** `toHexString(buffer)` (src/lib/helpers.js:192-197). On an empty
      buffer the match finds nothing and `null.join` throws. */
  function ToHexString(b: seq<Byte>): (r: Result<string>)
    ensures r.Success? <==> b != []
    ensures r.Success? ==> r.value == "0x" + JoinedPairs(b)
  {
    var joined := JoinedPairs(b);
    JoinedIsHex(b);
    PairsOfHexText(joined, 0);
    var pairs := PairsFrom(joined, 0);
    if pairs == [] then Failure(TypeError("Cannot read properties of null (reading 'join')"))
    else Success("0x" + Concat(pairs))
  }

  /** What `toHexString` writes: `0x`, then two lower-case digits per byte,
      high nibble first. */
  lemma ToHexStringDigits(b: seq<Byte>)
    requires b != []
    ensures |ToHexString(b).value| == 2 + 2 * |b| && ToHexString(b).value[..2] == "0x"
    ensures forall i :: 0 <= i < |b| ==>
      ToHexString(b).value[2 + 2 * i] == HexDigitChar(b[i] / 16)
      && ToHexString(b).value[3 + 2 * i] == HexDigitChar(b[i] % 16)
  {
    forall i | 0 <= i < |b|
      ensures ToHexString(b).value[2 + 2 * i] == HexDigitChar(b[i] / 16)
      ensures ToHexString(b).value[3 + 2 * i] == HexDigitChar(b[i] % 16)
    {
      JoinedAt(b, i);
    }
  }

  /** `s.match(/.{1,2}/g)` from position `i` on: `.` does not match a line
      terminator, so those are passed over, and every other run is cut into
      pieces of two characters, the last possibly of one. */
  function ChunksFrom(s: string, i: nat): (r: seq<string>)
    ensures forall k :: 0 <= k < |r| ==> 1 <= |r[k]| <= 2
    decreases |s| - i
  {
    if i >= |s| then []
    else if IsLineTerminator(s[i]) then ChunksFrom(s, i + 1)
    else if i + 1 < |s| && !IsLineTerminator(s[i + 1]) then [s[i..i + 2]] + ChunksFrom(s, i + 2)
    else [s[i..i + 1]] + ChunksFrom(s, i + 1)
  }

  /** The match finds something exactly when some character from `i` on is
      not a line terminator. */
  lemma {:induction false} ChunksEmpty(s: string, i: nat)
    ensures ChunksFrom(s, i) == [] <==> forall k :: i <= k < |s| ==> IsLineTerminator(s[k])
    decreases |s| - i
  {
    if i < |s| && IsLineTerminator(s[i]) {
      ChunksEmpty(s, i + 1);
    }
  }

  function TrimStart(s: string): (r: string)
    ensures r == [] || !IsJsSpace(r[0])
    ensures |r| <= |s| && r == s[|s| - |r|..]
  {
    if s != [] && IsJsSpace(s[0]) then TrimStart(s[1..]) else s
  }

  /** The longest prefix of hexadecimal digits. */
  function LeadingHex(s: string): (r: string)
    ensures |r| <= |s| && r == s[..|r|]
    ensures forall k :: 0 <= k < |r| ==> IsHexDigit(s[k])
    ensures |r| < |s| ==> !IsHexDigit(s[|r|])
  {
    if s != [] && IsHexDigit(s[0]) then [s[0]] + LeadingHex(s[1..]) else ""
  }

  /** The number written by a string of hexadecimal digits. */
  function HexNumber(d: string): (n: nat)
    requires forall k :: 0 <= k < |d| ==> IsHexDigit(d[k])
  {
    if d == [] then 0 else HexNumber(d[..|d| - 1]) * 16 + HexValue(d[|d| - 1])
  }

  /** `parseInt(s, 16)`: leading white space is skipped, then an optional
      sign, then an optional `0x`/`0X`, then the longest run of hex digits;
      `None` stands for NaN, the result when that run is empty. */
  function ParseIntHex(s: string): Option<int> {
    var t := TrimStart(s);
    var negative := t != [] && t[0] == '-';
    var u := if t != [] && (t[0] == '+' || t[0] == '-') then t[1..] else t;
    var w := if |u| >= 2 && u[0] == '0' && (u[1] == 'x' || u[1] == 'X') then u[2..] else u;
    var digits := LeadingHex(w);
    if digits == [] then None
    else var magnitude: int := HexNumber(digits); Some(if negative then -magnitude else magnitude)
  }

  /** A hexadecimal digit is not white space. */
  lemma HexDigitNoSpace(c: char)
    requires IsHexDigit(c)
    ensures !IsJsSpace(c)
  {
  }

  /** A run of hexadecimal digits is read to its end. */
  lemma {:induction false} HexRunWhole(s: string)
    requires forall k :: 0 <= k < |s| ==> IsHexDigit(s[k])
    ensures LeadingHex(s) == s
    decreases |s|
  {
    if s != [] {
      HexRunWhole(s[1..]);
    }
  }

  /** A non-empty run of hexadecimal digits reads as the number it writes:
      no sign, no `0x` and nothing left unread. */
  lemma ParseIntHexOfDigits(s: string)
    requires s != [] && forall k :: 0 <= k < |s| ==> IsHexDigit(s[k])
    ensures ParseIntHex(s) == Some(HexNumber(s))
  {
    HexDigitNoSpace(s[0]);
    assert TrimStart(s) == s;
    assert !(s[0] == '+' || s[0] == '-');
    assert !(|s| >= 2 && s[0] == '0' && (s[1] == 'x' || s[1] == 'X'));
    HexRunWhole(s);
  }

  /** The conversion `Uint8Array.from` applies to each element: NaN becomes
      0, any other integer is reduced modulo 256. */
  function ToUint8(v: Option<int>): Byte {
    match v
    case None => 0
    case Some(n) => n % 256
  }

  /** What is left once a leading `0x` is sliced off. */
  function StripPrefix(s: string): (r: string)
    ensures StartsWith(s, "0x") ==> r == s[2..]
    ensures !StartsWith(s, "0x") ==> r == s
  {
    if StartsWith(s, "0x") then s[2..] else s
  }

  /** `fromHexString(hexString)` (src/lib/helpers.js:123-126). When the
      match finds nothing it returns `null`, and `null.map` throws. */
  function FromHexString(s: string): (r: Result<seq<Byte>>)
    ensures r.Failure? <==> forall k :: 0 <= k < |StripPrefix(s)| ==> IsLineTerminator(StripPrefix(s)[k])
    ensures r.Success? ==> |r.value| == |ChunksFrom(StripPrefix(s), 0)|
  {
    var chunks := ChunksFrom(StripPrefix(s), 0);
    ChunksEmpty(StripPrefix(s), 0);
    if chunks == [] then Failure(TypeError("Cannot read properties of null (reading 'map')"))
    else
      var bytes: seq<Byte> := seq(|chunks|, i requires 0 <= i < |chunks| => ToUint8(ParseIntHex(chunks[i])));
      Success(bytes)
  }

  /** Two hex digits read back as the number they write. */
  lemma ParseTwoDigits(p: string)
    requires |p| == 2 && IsHexDigit(p[0]) && IsHexDigit(p[1])
    ensures ParseIntHex(p) == Some(HexValue(p[0]) * 16 + HexValue(p[1]))
  {
    ParseIntHexOfDigits(p);
    TwoDigitsNumber(p);
    var n := HexNumber(p);
    assert ParseIntHex(p) == Some(n);
    assert n == HexValue(p[0]) * 16 + HexValue(p[1]);
  }

  lemma TwoDigitsNumber(p: string)
    requires |p| == 2 && IsHexDigit(p[0]) && IsHexDigit(p[1])
    ensures HexNumber(p) == HexValue(p[0]) * 16 + HexValue(p[1])
  {
    assert HexNumber(p[..1]) == HexValue(p[0]) by {
      assert p[..1][..0] == [];
    }
  }

  /** `parseInt` reads the text of a byte back as that byte. */
  lemma ParsePair(x: Byte)
    ensures ParseIntHex(HexPair(x)) == Some(x as int)
  {
    var p := HexPair(x);
    var hi, lo := x / 16, x % 16;
    HexPairAt(x);
    assert HexValue(p[0]) == hi && HexValue(p[1]) == lo;
    ParseTwoDigits(p);
    assert hi * 16 + lo == x as int;
  }

  lemma HexPairAt(x: Byte)
    ensures |HexPair(x)| == 2 && HexPair(x)[0] == HexDigitChar(x / 16) && HexPair(x)[1] == HexDigitChar(x % 16)
  {
    HexPairDigits(x);
  }

  /** The texts of the bytes, one per byte. */
  function PairTexts(b: seq<Byte>): (r: seq<string>)
    ensures |r| == |b| && forall k :: 0 <= k < |b| ==> r[k] == HexPair(b[k])
  {
    if b == [] then [] else [HexPair(b[0])] + PairTexts(b[1..])
  }

  /** Chunking a string after a prefix of `|p|` characters, counted from the
      end of the prefix, is chunking the rest. */
  lemma {:induction false} ChunksShift(p: string, s: string, i: nat)
    ensures ChunksFrom(p + s, |p| + i) == ChunksFrom(s, i)
    decreases |s| - i
  {
    var t := p + s;
    if i >= |s| {
    } else if IsLineTerminator(s[i]) {
      assert t[|p| + i] == s[i];
      ChunksShift(p, s, i + 1);
    } else if i + 1 < |s| && !IsLineTerminator(s[i + 1]) {
      assert t[|p| + i] == s[i] && t[|p| + i + 1] == s[i + 1];
      assert t[|p| + i..|p| + i + 2] == s[i..i + 2];
      ChunksShift(p, s, i + 2);
    } else {
      assert t[|p| + i] == s[i];
      assert i + 1 < |s| ==> t[|p| + i + 1] == s[i + 1];
      assert t[|p| + i..|p| + i + 1] == s[i..i + 1];
      ChunksShift(p, s, i + 1);
    }
  }

  /** The chunks of the digits `toHexString` writes are the bytes' texts. */
  lemma {:induction false} ChunksOfJoined(b: seq<Byte>)
    ensures ChunksFrom(JoinedPairs(b), 0) == PairTexts(b)
  {
    if b != [] {
      var p := HexPair(b[0]);
      var s := JoinedPairs(b);
      HexPairDigits(b[0]);
      assert s == p + JoinedPairs(b[1..]);
      assert s[0..2] == p;
      ChunksShift(p, JoinedPairs(b[1..]), 0);
      ChunksOfJoined(b[1..]);
    }
  }

  /** Each chunk is read with `parseInt(chunk, 16)` and stored as a byte. */
  lemma FromHexBytes(s: string)
    ensures var chunks := ChunksFrom(StripPrefix(s), 0);
      && (FromHexString(s).Success? <==> chunks != [])
      && (FromHexString(s).Success? ==> |FromHexString(s).value| == |chunks|)
      && (FromHexString(s).Success? ==>
            forall k :: 0 <= k < |chunks| ==> FromHexString(s).value[k] == ToUint8(ParseIntHex(chunks[k])))
  {
  }

  lemma ByteUnchanged(x: Byte)
    ensures ToUint8(Some(x as int)) == x
  {
  }

  lemma ReadPair(x: Byte)
    ensures ToUint8(ParseIntHex(HexPair(x))) == x
  {
    ParsePair(x);
    ByteUnchanged(x);
  }

  /** A text whose chunks are the texts of `b` reads back as `b`. */
  lemma ReadPairTexts(s: string, b: seq<Byte>)
    requires b != [] && ChunksFrom(StripPrefix(s), 0) == PairTexts(b)
    ensures FromHexString(s) == Success(b)
  {
    FromHexBytes(s);
    var r := FromHexString(s);
    assert r.Success? && |r.value| == |b|;
    forall k | 0 <= k < |b| ensures r.value[k] == b[k] {
      ReadPair(b[k]);
    }
    assert r.value == b;
  }

  lemma ReadJoinedPairs(b: seq<Byte>)
    requires b != []
    ensures FromHexString("0x" + JoinedPairs(b)) == Success(b)
  {
    var text := "0x" + JoinedPairs(b);
    assert StripPrefix(text) == JoinedPairs(b);
    ChunksOfJoined(b);
    ReadPairTexts(text, b);
  }

  /** Round trip: `fromHexString(toHexString(b))` gives back every non-empty
      byte array. */
  lemma HexRoundTrip(b: seq<Byte>)
    requires b != []
    ensures ToHexString(b).Success? && FromHexString(ToHexString(b).value) == Success(b)
  {
    ReadJoinedPairs(b);
  }

  /** `/^[a-fA-F0-9]+$/i.test(s)`. */
  predicate AllHex(s: string) {
    s != [] && forall k :: 0 <= k < |s| ==> IsHexDigit(s[k])
  }

  /** `isHexString(str)` (src/lib/helpers.js:182-190): a string of one or
      more hex digits, of either case, with or without a leading `0x`. */
  function IsHexString(v: JsValue): (r: bool)
    ensures r <==> v.Str? && (AllHex(v.s) || (|v.s| > 2 && v.s[..2] == "0x" && AllHex(v.s[2..])))
  {
    match v
    case Str(s) => (StartsWith(s, "0x") && AllHex(s[2..])) || AllHex(s)
    case _ => false
  }

  /** What `toHexString` writes, `isHexString` accepts. */
  lemma ToHexIsHex(b: seq<Byte>)
    requires b != []
    ensures IsHexString(Str(ToHexString(b).value))
  {
    var t := ToHexString(b).value;
    JoinedIsHex(b);
    assert t[2..] == JoinedPairs(b) && t[..2] == "0x";
  }

  /** A lone `0x` holds no digits: `fromHexString` throws on it and
      `isHexString` rejects it. */
  lemma EmptyHexPayload()
    ensures FromHexString("0x").Failure?
    ensures !IsHexString(Str("0x"))
  {
    assert StripPrefix("0x") == [];
    assert !IsHexDigit("0x"[1]);
  }
}
