/**
 * The content size rules: how many bytes a snippet may hold, the label shown
 * for that cap, and the byte size of a text, which is the length of its UTF-8
 * encoding (RFC 3629, section 3). A JavaScript string is a sequence of UTF-16
 * code units that may hold unpaired surrogates; the encoder writes U+FFFD for
 * each of those.
 */
module ContentSize {
  import opened Strings

  /** A UTF-16 code unit. */
  type CodeUnit = x: int | 0 <= x < 0x1_0000

  /** An octet of UTF-8 output. */
  type Byte = x: int | 0 <= x < 0x100

  const KiB: int := 1024
  const MiB: int := 1024 * 1024

  /** The cap for a signed-in author. */
  const SignedInLimit: int := 1048576
  /** The cap for an anonymous author. */
  const AnonymousLimit: int := 262144

  // ---------------------------------------------------------------------------
  // Caps and their labels
  // ---------------------------------------------------------------------------

  /** The cap on a snippet's size in bytes; an anonymous author gets a quarter. */
  function ContentSizeLimit(isLoggedIn: bool): (limit: int)
    ensures limit == if isLoggedIn then SignedInLimit else AnonymousLimit
    ensures !isLoggedIn ==> limit * 4 == SignedInLimit
  {
    if isLoggedIn then 1048576 else 262144
  }

  /** The label shown for the cap. */
  function ContentSizeLimitText(isLoggedIn: bool): string
  {
    if isLoggedIn then "1MB" else "256KB"
  }

  /** Each label spells its cap: whole mebibytes for a signed-in author, kibibytes otherwise. */
  lemma LimitTextMatchesLimit(isLoggedIn: bool)
    ensures isLoggedIn ==> (ContentSizeLimit(isLoggedIn) % MiB == 0
      && ContentSizeLimitText(isLoggedIn) == NatToString(ContentSizeLimit(isLoggedIn) / MiB) + "MB")
    ensures !isLoggedIn ==> (ContentSizeLimit(isLoggedIn) % KiB == 0
      && ContentSizeLimitText(isLoggedIn) == NatToString(ContentSizeLimit(isLoggedIn) / KiB) + "KB")
  {
    if isLoggedIn {
      assert ContentSizeLimit(isLoggedIn) / MiB == 1;
    } else {
      assert ContentSizeLimit(isLoggedIn) / KiB == 256;
      assert NatToString(256) == NatToString(25) + [DigitChar(6)];
      assert NatToString(25) == NatToString(2) + [DigitChar(5)];
    }
  }

  /**
   * `formatByteSize` below one kibibyte, where it picks the unit `B` and prints
   * the count as it is; zero short-cuts to `"0 B"`.
   */
  function FormatByteSize(bytes: int): (text: string)
    requires 0 <= bytes < KiB
    ensures bytes == 0 ==> text == "0 B"
    ensures text == NatToString(bytes) + " B"
  {
    if bytes == 0 then "0 B" else NatToString(bytes) + " B"
  }

  // ---------------------------------------------------------------------------
  // UTF-8 size of a sequence of UTF-16 code units
  // ---------------------------------------------------------------------------

  predicate IsHighSurrogate(u: int) { 0xD800 <= u <= 0xDBFF }
  predicate IsLowSurrogate(u: int) { 0xDC00 <= u <= 0xDFFF }

  /** `units` starts with a high surrogate followed by a low one. */
  predicate StartsWithPair(units: seq<CodeUnit>)
  {
    |units| >= 2 && IsHighSurrogate(units[0]) && IsLowSurrogate(units[1])
  }

  /**
   * `new Blob([str]).size`, unit by unit: an ASCII unit takes 1 byte, one
   * below U+0800 takes 2, a surrogate pair takes 4 and every other unit,
   * unpaired surrogates included, takes 3.
   */
  function Utf8ByteSize(units: seq<CodeUnit>): (n: nat)
    ensures units == [] ==> n == 0
    ensures |units| <= n <= 3 * |units|
    decreases |units|
  {
    if units == [] then 0
    else if StartsWithPair(units) then 4 + Utf8ByteSize(units[2..])
    else if units[0] < 0x80 then 1 + Utf8ByteSize(units[1..])
    else if units[0] < 0x800 then 2 + Utf8ByteSize(units[1..])
    else 3 + Utf8ByteSize(units[1..])
  }

  /** Sizes add up over a join that does not split a surrogate pair. */
  lemma {:induction false} Utf8ByteSizeAppend(a: seq<CodeUnit>, b: seq<CodeUnit>)
    requires !(a != [] && b != [] && IsHighSurrogate(a[|a| - 1]) && IsLowSurrogate(b[0]))
    ensures Utf8ByteSize(a + b) == Utf8ByteSize(a) + Utf8ByteSize(b)
    decreases |a|
  {
    if a == [] {
      assert a + b == b;
    } else if StartsWithPair(a) {
      assert (a + b)[2..] == a[2..] + b;
      Utf8ByteSizeAppend(a[2..], b);
    } else {
      assert (a + b)[1..] == a[1..] + b;
      if |a| == 1 {
        assert !StartsWithPair(a + b);
      } else {
        assert (a + b)[1] == a[1];
      }
      Utf8ByteSizeAppend(a[1..], b);
    }
  }

  // ---------------------------------------------------------------------------
  // The encoder the size stands for
  // ---------------------------------------------------------------------------

  /** The code points the units stand for; an unpaired surrogate reads as U+FFFD. */
  function CodePoints(units: seq<CodeUnit>): (cps: seq<int>)
    ensures forall k :: 0 <= k < |cps| ==> 0 <= cps[k] <= 0x10FFFF
    ensures forall k :: 0 <= k < |cps| ==> !(0xD800 <= cps[k] <= 0xDFFF)
    ensures units != [] && !StartsWithPair(units) && (IsHighSurrogate(units[0]) || IsLowSurrogate(units[0])) ==>
      |cps| >= 1 && cps[0] == 0xFFFD
    decreases |units|
  {
    if units == [] then []
    else if StartsWithPair(units) then
      [0x10000 + (units[0] as int - 0xD800) * 0x400 + (units[1] as int - 0xDC00)] + CodePoints(units[2..])
    else if IsHighSurrogate(units[0]) || IsLowSurrogate(units[0]) then [0xFFFD] + CodePoints(units[1..])
    else [units[0] as int] + CodePoints(units[1..])
  }

  /** The UTF-8 encoding of one code point (section 3 of RFC 3629). */
  function EncodeCodePoint(cp: int): (bytes: seq<Byte>)
    requires 0 <= cp <= 0x10FFFF
    ensures 1 <= |bytes| <= 4
  {
    if cp < 0x80 then [cp]
    else if cp < 0x800 then [0xC0 + cp / 0x40, 0x80 + cp % 0x40]
    else if cp < 0x1_0000 then [0xE0 + cp / 0x1000, 0x80 + (cp / 0x40) % 0x40, 0x80 + cp % 0x40]
    else [0xF0 + cp / 0x4_0000, 0x80 + (cp / 0x1000) % 0x40, 0x80 + (cp / 0x40) % 0x40, 0x80 + cp % 0x40]
  }

  /** Reads one code point back from its 1 to 4 encoded bytes. */
  function DecodeCodePoint(bytes: seq<Byte>): int
    requires 1 <= |bytes| <= 4
  {
    if |bytes| == 1 then bytes[0]
    else if |bytes| == 2 then (bytes[0] as int - 0xC0) * 0x40 + (bytes[1] as int - 0x80)
    else if |bytes| == 3 then (bytes[0] as int - 0xE0) * 0x1000 + (bytes[1] as int - 0x80) * 0x40 + (bytes[2] as int - 0x80)
    else (bytes[0] as int - 0xF0) * 0x4_0000 + (bytes[1] as int - 0x80) * 0x1000 + (bytes[2] as int - 0x80) * 0x40 + (bytes[3] as int - 0x80)
  }

  /** A continuation byte is `10xxxxxx`. */
  predicate IsContinuation(b: Byte) { 0x80 <= b < 0xC0 }

  /**
   * The encoding follows section 3 of RFC 3629: the lead byte announces the
   * length, the rest are continuation bytes, and decoding gives back the code
   * point.
   */
  lemma EncodeCodePointSound(cp: int)
    requires 0 <= cp <= 0x10FFFF
    ensures var bytes := EncodeCodePoint(cp);
      |bytes| == (if cp < 0x80 then 1 else if cp < 0x800 then 2 else if cp < 0x1_0000 then 3 else 4)
      && (|bytes| == 1 ==> bytes[0] < 0x80)
      && (|bytes| == 2 ==> 0xC0 <= bytes[0] < 0xE0)
      && (|bytes| == 3 ==> 0xE0 <= bytes[0] < 0xF0)
      && (|bytes| == 4 ==> 0xF0 <= bytes[0] < 0xF8)
      && (forall k :: 1 <= k < |bytes| ==> IsContinuation(bytes[k]))
      && DecodeCodePoint(bytes) == cp
  {
    var bytes := EncodeCodePoint(cp);
    if cp >= 0x1_0000 {
      var q := cp / 0x40;
      assert cp == q * 0x40 + cp % 0x40;
      assert q == (q / 0x40) * 0x40 + q % 0x40;
      assert cp / 0x1000 == q / 0x40;
      var r := cp / 0x1000;
      assert r == (r / 0x40) * 0x40 + r % 0x40;
      assert cp / 0x4_0000 == r / 0x40;
    } else if cp >= 0x800 {
      var q := cp / 0x40;
      assert cp == q * 0x40 + cp % 0x40;
      assert q == (q / 0x40) * 0x40 + q % 0x40;
      assert cp / 0x1000 == q / 0x40;
    }
  }

  /** The bytes the encoder writes for the units. */
  function Utf8Encode(units: seq<CodeUnit>): seq<Byte>
  {
    EncodeCodePoints(CodePoints(units))
  }

  function EncodeCodePoints(cps: seq<int>): seq<Byte>
    requires forall k :: 0 <= k < |cps| ==> 0 <= cps[k] <= 0x10FFFF
    decreases |cps|
  {
    if cps == [] then [] else EncodeCodePoint(cps[0]) + EncodeCodePoints(cps[1..])
  }

  /** The byte size counted unit by unit is the length of the encoder's output. */
  lemma {:induction false} Utf8ByteSizeIsEncodedLength(units: seq<CodeUnit>)
    ensures Utf8ByteSize(units) == |Utf8Encode(units)|
    decreases |units|
  {
    if units != [] {
      var cps := CodePoints(units);
      var rest := if StartsWithPair(units) then units[2..] else units[1..];
      assert cps[1..] == CodePoints(rest);
      assert Utf8Encode(units) == EncodeCodePoint(cps[0]) + Utf8Encode(rest);
      EncodeCodePointSound(cps[0]);
      Utf8ByteSizeIsEncodedLength(rest);
      if StartsWithPair(units) {
        assert cps[0] >= 0x1_0000;
        assert Utf8ByteSize(units) == 4 + Utf8ByteSize(rest);
      } else {
        assert cps[0] < 0x1_0000;
      }
    }
  }

  // ---------------------------------------------------------------------------
  // From code points to code units
  // ---------------------------------------------------------------------------

  /** The UTF-16 code units of a string of Unicode scalar values. */
  function Utf16(s: string): (units: seq<CodeUnit>)
    decreases |s|
  {
    if s == [] then []
    else
      var cp := s[0] as int;
      (if cp < 0x1_0000 then [cp]
       else [0xD800 + (cp - 0x1_0000) / 0x400, 0xDC00 + (cp - 0x1_0000) % 0x400]) + Utf16(s[1..])
  }

  /** JavaScript's `.length` counts exactly these code units. */
  lemma {:induction false} JsLengthCountsCodeUnits(s: string)
    ensures |Utf16(s)| == JsLength(s)
    decreases |s|
  {
    if s != [] {
      JsLengthCountsCodeUnits(s[1..]);
    }
  }

  /** The surrogate pair of a supplementary code point is a high and a low surrogate that decode back to it. */
  lemma SurrogatePair(cp: int)
    requires 0x1_0000 <= cp <= 0x10FFFF
    ensures IsHighSurrogate(0xD800 + (cp - 0x1_0000) / 0x400)
    ensures IsLowSurrogate(0xDC00 + (cp - 0x1_0000) % 0x400)
    ensures 0x10000 + (cp - 0x1_0000) / 0x400 * 0x400 + (cp - 0x1_0000) % 0x400 == cp
  {
    var v := cp - 0x1_0000;
    assert v == v / 0x400 * 0x400 + v % 0x400;
    assert v / 0x400 < 0x400;
  }

  /** A code point below U+10000 that is no surrogate is one unit, decoded as itself. */
  lemma DecodeBmp(cp: CodeUnit, rest: seq<CodeUnit>)
    requires !(0xD800 <= cp <= 0xDFFF)
    ensures CodePoints([cp] + rest) == [cp as int] + CodePoints(rest)
  {
    var units := [cp] + rest;
    assert !StartsWithPair(units);
    assert units[1..] == rest;
  }

  /** A supplementary code point is two units, decoded as one pair. */
  lemma DecodePair(cp: int, rest: seq<CodeUnit>)
    requires 0x1_0000 <= cp <= 0x10FFFF
    ensures var hi: CodeUnit, lo: CodeUnit := 0xD800 + (cp - 0x1_0000) / 0x400, 0xDC00 + (cp - 0x1_0000) % 0x400;
            CodePoints([hi, lo] + rest) == [cp] + CodePoints(rest)
  {
    SurrogatePair(cp);
    var hi: CodeUnit, lo: CodeUnit := 0xD800 + (cp - 0x1_0000) / 0x400, 0xDC00 + (cp - 0x1_0000) % 0x400;
    var units := [hi, lo] + rest;
    assert StartsWithPair(units);
    assert units[2..] == rest;
    assert 0x10000 + (hi as int - 0xD800) * 0x400 + (lo as int - 0xDC00) == cp;
  }

  /** The units of a string's first character decode to that character, whatever follows them. */
  lemma DecodeFirstChar(s: string)
    requires s != []
    ensures CodePoints(Utf16(s)) == [s[0] as int] + CodePoints(Utf16(s[1..]))
  {
    var cp := s[0] as int;
    if cp < 0x1_0000 {
      DecodeBmp(cp, Utf16(s[1..]));
    } else {
      DecodePair(cp, Utf16(s[1..]));
    }
  }

  /** The scalar values of a string, one per character. */
  lemma ScalarsCons(s: string)
    requires s != []
    ensures seq(|s|, k requires 0 <= k < |s| => s[k] as int)
      == [s[0] as int] + seq(|s[1..]|, k requires 0 <= k < |s[1..]| => s[1..][k] as int)
  {
  }

  /** A string holds no unpaired surrogate, so the units decode back to its characters. */
  lemma {:induction false} Utf16CodePoints(s: string)
    ensures CodePoints(Utf16(s)) == seq(|s|, k requires 0 <= k < |s| => s[k] as int)
    decreases |s|
  {
    if s != [] {
      Utf16CodePoints(s[1..]);
      DecodeFirstChar(s);
      ScalarsCons(s);
    }
  }
}
