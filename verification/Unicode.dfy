/** UTF-8 (RFC 3629) and UTF-16 surrogate pairs (RFC 2781): the reference for the `\u` escapes. */
module Unicode {
  import opened CText

  predicate IsHighSurrogate(u: nat) { 0xD800 <= u <= 0xDBFF }

  predicate IsLowSurrogate(u: nat) { 0xDC00 <= u <= 0xDFFF }

  /** A Unicode scalar value (RFC 3629, section 3). */
  predicate IsScalar(cp: nat) {
    cp <= 0x10FFFF && !IsHighSurrogate(cp) && !IsLowSurrogate(cp)
  }

  /** The octets of one character, as the table in section 3 of RFC 3629 lays out its bits. */
  function Utf8(cp: nat): (s: bytes)
    requires cp <= 0x10FFFF
    ensures 1 <= |s| <= 4
  {
    if cp < 0x80 then [cp]
    else if cp < 0x800 then [0xC0 + cp / 64, 0x80 + cp % 64]
    else if cp < 0x10000 then [0xE0 + cp / 64 / 64, 0x80 + cp / 64 % 64, 0x80 + cp % 64]
    else [0xF0 + cp / 64 / 64 / 64, 0x80 + cp / 64 / 64 % 64, 0x80 + cp / 64 % 64, 0x80 + cp % 64]
  }

  predicate IsTail(b: byte) { 0x80 <= b <= 0xBF }

  /** The `UTF8-char` rule of the grammar in section 4 of RFC 3629: shortest forms only, no surrogates. */
  predicate IsUtf8Char(s: bytes) {
    || (|s| == 1 && s[0] <= 0x7F)
    || (|s| == 2 && 0xC2 <= s[0] <= 0xDF && IsTail(s[1]))
    || (|s| == 3 && IsTail(s[2])
        && (|| (s[0] == 0xE0 && 0xA0 <= s[1] <= 0xBF)
            || (0xE1 <= s[0] <= 0xEC && IsTail(s[1]))
            || (s[0] == 0xED && 0x80 <= s[1] <= 0x9F)
            || (0xEE <= s[0] <= 0xEF && IsTail(s[1]))))
    || (|s| == 4 && IsTail(s[2]) && IsTail(s[3])
        && (|| (s[0] == 0xF0 && 0x90 <= s[1] <= 0xBF)
            || (0xF1 <= s[0] <= 0xF3 && IsTail(s[1]))
            || (s[0] == 0xF4 && 0x80 <= s[1] <= 0x8F)))
  }

  /** Payload bits followed by the six payload bits of one more octet. */
  function Extend(bits: int, tail: byte): int {
    bits * 64 + (tail as int - 0x80)
  }

  /** The character number that a `UTF8-char` carries. */
  function CodePoint(s: bytes): (cp: nat)
    requires IsUtf8Char(s)
  {
    var lead := s[0] as int;
    if |s| == 1 then lead
    else if |s| == 2 then Extend(lead - 0xC0, s[1])
    else if |s| == 3 then Extend(Extend(lead - 0xE0, s[1]), s[2])
    else Extend(Extend(Extend(lead - 0xF0, s[1]), s[2]), s[3])
  }

  /** Each character has one encoding, it is well formed, and it decodes to the character. */
  lemma Utf8IsWellFormed(cp: nat)
    requires IsScalar(cp)
    ensures IsUtf8Char(Utf8(cp)) && CodePoint(Utf8(cp)) == cp
  {
  }

  lemma Utf8IsOnlyEncoding(s: bytes)
    requires IsUtf8Char(s)
    ensures IsScalar(CodePoint(s)) && Utf8(CodePoint(s)) == s
  {
    var lead := s[0] as int;
    if |s| == 2 {
      ExtendInverse(lead - 0xC0, s[1]);
    } else if |s| == 3 {
      ExtendInverse(lead - 0xE0, s[1]);
      ExtendInverse(Extend(lead - 0xE0, s[1]), s[2]);
    } else if |s| == 4 {
      ExtendInverse(lead - 0xF0, s[1]);
      ExtendInverse(Extend(lead - 0xF0, s[1]), s[2]);
      ExtendInverse(Extend(Extend(lead - 0xF0, s[1]), s[2]), s[3]);
    }
  }

  lemma ExtendInverse(bits: nat, tail: byte)
    requires IsTail(tail)
    ensures Extend(bits, tail) / 64 == bits && 0x80 + Extend(bits, tail) % 64 == tail
  {
  }

  /** The character number of a surrogate pair (section 2.2 of RFC 2781). */
  function PairCodePoint(hi: nat, lo: nat): (cp: nat)
    requires IsHighSurrogate(hi) && IsLowSurrogate(lo)
    ensures 0x10000 <= cp <= 0x10FFFF
  {
    0x10000 + (hi - 0xD800) * 1024 + (lo - 0xDC00)
  }

  /** UTF-16 encoding of a supplementary character (section 2.1 of RFC 2781). */
  function SurrogatePair(cp: nat): (p: (nat, nat))
    requires 0x10000 <= cp <= 0x10FFFF
    ensures IsHighSurrogate(p.0) && IsLowSurrogate(p.1)
  {
    (0xD800 + (cp - 0x10000) / 1024, 0xDC00 + (cp - 0x10000) % 1024)
  }

  lemma PairRoundTrip(cp: nat, hi: nat, lo: nat)
    requires 0x10000 <= cp <= 0x10FFFF && IsHighSurrogate(hi) && IsLowSurrogate(lo)
    ensures SurrogatePair(cp) == (hi, lo) <==> PairCodePoint(hi, lo) == cp
  {
  }

  /** The example of section 2.3 of RFC 2781, and characters of two, three and four octets. */
  lemma Examples()
    ensures SurrogatePair(0x12345) == (0xD808, 0xDF45) && PairCodePoint(0xD808, 0xDF45) == 0x12345
    ensures Utf8(0xC9) == [0xC3, 0x89] && Utf8(0x2262) == [0xE2, 0x89, 0xA2]
    ensures Utf8(0x233B4) == [0xF0, 0xA3, 0x8E, 0xB4]
  {
  }
}
