/** ICU's UnicodeString as a sequence of UTF-16 code units, the conversion
    from text to it, and the case folding the library applies to names. */
module Unicode {

  /** A UTF-16 code unit (ICU's UChar). */
  newtype Unit = x: int | 0 <= x < 0x1_0000

  /** ICU's UnicodeString: a sequence of code units. */
  type UString = seq<Unit>

  const SPACE: Unit := 0x20

  /** 'ё' (U+0451) and 'е' (U+0435), the two letters database.cc
      normalises for the stripped-status lookup. */
  const YO: Unit := 0x451
  const YE: Unit := 0x435

  predicate IsSurrogate(v: int) {
    0xD800 <= v < 0xE000
  }

  predicate IsHighSurrogate(u: Unit) {
    0xD800 <= u as int < 0xDC00
  }

  predicate IsLowSurrogate(u: Unit) {
    0xDC00 <= u as int < 0xE000
  }

  /** The UTF-16 encoding of one Unicode scalar value. */
  function EncodeChar(c: char): (r: UString)
    ensures |r| == (if (c as int) < 0x1_0000 then 1 else 2)
    ensures (c as int) < 0x1_0000 ==> r[0] as int == c as int && !IsSurrogate(r[0] as int)
    ensures (c as int) >= 0x1_0000 ==> IsHighSurrogate(r[0]) && IsLowSurrogate(r[1])
  {
    var v := c as int;
    if v < 0x1_0000 then
      [v as Unit]
    else
      [(0xD800 + (v - 0x1_0000) / 0x400) as Unit, (0xDC00 + (v - 0x1_0000) % 0x400) as Unit]
  }

  /** UnicodeString::fromUTF8: text (a sequence of scalar values) to code units. */
  function Utf16(s: string): (r: UString)
    ensures |r| >= |s|
  {
    if |s| == 0 then [] else EncodeChar(s[0]) + Utf16(s[1..])
  }

  /** Decoding of code units back to scalar values; an unpaired surrogate
      becomes U+FFFD, as in ICU. */
  function DecodeUtf16(us: UString): (r: string)
    ensures |r| <= |us|
  {
    if |us| == 0 then []
    else if |us| >= 2 && IsHighSurrogate(us[0]) && IsLowSurrogate(us[1]) then
      [(0x1_0000 + (us[0] as int - 0xD800) * 0x400 + (us[1] as int - 0xDC00)) as char] + DecodeUtf16(us[2..])
    else if IsSurrogate(us[0] as int) then
      ['�'] + DecodeUtf16(us[1..])
    else
      [us[0] as int as char] + DecodeUtf16(us[1..])
  }

  lemma DecodeEncodeChar(c: char, rest: UString)
    ensures DecodeUtf16(EncodeChar(c) + rest) == [c] + DecodeUtf16(rest)
  {
    var us := EncodeChar(c) + rest;
    if (c as int) < 0x1_0000 {
      assert us[1..] == rest;
    } else {
      var v := c as int - 0x1_0000;
      assert us[2..] == rest;
      assert (us[0] as int - 0xD800) * 0x400 + (us[1] as int - 0xDC00) == v;
    }
  }

  /** The conversion to code units loses nothing: decoding gives the text back.
      In particular two different texts never share a UnicodeString. */
  lemma {:induction false} DecodeUtf16Inverse(s: string)
    ensures DecodeUtf16(Utf16(s)) == s
  {
    if |s| > 0 {
      DecodeUtf16Inverse(s[1..]);
      DecodeEncodeChar(s[0], Utf16(s[1..]));
    }
  }

  lemma Utf16Injective(a: string, b: string)
    requires Utf16(a) == Utf16(b)
    ensures a == b
  {
    DecodeUtf16Inverse(a);
    DecodeUtf16Inverse(b);
  }

  lemma {:induction false} Utf16Concat(a: string, b: string)
    ensures Utf16(a + b) == Utf16(a) + Utf16(b)
  {
    if |a| == 0 {
      assert a + b == b;
    } else {
      assert (a + b)[1..] == a[1..] + b;
      Utf16Concat(a[1..], b);
    }
  }

  /** The case mapping on code points: Latin A-Z, Cyrillic А-Я, and the
      Cyrillic capitals U+0400-U+040F (Ѐ, Ё, ...) to their small letters;
      everything else is left alone. */
  function LowerCode(v: int): (r: int)
    ensures (0 <= v < 0xD800) == (0 <= r < 0xD800)
    ensures v >= 0xD800 ==> r == v
  {
    if 0x41 <= v <= 0x5A then v + 0x20
    else if 0x400 <= v <= 0x40F then v + 0x50
    else if 0x410 <= v <= 0x42F then v + 0x20
    else v
  }

  function LowerChar(c: char): char {
    LowerCode(c as int) as char
  }

  function LowerUnit(u: Unit): Unit {
    LowerCode(u as int) as Unit
  }

  /** std::string lower-casing through ICU, as Name's tokenizer does it. */
  function LowerString(s: string): (r: string)
    ensures |r| == |s| && forall i :: 0 <= i < |s| ==> r[i] == LowerChar(s[i])
  {
    seq(|s|, i requires 0 <= i < |s| => LowerChar(s[i]))
  }

  /** UnicodeString::toLower. */
  function LowerUnits(us: UString): (r: UString)
    ensures |r| == |us| && forall i :: 0 <= i < |us| ==> r[i] == LowerUnit(us[i])
  {
    seq(|us|, i requires 0 <= i < |us| => LowerUnit(us[i]))
  }

  lemma LowerCodeIdempotent(v: int)
    ensures LowerCode(LowerCode(v)) == LowerCode(v)
  {
  }

  lemma LowerUnitsIdempotent(us: UString)
    ensures LowerUnits(LowerUnits(us)) == LowerUnits(us)
  {
    forall i | 0 <= i < |us|
      ensures LowerUnits(LowerUnits(us))[i] == LowerUnits(us)[i]
    {
      LowerCodeIdempotent(us[i] as int);
    }
  }

  /** Lower-casing the text and then converting it gives the same code units
      as converting first and lower-casing the units: name.cc and
      database.cc fold case at different levels and agree. */
  lemma {:induction false} LowerCommutesWithUtf16(s: string)
    ensures Utf16(LowerString(s)) == LowerUnits(Utf16(s))
  {
    if |s| > 0 {
      var t := LowerString(s);
      assert t[1..] == LowerString(s[1..]);
      LowerCommutesWithUtf16(s[1..]);
      LowerEncodeChar(s[0]);
      LowerUnitsConcat(EncodeChar(s[0]), Utf16(s[1..]));
    }
  }

  /** Lower-casing one character agrees with lower-casing its code units. */
  lemma LowerEncodeChar(c: char)
    ensures EncodeChar(LowerChar(c)) == LowerUnits(EncodeChar(c))
  {
  }

  lemma LowerUnitsConcat(a: UString, b: UString)
    ensures LowerUnits(a + b) == LowerUnits(a) + LowerUnits(b)
  {
  }

  /** UnicodeString::findAndReplace of one code unit by another. */
  function ReplaceUnit(us: UString, from: Unit, to: Unit): (r: UString)
    ensures |r| == |us|
    ensures forall i :: 0 <= i < |us| ==> r[i] == (if us[i] == from then to else us[i])
  {
    seq(|us|, i requires 0 <= i < |us| => if us[i] == from then to else us[i])
  }

  lemma ReplaceRemovesAll(us: UString, from: Unit, to: Unit)
    requires from != to
    ensures from !in ReplaceUnit(us, from, to)
    ensures us == ReplaceUnit(us, from, to) <==> from !in us
  {
    var r := ReplaceUnit(us, from, to);
    if from in us {
      var i :| 0 <= i < |us| && us[i] == from;
      assert r[i] != us[i];
    }
  }
}
