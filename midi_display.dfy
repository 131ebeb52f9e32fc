/**
 * Text helpers of the MIDI monitor: `put_pitch`, which names a pitch
 * number, and `showbytes`, which prints the low bytes of a MIDI message in
 * hexadecimal, lowest byte first.
 *
 * Output to the console is modelled as the string that would be printed.
 */
module MidiDisplay {
  import opened Wrappers

  // ---------------------------------------------------------------- decimal

  predicate IsDigit(c: char) {
    '0' <= c <= '9'
  }

  /** The decimal digits of `n`, most significant first, without leading zeros. */
  function DecimalDigits(n: nat): (s: string)
    ensures 1 <= |s| && forall i :: 0 <= i < |s| ==> IsDigit(s[i])
    ensures s[0] == '0' <==> n == 0
    decreases n
  {
    if n < 10 then [('0' as int + n) as char]
    else DecimalDigits(n / 10) + [('0' as int + n % 10) as char]
  }

  /**
   * `printf("%d", i)`: a minus sign for negative values, then the digits.
   * `ParseDecimal` reads every such text back.
   */
  function Decimal(i: int): (s: string)
    ensures 1 <= |s| && (s[0] == '-' || IsDigit(s[0]))
    ensures ParseDecimal(s) == Some(i)
  {
    if i < 0 then
      var t := "-" + DecimalDigits(-i);
      assert t[1..] == DecimalDigits(-i);
      DigitsRoundTrip(-i);
      t
    else
      DigitsRoundTrip(i);
      DecimalDigits(i)
  }

  /** The value of a string of digits. */
  function DigitsValue(s: string): nat
    requires forall i :: 0 <= i < |s| ==> IsDigit(s[i])
    decreases |s|
  {
    if s == [] then 0
    else
      assert IsDigit(s[|s| - 1]);
      DigitsValue(s[..|s| - 1]) * 10 + (s[|s| - 1] as int - '0' as int)
  }

  /** A numeral as `%d` writes one: digits, and no leading zero unless the numeral is "0". */
  predicate IsNumeral(s: string) {
    0 < |s| && (forall i :: 0 <= i < |s| ==> IsDigit(s[i])) && (s[0] == '0' ==> |s| == 1)
  }

  /**
   * Reads back what `Decimal` writes: a numeral, or a minus sign followed by
   * a numeral other than "0".
   */
  function ParseDecimal(s: string): Option<int> {
    if 0 < |s| && s[0] == '-' then
      if IsNumeral(s[1..]) && s[1] != '0' then Some(-(DigitsValue(s[1..]) as int)) else None
    else if IsNumeral(s) then Some(DigitsValue(s))
    else None
  }

  lemma {:induction false} DigitsRoundTrip(n: nat)
    ensures DigitsValue(DecimalDigits(n)) == n
    decreases n
  {
    if 10 <= n {
      var s := DecimalDigits(n);
      assert s[..|s| - 1] == DecimalDigits(n / 10);
      DigitsRoundTrip(n / 10);
    }
  }

  /** A string of digits that does not start with '0' has a positive value. */
  lemma {:induction false} LeadingDigitPositive(s: string)
    requires 0 < |s| && (forall i :: 0 <= i < |s| ==> IsDigit(s[i])) && s[0] != '0'
    ensures DigitsValue(s) >= 1
    decreases |s|
  {
    if 1 < |s| {
      var t := s[..|s| - 1];
      assert t[0] == s[0];
      LeadingDigitPositive(t);
    }
  }

  /** Every numeral is the one `DecimalDigits` writes for its value. */
  lemma {:induction false} NumeralIsDigits(s: string)
    requires IsNumeral(s)
    ensures s == DecimalDigits(DigitsValue(s))
    decreases |s|
  {
    var n := DigitsValue(s);
    if |s| == 1 {
      assert s[..0] == [] && DigitsValue(s[..0]) == 0;
      assert n == s[0] as int - '0' as int;
    } else {
      var t, c := s[..|s| - 1], s[|s| - 1];
      assert t[0] == s[0] && IsNumeral(t);
      LeadingDigitPositive(t);
      NumeralIsDigits(t);
      var v, d := DigitsValue(t), c as int - '0' as int;
      assert n == v * 10 + d && 0 <= d < 10;
      assert n / 10 == v && n % 10 == d;
      assert s == t + [c];
    }
  }

  /** `Decimal(i)` is the one text that reads back as `i`. */
  lemma DecimalExactly(s: string, i: int)
    ensures ParseDecimal(s) == Some(i) <==> s == Decimal(i)
  {
    if ParseDecimal(s) == Some(i) {
      if 0 < |s| && s[0] == '-' {
        LeadingDigitPositive(s[1..]);
        NumeralIsDigits(s[1..]);
        assert s == "-" + s[1..];
      } else {
        NumeralIsDigits(s);
      }
    }
  }

  // ---------------------------------------------------------------- pitches

  /** Pitch-class names, from c upwards; black keys are spelled as sharps or flats as the monitor prints them. */
  const PitchNames: seq<string> := ["c", "cs", "d", "ef", "e", "f", "fs", "g", "gs", "a", "bf", "b"]

  predicate IsLetter(c: char) {
    'a' <= c <= 'z'
  }

  /**
   * `put_pitch`: the pitch-class name of `p` followed by its octave,
   * counted so that pitch 60 is in octave 4. The source returns the length
   * of this string. Distinct pitches get distinct names: `ParsePitch` reads
   * the pitch back. Callers pass a data byte, so `p` is non-negative; for a
   * negative `p` not divisible by 12, C's `%` would index outside the name
   * table.
   */
  function PitchName(p: int): (s: string)
    requires 0 <= p
    ensures ParsePitch(s) == Some(p)
  {
    NameThenOctaveParses(p);
    PitchNames[p % 12] + Decimal(p / 12 - 1)
  }

  /** Index of a pitch-class name in the table. */
  function NameIndex(name: string): (r: Option<nat>)
    ensures r.Some? ==> r.value < 12 && PitchNames[r.value] == name
  {
    if name == "c" then Some(0) else if name == "cs" then Some(1)
    else if name == "d" then Some(2) else if name == "ef" then Some(3)
    else if name == "e" then Some(4) else if name == "f" then Some(5)
    else if name == "fs" then Some(6) else if name == "g" then Some(7)
    else if name == "gs" then Some(8) else if name == "a" then Some(9)
    else if name == "bf" then Some(10) else if name == "b" then Some(11)
    else None
  }

  /** Length of the run of lower-case letters that starts `s`. */
  function LetterPrefix(s: string): (k: nat)
    ensures k <= |s|
    decreases |s|
  {
    if s == [] || !IsLetter(s[0]) then 0 else 1 + LetterPrefix(s[1..])
  }

  /** Reads a pitch back from its printed name. */
  function ParsePitch(s: string): Option<int> {
    var k := LetterPrefix(s);
    var name, octave := NameIndex(s[..k]), ParseDecimal(s[k..]);
    if name.Some? && octave.Some? && -1 <= octave.value then
      Some((octave.value + 1) * 12 + name.value)
    else None
  }

  lemma NameIndexOfName(i: nat)
    requires i < 12
    ensures NameIndex(PitchNames[i]) == Some(i)
  {
  }

  lemma {:induction false} LetterPrefixOfName(name: string, rest: string)
    requires forall i :: 0 <= i < |name| ==> IsLetter(name[i])
    requires rest != [] && !IsLetter(rest[0])
    ensures LetterPrefix(name + rest) == |name|
    decreases |name|
  {
    if name != [] {
      assert (name + rest)[1..] == name[1..] + rest;
      LetterPrefixOfName(name[1..], rest);
    } else {
      assert name + rest == rest;
    }
  }

  /** The name-table entry of `p` followed by its octave reads back as `p`. */
  lemma NameThenOctaveParses(p: int)
    requires 0 <= p
    ensures ParsePitch(PitchNames[p % 12] + Decimal(p / 12 - 1)) == Some(p)
  {
    var name, octave := PitchNames[p % 12], Decimal(p / 12 - 1);
    LetterPrefixOfName(name, octave);
    assert (name + octave)[..|name|] == name && (name + octave)[|name|..] == octave;
    NameIndexOfName(p % 12);
  }

  /** `PitchName(p)` is the one text that reads back as `p`. */
  lemma PitchNameExactly(s: string, p: int)
    ensures ParsePitch(s) == Some(p) <==> 0 <= p && s == PitchName(p)
  {
    if ParsePitch(s) == Some(p) {
      var k := LetterPrefix(s);
      var name, octave := NameIndex(s[..k]), ParseDecimal(s[k..]);
      var j, o := name.value, octave.value;
      assert p == (o + 1) * 12 + j && 0 <= j < 12 && 0 <= o + 1;
      assert p % 12 == j && p / 12 - 1 == o;
      DecimalExactly(s[k..], o);
      assert s == s[..k] + s[k..];
    }
  }

  /** Middle C is "c4", and the lowest MIDI pitch is in octave -1. */
  lemma PitchNameExamples()
    ensures PitchName(60) == "c4" && PitchName(0) == "c-1" && PitchName(127) == "g9"
  {
    assert PitchName(60) == "c4" by {
      assert DecimalDigits(4) == "4";
      assert PitchName(60) == PitchNames[0] + Decimal(4);
    }
    assert PitchName(0) == "c-1" by {
      assert DecimalDigits(1) == "1";
      assert PitchName(0) == PitchNames[0] + Decimal(-1);
    }
    assert PitchName(127) == "g9" by {
      assert DecimalDigits(9) == "9";
      assert PitchName(127) == PitchNames[7] + Decimal(9);
    }
  }

  lemma {:induction false} DecimalDigitsLength(n: nat, bound: nat)
    requires n < bound
    requires bound == 1 || bound == 10 || bound == 100 || bound == 1000 || bound == 10000 || bound == 100000
    ensures |DecimalDigits(n)| <= if bound == 1 then 1 else if bound == 10 then 1 else if bound == 100 then 2
      else if bound == 1000 then 3 else if bound == 10000 then 4 else 5
    decreases n
  {
    if 10 <= n {
      DecimalDigitsLength(n / 10, bound / 10);
    }
  }

  /**
   * The name fits the source's eight-byte buffer (seven characters and the
   * terminator) for every pitch below 1200012, in particular for every
   * byte a MIDI message can carry.
   */
  lemma PitchNameFits(p: int)
    requires 0 <= p < 1200012
    ensures |PitchName(p)| <= 7
  {
    DecimalDigitsLength(if p / 12 - 1 < 0 then 1 else p / 12 - 1, 100000);
  }

  // ---------------------------------------------------------------- bytes

  const HexDigits: string := "0123456789ABCDEF"

  /** The two hexadecimal characters of a byte, high nibble first. */
  function HexByte(b: Byte): (s: string)
    ensures |s| == 2
  {
    [HexDigits[b / 16], HexDigits[b % 16]]
  }

  /** The hexadecimal text of a list of bytes, in order. */
  function HexBytes(bs: seq<Byte>): (s: string)
    ensures |s| == 2 * |bs|
    decreases |bs|
  {
    if bs == [] then [] else HexByte(bs[0]) + HexBytes(bs[1..])
  }

  /** The value of a hexadecimal character, if it is one `HexByte` prints. */
  function HexValue(c: char): (v: Option<int>)
    ensures v.Some? ==> 0 <= v.value < 16
  {
    if '0' <= c <= '9' then Some(c as int - '0' as int)
    else if 'A' <= c <= 'F' then Some(c as int - 'A' as int + 10)
    else None
  }

  /** Reads bytes back from hexadecimal pairs; fails on an odd length or a foreign character. */
  function ParseHexBytes(s: string): Option<seq<Byte>>
    decreases |s|
  {
    if s == [] then Some([])
    else if |s| < 2 then None
    else match (HexValue(s[0]), HexValue(s[1]), ParseHexBytes(s[2..]))
      case (Some(hi), Some(lo), Some(rest)) => Some([hi * 16 + lo] + rest)
      case _ => None
  }

  lemma HexValueOfDigit(k: int)
    requires 0 <= k < 16
    ensures HexValue(HexDigits[k]) == Some(k)
  {
  }

  /** Parsing past the first byte's pair. */
  lemma ParseHexStep(b: Byte, t: string)
    ensures ParseHexBytes(HexByte(b) + t) == if ParseHexBytes(t).Some? then Some([b] + ParseHexBytes(t).value) else None
  {
    var s := HexByte(b) + t;
    assert s[0] == HexDigits[b / 16] && s[1] == HexDigits[b % 16] && s[2..] == t;
    HexValueOfDigit(b / 16);
    HexValueOfDigit(b % 16);
    assert HexValue(s[0]) == Some(b / 16) && HexValue(s[1]) == Some(b % 16);
    assert (b / 16) * 16 + b % 16 == b;
    match ParseHexBytes(t)
    case Some(rest) =>
      assert ParseHexBytes(s) == Some([b] + rest);
    case None =>
      assert ParseHexBytes(s) == None;
  }

  lemma {:induction false} HexRoundTrip(bs: seq<Byte>)
    ensures ParseHexBytes(HexBytes(bs)) == Some(bs)
    decreases |bs|
  {
    if bs != [] {
      HexRoundTrip(bs[1..]);
      ParseHexStep(bs[0], HexBytes(bs[1..]));
      assert [bs[0]] + bs[1..] == bs;
    }
  }

  /**
   * The low `n` bytes of a message word, lowest first. `PmMessage` is a
   * signed 32-bit integer and `>>= 8` on it shifts arithmetically, which is
   * division by 256 rounded down: Dafny's `/` by a positive divisor.
   */
  function LowBytes(d: int, n: nat): (bs: seq<Byte>)
    ensures |bs| == n
    decreases n
  {
    if n == 0 then [] else [d % 256] + LowBytes(d / 256, n - 1)
  }

  /** `d` after `n` arithmetic shifts right by eight bits. */
  function Shifted(d: int, n: nat): int
    decreases n
  {
    if n == 0 then d else Shifted(d / 256, n - 1)
  }

  function Pow256(n: nat): (r: nat)
    ensures 0 < r
  {
    if n == 0 then 1 else 256 * Pow256(n - 1)
  }

  /** The little-endian value of a list of bytes. */
  function LittleEndian(bs: seq<int>): int
    decreases |bs|
  {
    if bs == [] then 0 else bs[0] + 256 * LittleEndian(bs[1..])
  }

  /** The bytes shown, read lowest first, together with what is left unshown, make up the word again. */
  lemma {:induction false} LowBytesReassemble(d: int, n: nat)
    ensures d == LittleEndian(LowBytes(d, n)) + Pow256(n) * Shifted(d, n)
    decreases n
  {
    if n > 0 {
      var bs := LowBytes(d, n);
      assert bs[1..] == LowBytes(d / 256, n - 1);
      LowBytesReassemble(d / 256, n - 1);
      var q := Shifted(d / 256, n - 1);
      calc {
        LittleEndian(bs) + Pow256(n) * Shifted(d, n);
        d % 256 + 256 * LittleEndian(bs[1..]) + (256 * Pow256(n - 1)) * q;
        { assert (256 * Pow256(n - 1)) * q == 256 * (Pow256(n - 1) * q); }
        d % 256 + 256 * (LittleEndian(bs[1..]) + Pow256(n - 1) * q);
        d % 256 + 256 * (d / 256);
      }
    }
  }

  /** Both nibbles the source prints come from the low byte of the word. */
  lemma NibblesOfLowByte(d: int)
    ensures (d / 16) % 16 == (d % 256) / 16 && d % 16 == (d % 256) % 16
  {
    var q, b := d / 256, d % 256;
    assert d == 256 * q + b;
    assert d / 16 == 16 * q + b / 16;
    assert d % 16 == b % 16;
  }

  /** `showbytes` stops once it has printed more characters than this. */
  const MaxShownChars: nat := 72

  /** The byte on which the character count first exceeds `MaxShownChars`. */
  const MaxShownBytes: nat := MaxShownChars / 2 + 1

  /** How many bytes `showbytes` prints for a requested length, in closed form. */
  function ShownBytes(len: int): nat {
    if len <= 0 then 0 else if len < MaxShownBytes then len else MaxShownBytes
  }

  /**
   * The closed form follows the source's rule: every requested byte is
   * shown, unless the two characters of a byte take the count past
   * `MaxShownChars`, in which case that byte is the last. No other count
   * meets the rule.
   */
  lemma ShownBytesRule(len: int, n: nat)
    ensures n == ShownBytes(len) <==>
      if len <= 0 then n == 0
      else 1 <= n <= len && 2 * (n - 1) <= MaxShownChars && (n == len || 2 * n > MaxShownChars)
  {
  }

  /**
   * `showbytes`: prints the low `len` bytes of `data` as hexadecimal pairs,
   * lowest byte first. Once more than 72 characters have been printed it
   * adds "..." and stops, which happens on the 37th byte. A space ends the
   * output in every case. Short of the cut-off, the output without its
   * final space reads back as the bytes; past it, the part before "... "
   * reads back as the first 37.
   */
  method ShowBytes(data: int, len: int) returns (out: string)
    ensures out == HexBytes(LowBytes(data, ShownBytes(len))) + (if MaxShownBytes <= len then "..." else "") + " "
    ensures len < MaxShownBytes ==> ParseHexBytes(out[..|out| - 1]) == Some(LowBytes(data, if len < 0 then 0 else len))
    ensures MaxShownBytes <= len ==>
      out[|out| - 4..] == "... " && ParseHexBytes(out[..|out| - 4]) == Some(LowBytes(data, MaxShownBytes))
  {
    var count := 0;
    var i := 0;
    var d := data;
    out := [];
    while i < len
      invariant 0 <= i < MaxShownBytes && (i <= len || i == 0)
      invariant count == 2 * i
      invariant d == Shifted(data, i)
      invariant out == HexBytes(LowBytes(data, i))
      decreases len - i
    {
      NibblesOfLowByte(d);
      LowBytesSnoc(data, i);
      HexBytesSnoc(LowBytes(data, i), d % 256);
      out := out + [HexDigits[(d / 16) % 16], HexDigits[d % 16]];
      count := count + 2;
      if count > MaxShownChars {
        assert ShownBytes(len) == i + 1 && MaxShownBytes <= len;
        out := out + "...";
        break;
      }
      ShiftedSnoc(data, i);
      d := d / 256;
      i := i + 1;
    }
    assert out == HexBytes(LowBytes(data, ShownBytes(len))) + (if MaxShownBytes <= len then "..." else "");
    out := out + " ";
    if MaxShownBytes <= len {
      HexWithTailReadsBack(LowBytes(data, ShownBytes(len)), "... ", out);
    } else {
      HexWithTailReadsBack(LowBytes(data, ShownBytes(len)), " ", out);
    }
  }

  /** Hexadecimal text with a tail appended reads back as its bytes once the tail is cut off. */
  lemma HexWithTailReadsBack(bs: seq<Byte>, tail: string, out: string)
    requires out == HexBytes(bs) + tail
    ensures out[..|out| - |tail|] == HexBytes(bs) && ParseHexBytes(out[..|out| - |tail|]) == Some(bs)
  {
    assert out[..|out| - |tail|] == HexBytes(bs);
    HexRoundTrip(bs);
  }

  lemma {:induction false} ShiftedSnoc(d: int, n: nat)
    ensures Shifted(d, n + 1) == Shifted(d, n) / 256
    decreases n
  {
    if n > 0 {
      ShiftedSnoc(d / 256, n - 1);
    }
  }

  lemma {:induction false} LowBytesSnoc(d: int, n: nat)
    ensures LowBytes(d, n + 1) == LowBytes(d, n) + [Shifted(d, n) % 256]
    decreases n
  {
    if n > 0 {
      LowBytesSnoc(d / 256, n - 1);
    }
  }

  /** The text of a list of bytes starts with its first byte's pair. */
  lemma HexBytesCons(x: Byte, rest: seq<Byte>)
    ensures HexBytes([x] + rest) == HexByte(x) + HexBytes(rest)
  {
    var t := [x] + rest;
    assert t[0] == x && t[1..] == rest;
  }

  lemma {:induction false} HexBytesSnoc(bs: seq<Byte>, b: Byte)
    ensures HexBytes(bs + [b]) == HexBytes(bs) + HexByte(b)
    decreases |bs|
  {
    if bs == [] {
      HexBytesCons(b, []);
      assert bs + [b] == [b] + [];
    } else {
      var x, rest := bs[0], bs[1..];
      HexBytesSnoc(rest, b);
      HexBytesCons(x, rest + [b]);
      HexBytesCons(x, rest);
      assert bs + [b] == [x] + (rest + [b]) && bs == [x] + rest;
      assert HexByte(x) + (HexBytes(rest) + HexByte(b)) == (HexByte(x) + HexBytes(rest)) + HexByte(b);
    }
  }
}
