/**
 UTF-8 as the runtime reads and writes it (section 3 of RFC 3629).  A text is the bytes
 before the terminator; code points are 32-bit words.
 */
module Utf8 {
  import opened Basics
  import opened Runes

  type Byte = bv8
  type Code = bv32

  predicate IsScalar(c: Code) {
    c <= 0x10FFFF && !(0xD800 <= c <= 0xDFFF)
  }

  predicate IsTail(b: Byte) { b & 0xC0 == 0x80 }

  function Low6(b: Byte): Code { (b & 0x3F) as Code }

  function Push(code: Code, b: Byte): Code { (code << 6) | Low6(b) }

  /** The byte 10xxxxxx with the six bits of `code` from `shift` up. */
  function TailByte(code: Code): Byte { (0x80 | (code & 0x3F)) as Byte }

  lemma PushBack(x: Code, b: Byte)
    requires x <= 0x3FF_FFFF && IsTail(b)
    ensures Push(x, b) >> 6 == x && TailByte(Push(x, b)) == b && Push(x, b) <= (x << 6) | 0x3F
  {
  }

  lemma PullBack(c: Code)
    ensures IsTail(TailByte(c)) && Push(c >> 6, TailByte(c)) == c
  {
  }

  lemma Shifts(c: Code)
    ensures c >> 12 == (c >> 6) >> 6 && c >> 18 == ((c >> 6) >> 6) >> 6
  {
  }

  lemma Two(b0: Byte, b1: Byte, c: Code)
    requires b0 & 0xE0 == 0xC0 && IsTail(b1) && c == Push((b0 & 0x1F) as Code, b1)
    ensures c <= 0x7FF && (0xC0 | (c >> 6)) as Byte == b0 && TailByte(c) == b1
  {
    PushBack((b0 & 0x1F) as Code, b1);
  }

  lemma Three(b0: Byte, b1: Byte, b2: Byte, c: Code)
    requires b0 & 0xF0 == 0xE0 && IsTail(b1) && IsTail(b2) && c == Push(Push((b0 & 0x0F) as Code, b1), b2)
    ensures c <= 0xFFFF && (0xE0 | (c >> 12)) as Byte == b0 && TailByte(c >> 6) == b1 && TailByte(c) == b2
  {
    PushBack((b0 & 0x0F) as Code, b1);
    PushBack(Push((b0 & 0x0F) as Code, b1), b2);
    Shifts(c);
  }

  lemma Four(b0: Byte, b1: Byte, b2: Byte, b3: Byte, c: Code)
    requires b0 & 0xF8 == 0xF0 && IsTail(b1) && IsTail(b2) && IsTail(b3) &&
             c == Push(Push(Push((b0 & 0x07) as Code, b1), b2), b3)
    ensures c <= 0x1FFFFF && (0xF0 | (c >> 18)) as Byte == b0 && TailByte(c >> 12) == b1 && TailByte(c >> 6) == b2 &&
            TailByte(c) == b3
  {
    PushBack((b0 & 0x07) as Code, b1);
    PushBack(Push((b0 & 0x07) as Code, b1), b2);
    PushBack(Push(Push((b0 & 0x07) as Code, b1), b2), b3);
    Shifts(c);
  }

  lemma EncTwo(c: Code)
    requires c <= 0x7FF
    ensures var b0 := (0xC0 | (c >> 6)) as Byte; b0 & 0xE0 == 0xC0 && Push((b0 & 0x1F) as Code, TailByte(c)) == c
  {
    PullBack(c);
  }

  lemma EncThree(c: Code)
    requires c <= 0xFFFF
    ensures var b0 := (0xE0 | (c >> 12)) as Byte;
              b0 & 0xF0 == 0xE0 && Push(Push((b0 & 0x0F) as Code, TailByte(c >> 6)), TailByte(c)) == c
  {
    PullBack(c);
    PullBack(c >> 6);
    Shifts(c);
  }

  lemma EncFour(c: Code)
    requires c <= 0x10FFFF
    ensures var b0 := (0xF0 | (c >> 18)) as Byte;
              b0 & 0xF8 == 0xF0 &&
              Push(Push(Push((b0 & 0x07) as Code, TailByte(c >> 12)), TailByte(c >> 6)), TailByte(c)) == c
  {
    PullBack(c);
    PullBack(c >> 6);
    PullBack(c >> 12);
    Shifts(c);
  }

  // ----- one code point -----

  /** tya_utf8_from_codepoint, without the terminator.  Read as unsigned, a negative code is too large. */
  function FromCodepoint(c: Code): Option<seq<Byte>> {
    if IsScalar(c) then Some(Encode(c)) else None
  }

  function Encode(c: Code): (s: seq<Byte>)
    requires IsScalar(c)
    ensures 1 <= |s| <= 4
  {
    if c <= 0x7F then [c as Byte]
    else if c <= 0x7FF then [(0xC0 | (c >> 6)) as Byte, TailByte(c)]
    else if c <= 0xFFFF then [(0xE0 | (c >> 12)) as Byte, TailByte(c >> 6), TailByte(c)]
    else [(0xF0 | (c >> 18)) as Byte, TailByte(c >> 12), TailByte(c >> 6), TailByte(c)]
  }

  /** What a first byte announces: the width (0 for none), the least code of that width, and its own bits. */
  datatype Lead = Lead(width: nat, min: Code, bits: Code)

  function LeadOf(b: Byte): (l: Lead)
    ensures l.width <= 4
  {
    if b & 0x80 == 0 then Lead(1, 0, b as Code)
    else if b & 0xE0 == 0xC0 then Lead(2, 0x80, (b & 0x1F) as Code)
    else if b & 0xF0 == 0xE0 then Lead(3, 0x800, (b & 0x0F) as Code)
    else if b & 0xF8 == 0xF0 then Lead(4, 0x10000, (b & 0x07) as Code)
    else Lead(0, 0, 0)
  }

  /** The width the text functions step by: a byte that announces nothing counts as one. */
  function Width(b: Byte): nat {
    if LeadOf(b).width == 0 then 1 else LeadOf(b).width
  }

  /** The code after the bytes s[1..n] are taken in. */
  function Gather(bits: Code, s: seq<Byte>, n: nat): Code
    requires n <= |s|
  {
    if n <= 1 then bits else Push(Gather(bits, s, n - 1), s[n - 1])
  }

  /** The code point at the front of `s`. */
  function First(s: seq<Byte>): (h: Head<Code>)
    ensures h.Rune? ==> 1 <= h.width <= |s| && h.width == Width(s[0])
  {
    if s == [] then Bad else
    var l := LeadOf(s[0]);
    if l.width == 0 || l.width > |s| || exists j :: 1 <= j < l.width && !IsTail(s[j]) then Bad
    else
      var code := Gather(l.bits, s, l.width);
      if code < l.min || !IsScalar(code) then Bad else Rune(l.width, code)
  }

  lemma LeadTwo(b: Byte)
    requires b & 0xE0 == 0xC0
    ensures LeadOf(b) == Lead(2, 0x80, (b & 0x1F) as Code)
  {
  }

  lemma LeadThree(b: Byte)
    requires b & 0xF0 == 0xE0
    ensures LeadOf(b) == Lead(3, 0x800, (b & 0x0F) as Code)
  {
  }

  lemma LeadFour(b: Byte)
    requires b & 0xF8 == 0xF0
    ensures LeadOf(b) == Lead(4, 0x10000, (b & 0x07) as Code)
  {
  }

  lemma TailIsTail(c: Code)
    ensures IsTail(TailByte(c))
  {
  }

  lemma Gather2(bits: Code, s: seq<Byte>)
    requires |s| >= 2
    ensures Gather(bits, s, 2) == Push(bits, s[1])
  {
    assert Gather(bits, s, 1) == bits;
  }

  lemma Gather3(bits: Code, s: seq<Byte>)
    requires |s| >= 3
    ensures Gather(bits, s, 3) == Push(Push(bits, s[1]), s[2])
  {
    Gather2(bits, s);
  }

  lemma Gather4(bits: Code, s: seq<Byte>)
    requires |s| >= 4
    ensures Gather(bits, s, 4) == Push(Push(Push(bits, s[1]), s[2]), s[3])
  {
    Gather3(bits, s);
  }

  lemma First2(c: Code, s: seq<Byte>)
    requires 0x80 <= c <= 0x7FF && |s| >= 2 && s[0] == (0xC0 | (c >> 6)) as Byte && s[1] == TailByte(c)
    ensures First(s) == Rune(2, c)
  {
    EncTwo(c);
    LeadTwo(s[0]);
    TailIsTail(c);
    Gather2(LeadOf(s[0]).bits, s);
  }

  lemma First3(c: Code, s: seq<Byte>)
    requires 0x800 <= c <= 0xFFFF && IsScalar(c) && |s| >= 3
    requires s[0] == (0xE0 | (c >> 12)) as Byte && s[1] == TailByte(c >> 6) && s[2] == TailByte(c)
    ensures First(s) == Rune(3, c)
  {
    EncThree(c);
    LeadThree(s[0]);
    TailIsTail(c);
    TailIsTail(c >> 6);
    Gather3(LeadOf(s[0]).bits, s);
  }

  lemma First4(c: Code, s: seq<Byte>)
    requires 0x10000 <= c <= 0x10FFFF && |s| >= 4
    requires s[0] == (0xF0 | (c >> 18)) as Byte && s[1] == TailByte(c >> 12) && s[2] == TailByte(c >> 6) &&
             s[3] == TailByte(c)
    ensures First(s) == Rune(4, c)
  {
    EncFour(c);
    LeadFour(s[0]);
    TailIsTail(c);
    TailIsTail(c >> 6);
    TailIsTail(c >> 12);
    Gather4(LeadOf(s[0]).bits, s);
  }

  lemma First1(c: Code, s: seq<Byte>)
    requires c <= 0x7F && s != [] && s[0] == c as Byte
    ensures First(s) == Rune(1, c)
  {
  }

  /** Reading inverts writing, whatever follows. */
  lemma FirstOfEncode(c: Code, r: seq<Byte>)
    requires IsScalar(c)
    ensures First(Encode(c) + r) == Rune(|Encode(c)|, c)
  {
    var s := Encode(c) + r;
    if c <= 0x7F {
      First1(c, s);
    } else if c <= 0x7FF {
      First2(c, s);
    } else if c <= 0xFFFF {
      First3(c, s);
    } else {
      First4(c, s);
    }
  }

  /** Every scalar value, and nothing else, has an encoding, and it reads back. */
  lemma CodepointRoundTrip(c: Code)
    ensures FromCodepoint(c).Some? <==> IsScalar(c)
    ensures FromCodepoint(c).Some? ==> First(FromCodepoint(c).value) == Rune(|FromCodepoint(c).value|, c)
  {
    if IsScalar(c) {
      FirstOfEncode(c, []);
      assert Encode(c) + [] == Encode(c);
    }
  }

  lemma Encode2(s: seq<Byte>)
    requires First(s).Rune? && First(s).width == 2
    ensures s[..2] == Encode(First(s).code)
  {
    Gather2(LeadOf(s[0]).bits, s);
    Two(s[0], s[1], First(s).code);
  }

  lemma Encode3(s: seq<Byte>)
    requires First(s).Rune? && First(s).width == 3
    ensures s[..3] == Encode(First(s).code)
  {
    Gather3(LeadOf(s[0]).bits, s);
    Three(s[0], s[1], s[2], First(s).code);
  }

  lemma Encode4(s: seq<Byte>)
    requires First(s).Rune? && First(s).width == 4
    ensures s[..4] == Encode(First(s).code)
  {
    Read4(s);
    Encodes4(s[0], s[1], s[2], s[3], First(s).code);
    FirstFour(s);
  }

  lemma FirstFour(s: seq<Byte>)
    requires |s| >= 4
    ensures s[..4] == [s[0], s[1], s[2], s[3]]
  {
  }

  lemma Read4(s: seq<Byte>)
    requires First(s).Rune? && First(s).width == 4
    ensures |s| >= 4 && Spelt4(s[0], s[1], s[2], s[3], First(s).code)
  {
    Gather4(LeadOf(s[0]).bits, s);
  }

  ghost predicate Spelt4(b0: Byte, b1: Byte, b2: Byte, b3: Byte, c: Code) {
    b0 & 0xF8 == 0xF0 && IsTail(b1) && IsTail(b2) && IsTail(b3) &&
    0x10000 <= c <= 0x10FFFF && c == Push(Push(Push((b0 & 0x07) as Code, b1), b2), b3)
  }

  lemma Encodes4(b0: Byte, b1: Byte, b2: Byte, b3: Byte, c: Code)
    requires Spelt4(b0, b1, b2, b3, c)
    ensures Encode(c) == [b0, b1, b2, b3]
  {
    Four(b0, b1, b2, b3, c);
    Encodes4From(b0, b1, b2, b3, c);
  }

  lemma Encodes4From(b0: Byte, b1: Byte, b2: Byte, b3: Byte, c: Code)
    requires 0x10000 <= c <= 0x10FFFF
    requires (0xF0 | (c >> 18)) as Byte == b0 && TailByte(c >> 12) == b1 && TailByte(c >> 6) == b2 && TailByte(c) == b3
    ensures Encode(c) == [b0, b1, b2, b3]
  {
  }

  /** Writing inverts reading: no other bytes read as this code point. */
  lemma EncodeOfFirst(s: seq<Byte>)
    requires First(s).Rune?
    ensures IsScalar(First(s).code) && s[..First(s).width] == Encode(First(s).code)
  {
    match First(s).width
    case 2 => Encode2(s);
    case 3 => Encode3(s);
    case 4 => Encode4(s);
    case _ => assert s[..1] == [s[0]];
  }

  // ----- the coding -----

  /** UTF-8 as the runtime uses it. */
  function Utf8Coding(): Coding<Byte, Code> {
    Coding(c => IsScalar(c), c => if IsScalar(c) then Encode(c) else [],
           s => First(s), b => Width(b), b => IsTail(b), b => b & 0x80 == 0)
  }

  lemma TailsBehind(s: seq<Byte>)
    requires First(s).Rune?
    ensures !IsTail(s[0]) && forall j :: 1 <= j < First(s).width ==> IsTail(s[j])
  {
  }

  /** So everything proved about texts of runes holds of it. */
  lemma Utf8IsLawful()
    ensures Lawful(Utf8Coding())
  {
    var u := Utf8Coding();
    forall c, r {:trigger u.read(u.write(c) + r)} | u.scalar(c)
      ensures u.read(u.write(c) + r) == Rune(|u.write(c)|, c)
    {
      FirstOfEncode(c, r);
    }
    forall s {:trigger u.read(s)} | u.read(s).Rune? ensures WellRead(u, s) {
      EncodeOfFirst(s);
      TailsBehind(s);
    }
  }

  /** The tails of a rune: its code, unless one of them is no tail. */
  method ReadTails(l: Lead, s: seq<Byte>) returns (code: Option<Code>)
    requires 1 <= l.width <= |s|
    ensures code == if exists j :: 1 <= j < l.width && !IsTail(s[j]) then None else Some(Gather(l.bits, s, l.width))
  {
    var c := l.bits;
    var j := 1;
    while j < l.width
      invariant 1 <= j <= l.width && c == Gather(l.bits, s, j)
      invariant forall k :: 1 <= k < j ==> IsTail(s[k])
    {
      if !IsTail(s[j]) {
        return None;
      }
      c := Push(c, s[j]);
      j := j + 1;
    }
    return Some(c);
  }

  /** One round of the validator: the width of the rune at the front of `s`, or 0. */
  method ReadOne(s: seq<Byte>) returns (width: nat)
    requires s != []
    ensures width == if First(s).Rune? then First(s).width else 0
  {
    var l := LeadOf(s[0]);
    if l.width == 0 || l.width > |s| {
      return 0;
    }
    var code := ReadTails(l, s);
    if code.None? || code.value < l.min || code.value > 0x10FFFF || (code.value >= 0xD800 && code.value <= 0xDFFF) {
      return 0;
    }
    return l.width;
  }

  /** Whether `data` is valid is up to its end `rest`. */
  ghost predicate Undecided(data: seq<Byte>, rest: seq<Byte>) {
    Valid(Utf8Coding(), rest) <==> Valid(Utf8Coding(), data)
  }

  lemma Advance(data: seq<Byte>, i: nat, rest: seq<Byte>, width: nat)
    requires i < |data| && rest == data[i..] && Undecided(data, rest) && width == W(Utf8Coding(), rest)
    ensures if width == 0 then !Valid(Utf8Coding(), data) else i + width <= |data| && Undecided(data, data[i + width..])
  {
    ValidNext(Utf8Coding(), data, i, width);
  }

  /** Read the rune at byte `i`; without one the data is not valid. */
  method Round(data: seq<Byte>, i: nat, ghost rest: seq<Byte>) returns (width: nat, ghost rest': seq<Byte>)
    requires i < |data| && rest == data[i..] && Undecided(data, rest)
    ensures width == 0 ==> !Valid(Utf8Coding(), data)
    ensures width > 0 ==> i + width <= |data| && rest' == data[i + width..] && Undecided(data, rest')
  {
    width := ReadOne(data[i..]);
    Advance(data, i, rest, width);
    rest' := if width == 0 then rest else data[i + width..];
  }

  /** tya_utf8_valid_bytes */
  method ValidBytes(data: seq<Byte>) returns (ok: bool)
    ensures ok <==> Valid(Utf8Coding(), data)
  {
    var i, width := 0, 0;
    ghost var rest := data;
    while i < |data|
      invariant i <= |data| && rest == data[i..] && Undecided(data, rest)
      decreases |data| - i
    {
      width, rest := Round(data, i, rest);
      if width == 0 {
        return false;
      }
      i := i + width;
    }
    return true;
  }

  /** The validator accepts exactly the concatenations of encoded scalar values. */
  method Accepts(data: seq<Byte>) returns (ok: bool)
    ensures ok <==> exists cs :: Spells(Utf8Coding(), cs, data)
  {
    ok := ValidBytes(data);
    Utf8IsLawful();
    ValidIsWritten(Utf8Coding(), data);
  }

  /** The examples of section 7 of RFC 3629, one for each width. */
  lemma Examples()
    ensures Encode(0x41) == [0x41] && Encode(0x391) == [0xCE, 0x91]
    ensures Encode(0x2262) == [0xE2, 0x89, 0xA2] && Encode(0x233B4) == [0xF0, 0xA3, 0x8E, 0xB4]
  {
  }

  // ----- texts with a terminator -----

  /** The text that the bytes in memory hold: those before the terminator. */
  ghost function CText(mem: seq<Byte>): seq<Byte> {
    if mem == [] || mem[0] == 0 then [] else [mem[0]] + CText(mem[1..])
  }

  lemma {:induction false} CTextEnds(mem: seq<Byte>)
    requires 0 in mem
    ensures |CText(mem)| < |mem| && mem[|CText(mem)|] == 0
    ensures CText(mem) == mem[..|CText(mem)|] && 0 !in CText(mem)
  {
    if mem[0] != 0 {
      CTextEnds(mem[1..]);
    }
  }

  lemma {:induction false} CTextOfTerminated(s: seq<Byte>, r: seq<Byte>)
    requires 0 !in s
    ensures CText(s + [0] + r) == s
  {
    if s != [] {
      assert (s + [0] + r)[1..] == s[1..] + [0] + r;
      CTextOfTerminated(s[1..], r);
    }
  }

  /** What the first byte of a text and the tails behind it spell, in range or not. */
  ghost function Decoded(text: seq<Byte>): Option<Code> {
    if text == [] then None else
    var l := LeadOf(text[0]);
    if l.width == 0 || l.width > |text| || exists j :: 1 <= j < l.width && !IsTail(text[j]) then None
    else Some(Gather(l.bits, text, l.width))
  }

  /** It is the code point at the front exactly when that is a scalar value written like this. */
  lemma DecodedExact(text: seq<Byte>)
    ensures First(text).Rune? <==>
              Decoded(text).Some? && IsScalar(Decoded(text).value) && Encode(Decoded(text).value) <= text
    ensures First(text).Rune? ==> Decoded(text) == Some(First(text).code)
  {
    if First(text).Rune? {
      EncodeOfFirst(text);
    }
    if Decoded(text).Some? && IsScalar(Decoded(text).value) && Encode(Decoded(text).value) <= text {
      var e := Encode(Decoded(text).value);
      assert text == e + text[|e|..];
      FirstOfEncode(Decoded(text).value, text[|e|..]);
    }
  }

  lemma EncodeZero(c: Code)
    requires IsScalar(c)
    ensures 0 in Encode(c) <==> c == 0
  {
  }

  /** tya_utf8_decode_first */
  method DecodeFirst(mem: seq<Byte>) returns (code: int)
    requires 0 in mem
    ensures code == if Decoded(CText(mem)).None? then -1 else Decoded(CText(mem)).value as int
  {
    CTextEnds(mem);
    ghost var text := CText(mem);
    if mem[0] == 0 {
      return -1;
    }
    var l := LeadOf(mem[0]);
    if l.width == 0 {
      return -1;
    }
    var bits := l.bits;
    var j := 1;
    while j < l.width
      invariant 1 <= j <= l.width && j <= |text| && bits == Gather(l.bits, text, j)
      invariant forall k :: 1 <= k < j ==> IsTail(text[k])
    {
      if !IsTail(mem[j]) {
        return -1;
      }
      bits := Push(bits, mem[j]);
      j := j + 1;
    }
    return bits as int;
  }

  /** Decoding what tya_utf8_from_codepoint wrote gives the code back for every scalar value but U+0000. */
  lemma DecodeOfWritten(c: Code, r: seq<Byte>)
    requires IsScalar(c)
    ensures Decoded(CText(Encode(c) + [0] + r)) == Some(c) <==> c != 0
    ensures c == 0 ==> Decoded(CText(Encode(c) + [0] + r)) == None
  {
    EncodeZero(c);
    if c != 0 {
      CTextOfTerminated(Encode(c), r);
      FirstOfEncode(c, []);
      assert Encode(c) + [] == Encode(c);
      DecodedExact(Encode(c));
    }
  }
}
