/** Unicode escapes of parse_string: four hex digits, surrogate pairs and the UTF-8 bytes they become. */
module Utf8 {

  import opened Bits
  import opened CText

  /** The char a C assignment stores for an unsigned value: its low eight bits. */
  function Octet(b: bv32): char {
    ((b & 0xFF) as int) as char
  }

  // ----- Section 3 of RFC 3629 -----

  function Tail(cp: bv32): bv32 { 0x80 | (cp & 0x3F) }
  function Lead2(cp: bv32): bv32 { (cp >> 6) | 0xC0 }
  function Lead3(cp: bv32): bv32 { (cp >> 12) | 0xE0 }
  function Lead4(cp: bv32): bv32 { (cp >> 18) | 0xF0 }

  function Encode(cp: bv32): (s: string)
    ensures 1 <= |s| <= 4
  {
    if cp < 0x80 then [Octet(cp)]
    else if cp < 0x800 then [Octet(Lead2(cp)), Octet(Tail(cp))]
    else if cp < 0x1_0000 then [Octet(Lead3(cp)), Octet(Tail(cp >> 6)), Octet(Tail(cp))]
    else [Octet(Lead4(cp)), Octet(Tail(cp >> 12)), Octet(Tail(cp >> 6)), Octet(Tail(cp))]
  }

  /** A decoder following the table of the same section, as a check on Encode. */
  function Decode(s: string): bv32
    requires 1 <= |s| <= 4
  {
    match |s|
    case 1 => Code(s[0])
    case 2 => Join2(Code(s[0]), Code(s[1]))
    case 3 => Join3(Code(s[0]), Code(s[1]), Code(s[2]))
    case _ => Join4(Code(s[0]), Code(s[1]), Code(s[2]), Code(s[3]))
  }

  function Code(c: char): bv32 {
    if c as int < WORD then Word(c as int) else 0
  }

  function Join2(a: bv32, b: bv32): bv32 {
    ((a & 0x1F) << 6) | (b & 0x3F)
  }

  function Join3(a: bv32, b: bv32, c: bv32): bv32 {
    ((a & 0x0F) << 12) | ((b & 0x3F) << 6) | (c & 0x3F)
  }

  function Join4(a: bv32, b: bv32, c: bv32, d: bv32): bv32 {
    ((a & 0x07) << 18) | ((b & 0x3F) << 12) | ((c & 0x3F) << 6) | (d & 0x3F)
  }

  lemma CodeOctet(b: bv32)
    requires b < 0x100
    ensures Code(Octet(b)) == b
  {
    assert b & 0xFF == b;
    BackToWord(b);
  }

  lemma CodeTail(cp: bv32)
    ensures Code(Octet(Tail(cp))) == Tail(cp)
  {
    CodeOctet(Tail(cp));
  }

  lemma Two(cp: bv32)
    requires cp < 0x800
    ensures Code(Octet(Lead2(cp))) == Lead2(cp) && Join2(Lead2(cp), Tail(cp)) == cp
  {
    CodeOctet(Lead2(cp));
  }

  lemma Three(cp: bv32)
    requires cp < 0x1_0000
    ensures Code(Octet(Lead3(cp))) == Lead3(cp)
    ensures Join3(Lead3(cp), Tail(cp >> 6), Tail(cp)) == cp
  {
    CodeOctet(Lead3(cp));
  }

  lemma Four(cp: bv32)
    requires cp < 0x20_0000
    ensures Code(Octet(Lead4(cp))) == Lead4(cp)
    ensures Join4(Lead4(cp), Tail(cp >> 12), Tail(cp >> 6), Tail(cp)) == cp
  {
    CodeOctet(Lead4(cp));
  }

  /** Decoding the bytes of a code point gives the code point. */
  lemma EncodeDecodes(cp: bv32)
    requires cp < 0x11_0000
    ensures Decode(Encode(cp)) == cp
  {
    hide Octet, Code, Tail, Lead2, Lead3, Lead4, Join2, Join3, Join4;
    CodeTail(cp);
    CodeTail(cp >> 6);
    CodeTail(cp >> 12);
    if cp < 0x80 { CodeOctet(cp); }
    else if cp < 0x800 { Two(cp); }
    else if cp < 0x1_0000 { Three(cp); }
    else { Four(cp); }
  }

  lemma OctetNotNul(b: bv32)
    requires b & 0xFF != 0
    ensures Octet(b) != NUL
  {}

  lemma EncodeNulFree(cp: bv32)
    requires cp != 0 && cp < 0x11_0000
    ensures NulFree(Encode(cp))
  {
    hide Octet;
    if cp < 0x80 { OctetNotNul(cp); }
    else if cp < 0x800 { OctetNotNul(Lead2(cp)); }
    else if cp < 0x1_0000 { OctetNotNul(Lead3(cp)); }
    else { OctetNotNul(Lead4(cp)); }
    OctetNotNul(Tail(cp));
    OctetNotNul(Tail(cp >> 6));
    OctetNotNul(Tail(cp >> 12));
  }

  // ----- parse_hex4 and surrogate pairs -----

  predicate IsHex(c: char) {
    '0' <= c <= '9' || 'A' <= c <= 'F' || 'a' <= c <= 'f'
  }

  function Nibble(c: char): bv32
    requires IsHex(c)
  {
    if '0' <= c <= '9' then Word(c as int - '0' as int)
    else if 'A' <= c <= 'F' then Word(10 + c as int - 'A' as int)
    else Word(10 + c as int - 'a' as int)
  }

  /** The number parse_hex4 reads at text + i, and 0 unless four hex digits stand there. */
  function Hex4(text: string, i: nat): bv32 {
    if !IsHex(At(text, i)) || !IsHex(At(text, i + 1)) || !IsHex(At(text, i + 2)) || !IsHex(At(text, i + 3)) then 0
    else
      Accumulate(Nibble(At(text, i)), Nibble(At(text, i + 1)), Nibble(At(text, i + 2)), Nibble(At(text, i + 3)))
  }

  function Accumulate(a: bv32, b: bv32, c: bv32, d: bv32): bv32 {
    var h1 := a << 4;
    var h2 := (h1 + b) << 4;
    var h3 := (h2 + c) << 4;
    h3 + d
  }

  /** The four-bit group of u that starts at bit 4 * k. */
  function Group(u: bv32, k: nat): (n: bv32)
    requires k < 4
    ensures n < 0x10
  {
    match k
    case 0 => u & 0xF
    case 1 => (u >> 4) & 0xF
    case 2 => (u >> 8) & 0xF
    case _ => (u >> 12) & 0xF
  }

  function HexChar(n: bv32, upper: bool): (c: char)
    requires n < 0x10
  {
    if n < 10 then (Value(n) + '0' as int) as char
    else if upper then (Value(n) - 10 + 'A' as int) as char
    else (Value(n) - 10 + 'a' as int) as char
  }

  /** Four hex digits for a 16-bit number, each in the case caps asks for. */
  function HexText(u: bv32, caps: seq<bool>): (s: string)
    requires u < 0x1_0000 && |caps| == 4
    ensures |s| == 4
  {
    [HexChar(Group(u, 3), caps[0]), HexChar(Group(u, 2), caps[1]),
     HexChar(Group(u, 1), caps[2]), HexChar(Group(u, 0), caps[3])]
  }

  lemma NibbleBounds(n: bv32)
    requires n < 0x10
    ensures 0 <= Value(n) < 16 && (n < 10 <==> Value(n) < 10)
  {}

  lemma NibbleOfHexChar(n: bv32, upper: bool)
    requires n < 0x10
    ensures IsHex(HexChar(n, upper)) && Nibble(HexChar(n, upper)) == n
  {
    hide Value, Word;
    NibbleBounds(n);
    BackToWord(n);
  }

  lemma Nibbles(u: bv32)
    requires u < 0x1_0000
    ensures Accumulate(Group(u, 3), Group(u, 2), Group(u, 1), Group(u, 0)) == u
  {}

  /** parse_hex4 reads back any 16-bit number from its four digits, in either case. */
  lemma Hex4OfHexText(u: bv32, caps: seq<bool>, text: string, i: nat)
    requires u < 0x1_0000 && |caps| == 4 && Occurs(HexText(u, caps), text, i)
    ensures Hex4(text, i) == u
    ensures IsHex(At(text, i)) && IsHex(At(text, i + 1)) && IsHex(At(text, i + 2)) && IsHex(At(text, i + 3))
  {
    hide HexChar, Nibble, IsHex, Group, Accumulate;
    OccursAt(HexText(u, caps), text, i, 0);
    OccursAt(HexText(u, caps), text, i, 1);
    OccursAt(HexText(u, caps), text, i, 2);
    OccursAt(HexText(u, caps), text, i, 3);
    NibbleOfHexChar(Group(u, 3), caps[0]);
    NibbleOfHexChar(Group(u, 2), caps[1]);
    NibbleOfHexChar(Group(u, 1), caps[2]);
    NibbleOfHexChar(Group(u, 0), caps[3]);
    Nibbles(u);
  }

  lemma BelowSixteen(w: bv32)
    requires Value(w) < 16
    ensures w < 0x10
  {}

  lemma NibbleIsSmall(c: char)
    requires IsHex(c)
    ensures Nibble(c) < 0x10
  {
    hide Word, Value;
    var n := if '0' <= c <= '9' then c as int - '0' as int
             else if 'A' <= c <= 'F' then 10 + c as int - 'A' as int else 10 + c as int - 'a' as int;
    WordRoundTrip(n);
    BelowSixteen(Word(n));
  }

  lemma Assembled(a: bv32, b: bv32, c: bv32, d: bv32)
    requires a < 0x10 && b < 0x10 && c < 0x10 && d < 0x10
    ensures Accumulate(a, b, c, d) < 0x1_0000
  {}

  lemma Hex4IsSmall(text: string, i: nat)
    ensures Hex4(text, i) < 0x1_0000
  {
    hide IsHex, Nibble, Accumulate;
    if IsHex(At(text, i)) && IsHex(At(text, i + 1)) && IsHex(At(text, i + 2)) && IsHex(At(text, i + 3)) {
      NibbleIsSmall(At(text, i));
      NibbleIsSmall(At(text, i + 1));
      NibbleIsSmall(At(text, i + 2));
      NibbleIsSmall(At(text, i + 3));
      Assembled(Nibble(At(text, i)), Nibble(At(text, i + 1)), Nibble(At(text, i + 2)), Nibble(At(text, i + 3)));
    }
  }

  predicate IsHigh(u: bv32) { 0xD800 <= u <= 0xDBFF }
  predicate IsLow(u: bv32) { 0xDC00 <= u <= 0xDFFF }

  /** How the C code joins a surrogate pair. */
  function Pair(hi: bv32, lo: bv32): bv32 {
    0x1_0000 + (((hi & 0x3FF) << 10) | (lo & 0x3FF))
  }

  /** The halves of a code point beyond 16 bits, as UTF-16 defines them on its distance d from 0x10000. */
  function HighHalf(d: bv32): bv32 { 0xD800 | (d >> 10) }
  function LowHalf(d: bv32): bv32 { 0xDC00 | (d & 0x3FF) }

  lemma PairOfHalves(d: bv32)
    requires d < 0x10_0000
    ensures IsHigh(HighHalf(d)) && IsLow(LowHalf(d)) && Pair(HighHalf(d), LowHalf(d)) == 0x1_0000 + d
  {}

  lemma PairInRange(hi: bv32, lo: bv32)
    ensures 0x1_0000 <= Pair(hi, lo) < 0x11_0000
  {}

  // ----- The transcoding switch -----

  function Length(cp: bv32): (n: nat)
    ensures 1 <= n <= 4
  {
    if cp < 0x80 then 1 else if cp < 0x800 then 2 else if cp < 0x1_0000 then 3 else 4
  }

  /** firstByteMark of the C file, for the lengths that occur. */
  function Mark(n: nat): bv32 {
    if n == 2 then 0xC0 else if n == 3 then 0xE0 else if n == 4 then 0xF0 else 0
  }

  function Masked(w: bv32): char { Octet((w | 0x80) & 0xBF) }
  function Marked(w: bv32, n: nat): char { Octet(w | Mark(n)) }
  function Down(w: bv32): bv32 { w >> 6 }

  function Bytes(cp: bv32, n: nat): string
    requires 1 <= n <= 4
  {
    match n
    case 1 => [Marked(cp, 1)]
    case 2 => [Marked(Down(cp), 2), Masked(cp)]
    case 3 => [Marked(Down(Down(cp)), 3), Masked(Down(cp)), Masked(cp)]
    case _ => [Marked(Down(Down(Down(cp))), 4), Masked(Down(Down(cp))), Masked(Down(cp)), Masked(cp)]
  }

  lemma MaskedIsTail(w: bv32)
    ensures Masked(w) == Octet(Tail(w))
  {
    assert (w | 0x80) & 0xBF == Tail(w) & 0xFF;
  }

  lemma Shifts(w: bv32)
    ensures Down(w) == w >> 6 && Down(Down(w)) == w >> 12 && Down(Down(Down(w))) == w >> 18
  {}

  lemma OrZero(w: bv32)
    ensures Marked(w, 1) == Octet(w)
  {
    assert w | 0 == w;
  }

  lemma Lead2Marked(w: bv32, v: bv32)
    requires v == w >> 6
    ensures Marked(v, 2) == Octet(Lead2(w))
  {}

  lemma Lead3Marked(w: bv32, v: bv32)
    requires v == w >> 12
    ensures Marked(v, 3) == Octet(Lead3(w))
  {}

  lemma Lead4Marked(w: bv32, v: bv32)
    requires v == w >> 18
    ensures Marked(v, 4) == Octet(Lead4(w))
  {}

  /** The shifts and masks of the switch produce the RFC's bytes. */
  lemma BytesAreEncode(cp: bv32)
    ensures Bytes(cp, Length(cp)) == Encode(cp)
  {
    hide Octet, Masked, Marked, Tail, Lead2, Lead3, Lead4, Down;
    MaskedIsTail(cp);
    MaskedIsTail(cp >> 6);
    MaskedIsTail(cp >> 12);
    Shifts(cp);
    Lead2Marked(cp, cp >> 6);
    Lead3Marked(cp, cp >> 12);
    Lead4Marked(cp, cp >> 18);
    OrZero(cp);
  }

  /** The bytes of a code point, written backwards from position k + length. */
  method PutUtf8(out: array<char>, k: nat, cp: bv32) returns (length: nat)
    requires k + |Encode(cp)| <= out.Length
    modifies out
    ensures length == |Encode(cp)|
    ensures out[..k + length] == old(out[..k]) + Encode(cp)
  {
    hide Encode, Masked, Marked, Down, Length;
    BytesAreEncode(cp);
    length := Length(cp);
    var p, w := k + length, cp;
    if length >= 4 { p := p - 1; out[p] := Masked(w); w := Down(w); }
    if length >= 3 { p := p - 1; out[p] := Masked(w); w := Down(w); }
    if length >= 2 { p := p - 1; out[p] := Masked(w); w := Down(w); }
    p := p - 1;
    out[p] := Marked(w, length);
  }
}
