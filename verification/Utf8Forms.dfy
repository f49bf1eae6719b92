/** The byte sequences of section 4 of RFC 3629, and that they are exactly what the escapes become. */
module Utf8Forms {

  import opened Bits
  import opened CText
  import opened Utf8

  // ----- The well-formed sequences -----

  predicate In(c: char, lo: int, hi: int) {
    lo <= c as int <= hi
  }

  predicate IsTail(c: char) {
    In(c, 0x80, 0xBF)
  }

  predicate WellFormed(s: string) {
    || (|s| == 1 && In(s[0], 0x00, 0x7F))
    || (|s| == 2 && In(s[0], 0xC2, 0xDF) && IsTail(s[1]))
    || (|s| == 3 && Form3(s[0], s[1]) && IsTail(s[2]))
    || (|s| == 4 && Form4(s[0], s[1]) && IsTail(s[2]) && IsTail(s[3]))
  }

  predicate Form3(a: char, b: char) {
    || (In(a, 0xE0, 0xE0) && In(b, 0xA0, 0xBF))
    || (In(a, 0xE1, 0xEC) && IsTail(b))
    || (In(a, 0xED, 0xED) && In(b, 0x80, 0x9F))
    || (In(a, 0xEE, 0xEF) && IsTail(b))
  }

  predicate Form4(a: char, b: char) {
    || (In(a, 0xF0, 0xF0) && In(b, 0x90, 0xBF))
    || (In(a, 0xF1, 0xF3) && IsTail(b))
    || (In(a, 0xF4, 0xF4) && In(b, 0x80, 0x8F))
  }

  /** The code points that have a sequence: all but the surrogates. */
  predicate IsScalar(cp: bv32) {
    cp < 0x11_0000 && !(0xD800 <= cp <= 0xDFFF)
  }

  // ----- The same on words -----

  predicate Between(w: bv32, lo: bv32, hi: bv32) {
    lo <= w <= hi
  }

  predicate Words3(a: bv32, b: bv32, c: bv32) {
    && Between(c, 0x80, 0xBF)
    && (|| (Between(a, 0xE0, 0xE0) && Between(b, 0xA0, 0xBF))
        || (Between(a, 0xE1, 0xEC) && Between(b, 0x80, 0xBF))
        || (Between(a, 0xED, 0xED) && Between(b, 0x80, 0x9F))
        || (Between(a, 0xEE, 0xEF) && Between(b, 0x80, 0xBF)))
  }

  predicate Words4(a: bv32, b: bv32, c: bv32, d: bv32) {
    && Between(c, 0x80, 0xBF) && Between(d, 0x80, 0xBF)
    && (|| (Between(a, 0xF0, 0xF0) && Between(b, 0x90, 0xBF))
        || (Between(a, 0xF1, 0xF3) && Between(b, 0x80, 0xBF))
        || (Between(a, 0xF4, 0xF4) && Between(b, 0x80, 0x8F)))
  }

  lemma ValueOrder(x: bv32, y: bv32)
    ensures AtMost(x, y) <==> Value(x) <= Value(y)
  {
    hide Value, AtMost;
    if AtMost(x, y) {
      Order(x, y);
    } else {
      Total(x, y);
      StrictOrder(y, x);
    }
  }

  lemma Total(x: bv32, y: bv32)
    requires !AtMost(x, y)
    ensures AtMost(y, x) && x != y
  {}

  /** Ranges of characters and of the words they stand for. */
  lemma CodeIn(c: char, lo: bv32, hi: bv32)
    requires c as int < 0x100
    ensures In(c, Value(lo), Value(hi)) <==> Between(Code(c), lo, hi)
  {
    CodeValue(c);
    ValueOrder(lo, Code(c));
    ValueOrder(Code(c), hi);
    BetweenIs(Code(c), lo, hi);
  }

  lemma BetweenIs(w: bv32, lo: bv32, hi: bv32)
    ensures Between(w, lo, hi) <==> AtMost(lo, w) && AtMost(w, hi)
  {}

  lemma CodeValue(c: char)
    requires c as int < 0x100
    ensures Value(Code(c)) == c as int
  {
    hide Value, Word;
    WordRoundTrip(c as int);
  }

  lemma Bounds()
    ensures Value(0) == 0 && Value(0x7F) == 0x7F && Value(0x80) == 0x80 && Value(0x8F) == 0x8F
    ensures Value(0x90) == 0x90 && Value(0x9F) == 0x9F && Value(0xA0) == 0xA0 && Value(0xBF) == 0xBF
    ensures Value(0xC2) == 0xC2 && Value(0xDF) == 0xDF && Value(0xE0) == 0xE0 && Value(0xE1) == 0xE1
    ensures Value(0xEC) == 0xEC && Value(0xED) == 0xED && Value(0xEE) == 0xEE && Value(0xEF) == 0xEF
    ensures Value(0xF0) == 0xF0 && Value(0xF1) == 0xF1 && Value(0xF3) == 0xF3 && Value(0xF4) == 0xF4
  {}

  lemma Codes1(a: char)
    requires a as int < 0x100
    ensures WellFormed([a]) <==> Between(Code(a), 0, 0x7F)
  {
    hide Code, Between, Value;
    Bounds();
    CodeIn(a, 0, 0x7F);
  }

  lemma Codes2(a: char, b: char)
    requires a as int < 0x100 && b as int < 0x100
    ensures WellFormed([a, b]) <==> Between(Code(a), 0xC2, 0xDF) && Between(Code(b), 0x80, 0xBF)
  {
    hide Code, Between, Value;
    Bounds();
    CodeIn(a, 0xC2, 0xDF);
    CodeIn(b, 0x80, 0xBF);
  }

  lemma Codes3(a: char, b: char, c: char)
    requires a as int < 0x100 && b as int < 0x100 && c as int < 0x100
    ensures WellFormed([a, b, c]) <==> Words3(Code(a), Code(b), Code(c))
  {
    hide Code, Between, Value;
    Bounds();
    CodeIn(a, 0xE0, 0xE0);
    CodeIn(a, 0xE1, 0xEC);
    CodeIn(a, 0xED, 0xED);
    CodeIn(a, 0xEE, 0xEF);
    CodeIn(b, 0xA0, 0xBF);
    CodeIn(b, 0x80, 0xBF);
    CodeIn(b, 0x80, 0x9F);
    CodeIn(c, 0x80, 0xBF);
  }

  lemma Codes4(a: char, b: char, c: char, d: char)
    requires a as int < 0x100 && b as int < 0x100 && c as int < 0x100 && d as int < 0x100
    ensures WellFormed([a, b, c, d]) <==> Words4(Code(a), Code(b), Code(c), Code(d))
  {
    hide Code, Between, Value;
    Bounds();
    CodeIn(a, 0xF0, 0xF0);
    CodeIn(a, 0xF1, 0xF3);
    CodeIn(a, 0xF4, 0xF4);
    CodeIn(b, 0x90, 0xBF);
    CodeIn(b, 0x80, 0xBF);
    CodeIn(b, 0x80, 0x8F);
    CodeIn(c, 0x80, 0xBF);
    CodeIn(d, 0x80, 0xBF);
  }

  // ----- Every scalar value is encoded well -----

  lemma Lead2Words(cp: bv32)
    requires 0x80 <= cp < 0x800
    ensures Between(Lead2(cp), 0xC2, 0xDF) && Between(Tail(cp), 0x80, 0xBF)
  {}

  lemma Lead3Words(cp: bv32)
    requires 0x800 <= cp < 0x1_0000 && IsScalar(cp)
    ensures Words3(Lead3(cp), Tail(cp >> 6), Tail(cp))
  {}

  lemma Lead4Words(cp: bv32)
    requires 0x1_0000 <= cp < 0x11_0000
    ensures Words4(Lead4(cp), Tail(cp >> 12), Tail(cp >> 6), Tail(cp))
  {}

  lemma OctetSmall(b: bv32)
    ensures Octet(b) as int < 0x100
  {
    hide Value;
    Order(b & 0xFF, 0xFF);
    assert Value(0xFF) == 0xFF by { ByteLimit(); }
    OctetValue(b);
  }

  lemma ByteLimit()
    ensures Value(0xFF) == 0xFF
  {}

  lemma OctetValue(b: bv32)
    ensures AtMost(b & 0xFF, 0xFF) && Octet(b) as int == Value(b & 0xFF)
  {}

  lemma EncodeWellFormed(cp: bv32)
    requires IsScalar(cp)
    ensures WellFormed(Encode(cp))
  {
    hide Octet, Code, Tail, Lead2, Lead3, Lead4, Words3, Words4, WellFormed, Between;
    CodeTail(cp);
    CodeTail(cp >> 6);
    CodeTail(cp >> 12);
    OctetSmall(Tail(cp));
    OctetSmall(Tail(cp >> 6));
    OctetSmall(Tail(cp >> 12));
    if cp < 0x80 {
      CodeOctet(cp);
      OctetSmall(cp);
      Codes1(Octet(cp));
      SmallBetween(cp);
    } else if cp < 0x800 {
      Two(cp);
      OctetSmall(Lead2(cp));
      Lead2Words(cp);
      Codes2(Octet(Lead2(cp)), Octet(Tail(cp)));
    } else if cp < 0x1_0000 {
      Three(cp);
      OctetSmall(Lead3(cp));
      Lead3Words(cp);
      Codes3(Octet(Lead3(cp)), Octet(Tail(cp >> 6)), Octet(Tail(cp)));
    } else {
      Four(cp);
      OctetSmall(Lead4(cp));
      Lead4Words(cp);
      Codes4(Octet(Lead4(cp)), Octet(Tail(cp >> 12)), Octet(Tail(cp >> 6)), Octet(Tail(cp)));
    }
  }

  lemma SmallBetween(cp: bv32)
    requires cp < 0x80
    ensures Between(cp, 0, 0x7F)
  {}

  // ----- No other sequence stands for it -----

  lemma Back1(a: bv32)
    requires Between(a, 0, 0x7F)
    ensures a < 0x80 && IsScalar(a)
  {}

  lemma Back2(a: bv32, b: bv32)
    requires Between(a, 0xC2, 0xDF) && Between(b, 0x80, 0xBF)
    ensures var cp := Join2(a, b);
            0x80 <= cp < 0x800 && IsScalar(cp) && Lead2(cp) == a && Tail(cp) == b
  {}

  lemma Back3(a: bv32, b: bv32, c: bv32)
    requires Words3(a, b, c)
    ensures var cp := Join3(a, b, c);
            && 0x800 <= cp < 0x1_0000 && IsScalar(cp)
            && Lead3(cp) == a && Tail(cp >> 6) == b && Tail(cp) == c
  {}

  lemma Back4(a: bv32, b: bv32, c: bv32, d: bv32)
    requires Words4(a, b, c, d)
    ensures var cp := Join4(a, b, c, d);
            && 0x1_0000 <= cp < 0x11_0000
            && Lead4(cp) == a && Tail(cp >> 12) == b && Tail(cp >> 6) == c && Tail(cp) == d
  {}

  lemma OctetOfCode(c: char)
    requires c as int < 0x100
    ensures Octet(Code(c)) == c
  {
    hide Value, Word;
    CodeValue(c);
    ByteLimit();
    ValueOrder(Code(c), 0xFF);
    Unmasked(Code(c));
    OctetValue(Code(c));
  }

  lemma Unmasked(w: bv32)
    requires AtMost(w, 0xFF)
    ensures w & 0xFF == w
  {}

  lemma SmallChars(s: string, i: nat)
    requires WellFormed(s) && i < |s|
    ensures s[i] as int < 0x100
  {}

  lemma Only1(s: string)
    requires WellFormed(s) && |s| == 1
    ensures IsScalar(Decode(s)) && s == Encode(Decode(s))
  {
    hide Octet, Code, Tail, Lead2, Lead3, Lead4, Words3, Words4, WellFormed, Between, Join2, Join3, Join4, IsScalar;
    SmallChars(s, 0);
    OctetOfCode(s[0]);
    assert s == [s[0]];
    Codes1(s[0]);
    Back1(Code(s[0]));
  }

  lemma Only2(s: string)
    requires WellFormed(s) && |s| == 2
    ensures IsScalar(Decode(s)) && s == Encode(Decode(s))
  {
    hide Octet, Code, Tail, Lead2, Lead3, Lead4, Words3, Words4, WellFormed, Between, Join2, Join3, Join4, IsScalar;
    SmallChars(s, 0);
    OctetOfCode(s[0]);
    SmallChars(s, 1);
    OctetOfCode(s[1]);
    assert s == [s[0], s[1]];
    Codes2(s[0], s[1]);
    Back2(Code(s[0]), Code(s[1]));
  }

  lemma Only3(s: string)
    requires WellFormed(s) && |s| == 3
    ensures IsScalar(Decode(s)) && s == Encode(Decode(s))
  {
    hide Octet, Code, Tail, Lead2, Lead3, Lead4, Words3, Words4, WellFormed, Between, Join2, Join3, Join4, IsScalar;
    SmallChars(s, 0);
    OctetOfCode(s[0]);
    SmallChars(s, 1);
    OctetOfCode(s[1]);
    SmallChars(s, 2);
    OctetOfCode(s[2]);
    assert s == [s[0], s[1], s[2]];
    Codes3(s[0], s[1], s[2]);
    Back3(Code(s[0]), Code(s[1]), Code(s[2]));
  }

  lemma Only4(s: string)
    requires WellFormed(s) && |s| == 4
    ensures IsScalar(Decode(s)) && s == Encode(Decode(s))
  {
    hide Octet, Code, Words4, WellFormed, Join4, IsScalar, Encode, Decode;
    SmallChars(s, 0);
    OctetOfCode(s[0]);
    SmallChars(s, 1);
    OctetOfCode(s[1]);
    SmallChars(s, 2);
    OctetOfCode(s[2]);
    SmallChars(s, 3);
    OctetOfCode(s[3]);
    assert s == [s[0], s[1], s[2], s[3]];
    Codes4(s[0], s[1], s[2], s[3]);
    EncodeBack4(Code(s[0]), Code(s[1]), Code(s[2]), Code(s[3]));
    Decode4(s);
  }

  lemma Decode4(s: string)
    requires |s| == 4
    ensures Decode(s) == Join4(Code(s[0]), Code(s[1]), Code(s[2]), Code(s[3]))
  {
    hide Join4, Code;
  }

  lemma EncodeBack4(a: bv32, b: bv32, c: bv32, d: bv32)
    requires Words4(a, b, c, d)
    ensures IsScalar(Join4(a, b, c, d)) && Encode(Join4(a, b, c, d)) == [Octet(a), Octet(b), Octet(c), Octet(d)]
  {
    hide Octet, Words4, Join4, IsScalar, Lead4, Tail;
    Back4(a, b, c, d);
    HighIsScalar(Join4(a, b, c, d));
  }

  /** Every well-formed sequence is the encoding of the scalar value it decodes to; so each scalar value has exactly
      one. */
  lemma OnlyEncoding(s: string)
    requires WellFormed(s)
    ensures IsScalar(Decode(s)) && s == Encode(Decode(s))
  {
    hide Decode, Encode, WellFormed, IsScalar;
    FormLength(s);
    match |s|
    case 1 => Only1(s);
    case 2 => Only2(s);
    case 3 => Only3(s);
    case _ => Only4(s);
  }

  lemma HighIsScalar(cp: bv32)
    requires 0x1_0000 <= cp < 0x11_0000
    ensures IsScalar(cp)
  {}

  lemma FormLength(s: string)
    requires WellFormed(s)
    ensures 1 <= |s| <= 4
  {}
}
