/** String literals in their pieces, and that parse_string reads each as what it stands for. */
module Lexemes {

  import opened Bits
  import opened CText
  import opened JsonString
  import opened JsonTree
  import opened Utf8

  // ----- The pieces of a literal -----

  /** What may stand behind a \u: four hex digits in any case, or four other characters. */
  datatype Four = Hex(w: bv32, caps: seq<bool>) | NotHex(chars: string)

  ghost predicate ValidFour(q: Four) {
    match q
    case Hex(w, caps) => w < 0x1_0000 && |caps| == 4
    case NotHex(chars) =>
      && |chars| == 4 && (forall k :: 0 <= k < 4 ==> !Special(chars[k]))
      && !(IsHex(chars[0]) && IsHex(chars[1]) && IsHex(chars[2]) && IsHex(chars[3]))
  }

  ghost function FourText(q: Four): (s: string)
    requires ValidFour(q)
    ensures |s| == 4
  {
    match q
    case Hex(w, caps) => HexText(w, caps)
    case NotHex(chars) => chars
  }

  /** A plain byte, a short escape, a \u unit, a \u surrogate pair; and what the C code reads as nothing: a unit
      that is malformed, zero or half a pair, a high surrogate without a \u behind it, and a high surrogate
      together with a unit behind it that is no low surrogate. */
  datatype Token =
    | Raw(c: char)
    | Short(c: char)
    | Unit(cp: bv32, caps: seq<bool>)
    | Surrogates(d: bv32, caps: seq<bool>, caps2: seq<bool>)
    | Void(q: Four)
    | High(w: bv32, caps: seq<bool>)
    | Torn(w: bv32, caps: seq<bool>, q: Four)

  ghost predicate ValidToken(t: Token) {
    match t
    case Raw(c) => !Special(c)
    case Short(c) => c != NUL && c != 'u'
    case Unit(cp, caps) => 0 < cp < 0x1_0000 && !IsHigh(cp) && !IsLow(cp) && |caps| == 4
    case Surrogates(d, caps, caps2) => d < 0x10_0000 && |caps| == 4 && |caps2| == 4
    case Void(q) => ValidFour(q) && (q.Hex? ==> q.w == 0 || IsLow(q.w))
    case High(w, caps) => IsHigh(w) && |caps| == 4
    case Torn(w, caps, q) => IsHigh(w) && |caps| == 4 && ValidFour(q) && (q.Hex? ==> !IsLow(q.w))
  }

  lemma HalvesFit(d: bv32)
    requires d < 0x10_0000
    ensures HighHalf(d) < 0x1_0000 && LowHalf(d) < 0x1_0000 && HighHalf(d) != 0
    ensures IsHigh(HighHalf(d)) && !IsLow(HighHalf(d)) && IsLow(LowHalf(d))
  {}

  lemma HighFits(w: bv32)
    requires IsHigh(w)
    ensures 0 < w < 0x1_0000 && !IsLow(w)
  {}

  ghost function TokenText(t: Token): string
    requires ValidToken(t)
  {
    match t
    case Raw(c) => [c]
    case Short(c) => ['\\', c]
    case Unit(cp, caps) => ['\\', 'u'] + HexText(cp, caps)
    case Surrogates(d, caps, caps2) =>
      HalvesFit(d);
      ['\\', 'u'] + HexText(HighHalf(d), caps) + ['\\', 'u'] + HexText(LowHalf(d), caps2)
    case Void(q) => ['\\', 'u'] + FourText(q)
    case High(w, caps) => HighFits(w); ['\\', 'u'] + HexText(w, caps)
    case Torn(w, caps, q) => HighFits(w); ['\\', 'u'] + HexText(w, caps) + ['\\', 'u'] + FourText(q)
  }

  /** What the piece stands for: by RFC 8259 and RFC 3629 where they say so. */
  ghost function TokenBytes(t: Token): string
    requires ValidToken(t)
  {
    match t
    case Raw(c) => [c]
    case Short(c) => [Simple(c)]
    case Unit(cp, _) => Encode(cp)
    case Surrogates(d, _, _) => Encode(0x1_0000 + d)
    case _ => ""
  }

  predicate NoUnit(t: Token) {
    t.Raw? || t.Short?
  }

  /** Behind a lone high surrogate there is no \u. */
  ghost predicate ValidTokens(ts: seq<Token>) {
    && (forall k :: 0 <= k < |ts| ==> ValidToken(ts[k]))
    && (forall k :: 0 < k < |ts| && ts[k - 1].High? ==> NoUnit(ts[k]))
  }

  ghost function LiteralText(ts: seq<Token>, n: nat): string
    requires n <= |ts| && ValidTokens(ts)
  {
    if n == 0 then "" else LiteralText(ts, n - 1) + TokenText(ts[n - 1])
  }

  ghost function LiteralBytes(ts: seq<Token>, n: nat): string
    requires n <= |ts| && ValidTokens(ts)
  {
    if n == 0 then "" else LiteralBytes(ts, n - 1) + TokenBytes(ts[n - 1])
  }

  ghost function Literal(ts: seq<Token>): string
    requires ValidTokens(ts)
  {
    ['\"'] + LiteralText(ts, |ts|) + ['\"']
  }

  /** What the literal stands for. */
  ghost function LitBytes(ts: seq<Token>): string
    requires ValidTokens(ts)
  {
    LiteralBytes(ts, |ts|)
  }

  /** The pieces RFC 8259 gives a meaning to: raw characters from the space on, its short escapes and well-formed
      Unicode escapes. */
  predicate StandardPiece(t: Token) {
    match t
    case Raw(c) => c as int >= 32
    case Short(c) => c in "\"\\/bfnrt"
    case Unit(_, _) => true
    case Surrogates(_, _, _) => true
    case _ => false
  }

  ghost predicate StandardLit(ts: seq<Token>) {
    forall k :: 0 <= k < |ts| ==> StandardPiece(ts[k])
  }

  lemma {:induction false} SnocText(ts: seq<Token>, t: Token, n: nat)
    requires ValidTokens(ts) && ValidTokens(ts + [t]) && n <= |ts|
    ensures LiteralText(ts + [t], n) == LiteralText(ts, n) && LiteralBytes(ts + [t], n) == LiteralBytes(ts, n)
  {
    hide TokenText, TokenBytes, ValidTokens, ValidToken;
    if n > 0 {
      TokenOf(ts, n);
      SnocText(ts, t, n - 1);
    }
  }

  lemma Snoc(ts: seq<Token>, t: Token)
    requires ValidTokens(ts) && ValidToken(t) && (ts != [] && ts[|ts| - 1].High? ==> NoUnit(t))
    ensures ValidTokens(ts + [t])
    ensures LiteralText(ts + [t], |ts| + 1) == LiteralText(ts, |ts|) + TokenText(t)
    ensures LiteralBytes(ts + [t], |ts| + 1) == LiteralBytes(ts, |ts|) + TokenBytes(t)
  {
    hide TokenText, TokenBytes, ValidTokens;
    SnocValid(ts, t);
    SnocText(ts, t, |ts|);
    TokenOf(ts + [t], |ts| + 1);
  }

  lemma SnocValid(ts: seq<Token>, t: Token)
    requires ValidTokens(ts) && ValidToken(t) && (ts != [] && ts[|ts| - 1].High? ==> NoUnit(t))
    ensures ValidTokens(ts + [t])
  {
    hide ValidToken, NoUnit;
    var all, n := ts + [t], |ts|;
    forall k | 0 <= k < |all| ensures ValidToken(all[k]) {
      if k < n { assert all[k] == ts[k]; }
    }
    forall k | 0 < k < |all| && all[k - 1].High? ensures NoUnit(all[k]) {
      if k < n { assert all[k] == ts[k] && all[k - 1] == ts[k - 1]; }
    }
  }

  // ----- Each piece is read as what it stands for -----

  lemma HexIsNotSpecial(c: char)
    requires IsHex(c)
    ensures !Special(c)
  {}

  /** A \u escape of a single 16-bit unit that is no surrogate. */
  lemma UnitReads(cp: bv32, caps: seq<bool>, text: string, i: nat, acc: string)
    requires 0 < cp < 0x1_0000 && !IsHigh(cp) && !IsLow(cp) && |caps| == 4
    requires Occurs(['\\', 'u'] + HexText(cp, caps), text, i)
    ensures InStep(text, i) == InStep(text, i + 6)
    ensures Unescape(text, i, acc) == Unescape(text, i + 6, acc + Encode(cp))
  {
    hide Hex4, HexText, Encode, IsHex, IsHigh, IsLow, Special;
    OccursSplit(['\\', 'u'], HexText(cp, caps), text, i);
    OccursAt(['\\', 'u'], text, i, 0);
    OccursAt(['\\', 'u'], text, i, 1);
    Hex4OfHexText(cp, caps, text, i + 2);
    HexIsNotSpecial(At(text, i + 2));
    HexIsNotSpecial(At(text, i + 3));
    HexIsNotSpecial(At(text, i + 4));
    HexIsNotSpecial(At(text, i + 5));
  }

  lemma PairReads(d: bv32, caps: seq<bool>, caps2: seq<bool>, text: string, i: nat, acc: string)
    requires ValidToken(Surrogates(d, caps, caps2)) && Occurs(TokenText(Surrogates(d, caps, caps2)), text, i)
    ensures InStep(text, i) == InStep(text, i + 12)
    ensures Unescape(text, i, acc) == Unescape(text, i + 12, acc + Encode(0x1_0000 + d))
  {
    hide Hex4, HexText, Encode, IsHex, IsHigh, IsLow, Special, Pair, HighHalf, LowHalf;
    HalvesFit(d);
    PairOfHalves(d);
    var u, hi, lo := ['\\', 'u'], HexText(HighHalf(d), caps), HexText(LowHalf(d), caps2);
    OccursSplit(u + hi + u, lo, text, i);
    OccursSplit(u + hi, u, text, i);
    OccursSplit(u, hi, text, i);
    UnitDigits(HighHalf(d), caps, text, i);
    UnitDigits(LowHalf(d), caps2, text, i + 6);
  }

  lemma UnitDigits(w: bv32, caps: seq<bool>, text: string, i: nat)
    requires w < 0x1_0000 && |caps| == 4
    requires Occurs(['\\', 'u'], text, i) && Occurs(HexText(w, caps), text, i + 2)
    ensures At(text, i) == '\\' && At(text, i + 1) == 'u' && Hex4(text, i + 2) == w
    ensures InStep(text, i) == InStep(text, i + 6)
  {
    hide Hex4, HexText, IsHex, Special;
    OccursAt(['\\', 'u'], text, i, 0);
    OccursAt(['\\', 'u'], text, i, 1);
    Hex4OfHexText(w, caps, text, i + 2);
    HexIsNotSpecial(At(text, i + 2));
    HexIsNotSpecial(At(text, i + 3));
    HexIsNotSpecial(At(text, i + 4));
    HexIsNotSpecial(At(text, i + 5));
  }

  /** The number read for what stands behind a \u. */
  function FourValue(q: Four): bv32 {
    if q.Hex? then q.w else 0
  }

  lemma FourDigits(q: Four, text: string, i: nat)
    requires ValidFour(q) && Occurs(['\\', 'u'], text, i) && Occurs(FourText(q), text, i + 2)
    ensures At(text, i) == '\\' && At(text, i + 1) == 'u' && Hex4(text, i + 2) == FourValue(q)
    ensures InStep(text, i) == InStep(text, i + 6)
  {
    hide HexText, IsHex, Special;
    match q
    case Hex(w, caps) => UnitDigits(w, caps, text, i);
    case NotHex(chars) =>
      OccursAt(['\\', 'u'], text, i, 0);
      OccursAt(['\\', 'u'], text, i, 1);
      OccursAt(chars, text, i + 2, 0);
      OccursAt(chars, text, i + 2, 1);
      OccursAt(chars, text, i + 2, 2);
      OccursAt(chars, text, i + 2, 3);
  }

  lemma VoidReads(q: Four, text: string, i: nat, acc: string)
    requires ValidToken(Void(q)) && Occurs(TokenText(Void(q)), text, i)
    ensures InStep(text, i) == InStep(text, i + 6)
    ensures Unescape(text, i, acc) == Unescape(text, i + 6, acc + "")
  {
    hide Hex4, FourText, Encode, IsHigh, IsLow, Special, ValidFour;
    OccursSplit(['\\', 'u'], FourText(q), text, i);
    FourDigits(q, text, i);
  }

  predicate UnitAt(text: string, i: nat) {
    At(text, i) == '\\' && At(text, i + 1) == 'u'
  }

  lemma HighReads(w: bv32, caps: seq<bool>, text: string, i: nat, acc: string)
    requires ValidToken(High(w, caps)) && Occurs(TokenText(High(w, caps)), text, i) && !UnitAt(text, i + 6)
    ensures InStep(text, i) == InStep(text, i + 6)
    ensures Unescape(text, i, acc) == Unescape(text, i + 6, acc + "")
  {
    hide Hex4, HexText, Encode, IsHigh, IsLow, Special, InStep;
    HighFits(w);
    OccursSplit(['\\', 'u'], HexText(w, caps), text, i);
    UnitDigits(w, caps, text, i);
  }

  lemma TornReads(w: bv32, caps: seq<bool>, q: Four, text: string, i: nat, acc: string)
    requires ValidToken(Torn(w, caps, q)) && Occurs(TokenText(Torn(w, caps, q)), text, i)
    ensures InStep(text, i) == InStep(text, i + 12)
    ensures Unescape(text, i, acc) == Unescape(text, i + 12, acc + "")
  {
    hide Hex4, HexText, FourText, Encode, Pair, IsHigh, IsLow, Special, ValidFour, InStep;
    HighFits(w);
    ZeroNotLow();
    var u, hi, lo := ['\\', 'u'], HexText(w, caps), FourText(q);
    OccursSplit(u + hi + u, lo, text, i);
    OccursSplit(u + hi, u, text, i);
    OccursSplit(u, hi, text, i);
    UnitDigits(w, caps, text, i);
    FourDigits(q, text, i + 6);
  }

  lemma ZeroNotLow()
    ensures !IsLow(0)
  {}

  lemma TokenReads(t: Token, text: string, i: nat, acc: string)
    requires ValidToken(t) && Occurs(TokenText(t), text, i)
    requires t.High? ==> !UnitAt(text, i + |TokenText(t)|)
    ensures InStep(text, i) == InStep(text, i + |TokenText(t)|)
    ensures Unescape(text, i, acc) == Unescape(text, i + |TokenText(t)|, acc + TokenBytes(t))
  {
    hide InStep, Unescape, IsHigh, IsLow, Encode, HexText, HighHalf, LowHalf, ValidFour, FourText, UnitAt, Occurs;
    match t
    case Raw(c) => RawReads(c, text, i, acc);
    case Short(c) => ShortReads(c, text, i, acc);
    case Unit(cp, caps) => UnitReads(cp, caps, text, i, acc);
    case Surrogates(d, caps, caps2) => PairReads(d, caps, caps2, text, i, acc);
    case Void(q) => VoidReads(q, text, i, acc);
    case High(w, caps) => HighReads(w, caps, text, i, acc);
    case Torn(w, caps, q) => TornReads(w, caps, q, text, i, acc);
  }

  lemma RawReads(c: char, text: string, i: nat, acc: string)
    requires !Special(c) && Occurs([c], text, i)
    ensures InStep(text, i) == InStep(text, i + 1)
    ensures Unescape(text, i, acc) == Unescape(text, i + 1, acc + [c])
  {
    OccursAt([c], text, i, 0);
  }

  lemma ShortReads(c: char, text: string, i: nat, acc: string)
    requires c != NUL && c != 'u' && Occurs(['\\', c], text, i)
    ensures InStep(text, i) == InStep(text, i + 2)
    ensures Unescape(text, i, acc) == Unescape(text, i + 2, acc + [Simple(c)])
  {
    OccursAt(['\\', c], text, i, 0);
    OccursAt(['\\', c], text, i, 1);
  }

  lemma NoUnitAt(t: Token, text: string, i: nat)
    requires ValidToken(t) && NoUnit(t) && Occurs(TokenText(t), text, i)
    ensures !UnitAt(text, i)
  {
    OccursAt(TokenText(t), text, i, 0);
    if t.Short? { OccursAt(TokenText(t), text, i, 1); }
  }

  lemma TokenOf(ts: seq<Token>, n: nat)
    requires 0 < n <= |ts| && ValidTokens(ts)
    ensures ValidToken(ts[n - 1]) && (n > 1 && ts[n - 2].High? ==> NoUnit(ts[n - 1]))
  {
    if n > 1 && ts[n - 2].High? { assert ts[(n - 1) - 1].High?; }
  }

  lemma {:induction false} TokensRead(ts: seq<Token>, n: nat, text: string, i: nat, acc: string)
    requires n <= |ts| && ValidTokens(ts) && Occurs(LiteralText(ts, n), text, i)
    requires n > 0 && ts[n - 1].High? ==> !UnitAt(text, i + |LiteralText(ts, n)|)
    ensures InStep(text, i) == InStep(text, i + |LiteralText(ts, n)|)
    ensures Unescape(text, i, acc) == Unescape(text, i + |LiteralText(ts, n)|, acc + LiteralBytes(ts, n))
  {
    hide InStep, Unescape, TokenText, TokenBytes, ValidToken, ValidTokens, NoUnit, UnitAt, Occurs;
    if n == 0 {
      assert acc + "" == acc;
    } else {
      TokenOf(ts, n);
      OccursSplit(LiteralText(ts, n - 1), TokenText(ts[n - 1]), text, i);
      if n > 1 && ts[n - 2].High? { NoUnitAt(ts[n - 1], text, i + |LiteralText(ts, n - 1)|); }
      TokensRead(ts, n - 1, text, i, acc);
      TokenReads(ts[n - 1], text, i + |LiteralText(ts, n - 1)|, acc + LiteralBytes(ts, n - 1));
      assert acc + LiteralBytes(ts, n) == acc + LiteralBytes(ts, n - 1) + TokenBytes(ts[n - 1]);
    }
  }

  lemma QuotedParts(body: string, text: string, i: nat)
    requires Occurs(['\"'] + body + ['\"'], text, i)
    ensures At(text, i) == '\"' && Occurs(body, text, i + 1) && At(text, i + 1 + |body|) == '\"'
  {
    hide Occurs, At;
    OccursSplit(['\"'] + body, ['\"'], text, i);
    OccursSplit(['\"'], body, text, i);
    OccursAt(['\"'], text, i, 0);
    OccursAt(['\"'], text, i + 1 + |body|, 0);
  }

  /** The copying pass of the parser goes from behind the opening quote of a literal to its closing quote. */
  lemma LitUnescaped(ts: seq<Token>, text: string, i: nat)
    requires ValidTokens(ts) && Occurs(Literal(ts), text, i)
    ensures |Literal(ts)| >= 2
    ensures var j := i + |Literal(ts)| - 1;
            && At(text, i) == '\"' && At(text, j) == '\"' && InStep(text, i + 1)
            && Unescape(text, i + 1, "") == (LitBytes(ts), j)
  {
    hide ValidTokens, LiteralText, LiteralBytes, InStep, Unescape, Occurs, At;
    var body := LiteralText(ts, |ts|);
    QuotedParts(body, text, i);
    TokensRead(ts, |ts|, text, i + 1, "");
    assert "" + LiteralBytes(ts, |ts|) == LiteralBytes(ts, |ts|);
    StopsHere(text, i + 1 + |body|, LiteralBytes(ts, |ts|));
  }

  lemma StopsHere(text: string, j: nat, acc: string)
    requires At(text, j) == '\"'
    ensures InStep(text, j) && Unescape(text, j, acc) == (acc, j)
  {}

  /** A literal reads as what it stands for and ends at its own quote, wherever it stands. */
  lemma LitReads(ts: seq<Token>, text: string, i: nat)
    requires ValidTokens(ts) && Occurs(Literal(ts), text, i)
    ensures At(text, i) == '\"' && ParsedString(text, i) == Parsed(LitBytes(ts), i + |Literal(ts)|)
  {
    hide ValidTokens, Literal, LitBytes, InStep, Unescape, Occurs, At;
    LitUnescaped(ts, text, i);
    LiteralParsed(text, i, i + |Literal(ts)| - 1, LitBytes(ts));
  }

  lemma LiteralParsed(text: string, i: nat, j: nat, bytes: string)
    requires At(text, i) == '\"' && At(text, j) == '\"' && InStep(text, i + 1)
    requires Unescape(text, i + 1, "") == (bytes, j)
    ensures ParsedString(text, i) == Parsed(bytes, j + 1)
  {}

  lemma LitStarts(ts: seq<Token>)
    requires ValidTokens(ts)
    ensures |Literal(ts)| >= 2 && Literal(ts)[0] == '\"'
  {
    hide ValidTokens, LiteralText;
  }
}
