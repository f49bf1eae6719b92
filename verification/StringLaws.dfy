/** What parse_string accepts, and what it does to printed strings. */
module StringLaws {

  import opened Bits
  import opened CText
  import opened JsonString
  import opened JsonTree
  import opened Lexemes
  import opened Utf8

  // ----- The pieces of a printed string -----

  lemma LowNibble(w: bv32)
    requires w < 0x20
    ensures Group(w, 3) == 0 && Group(w, 2) == 0
    ensures Value(w) == 16 * Value(Group(w, 1)) + Value(Group(w, 0))
    ensures 0 <= Value(Group(w, 0)) < 16 && 0 <= Value(Group(w, 1)) < 16
    ensures Octet(w) == Value(w) as char
  {
    assert w & 0xFF == w;
  }

  lemma BelowSpace(w: bv32)
    requires 0 <= Value(w) < 32
    ensures w < 0x20
  {}

  lemma HexDigitIsHexChar(n: bv32)
    requires n < 0x10
    ensures 0 <= Value(n) < 16 && HexDigit(Value(n)) == HexChar(n, false)
  {
    NibbleBounds(n);
  }

  lemma Divide(n: int, q: int, r: int)
    requires n == 16 * q + r && 0 <= r < 16 && 0 <= q < 16
    ensures n / 16 % 16 == q && n % 16 == r
  {}

  /** The escape of a control character is its 16-bit number in hex. */
  lemma ControlCode(c: char)
    requires c as int < 32
    ensures var w := Word(c as int);
            w < 0x20 && Octet(w) == c && Value(w) == c as int
            && HexText(w, [false, false, false, false])
               == ['0', '0', HexDigit(c as int / 16 % 16), HexDigit(c as int % 16)]
  {
    hide Value, Word, HexDigit, HexChar, Octet, Group;
    var w := Word(c as int);
    WordRoundTrip(c as int);
    BelowSpace(w);
    LowNibble(w);
    Divide(c as int, Value(Group(w, 1)), Value(Group(w, 0)));
    HexDigitIsHexChar(Group(w, 1));
    HexDigitIsHexChar(Group(w, 0));
    ZeroDigit();
  }

  lemma ZeroDigit()
    ensures HexChar(0, false) == '0'
  {}

  lemma ControlWord(w: bv32)
    requires 0 < w < 0x20
    ensures !IsHigh(w) && !IsLow(w) && Encode(w) == [Octet(w)]
  {}

  const LOWER := [false, false, false, false]

  /** The piece a character is printed as. */
  function PieceOf(c: char): Token {
    if IsPlain(c) then Raw(c) else if Letter(c) != NUL then Short(Letter(c)) else Unit(Word(c as int), LOWER)
  }

  lemma PieceIsStandard(c: char)
    requires c != NUL
    ensures ValidToken(PieceOf(c)) && !PieceOf(c).High? && StandardPiece(PieceOf(c))
    ensures TokenText(PieceOf(c)) == EscapeChar(c) && TokenBytes(PieceOf(c)) == [c]
  {
    hide Word, Value, HexText, Encode, HexDigit, Octet, IsHigh, IsLow;
    if !IsPlain(c) && Letter(c) == NUL {
      ControlCode(c);
      ZeroWord();
      ControlWord(Word(c as int));
    }
  }

  lemma ZeroWord()
    ensures Value(0) == 0
  {}

  /** The pieces of the first n characters. */
  function Pieces(s: string, n: nat): (ts: seq<Token>)
    requires n <= |s|
    ensures |ts| == n
  {
    if n == 0 then [] else Pieces(s, n - 1) + [PieceOf(s[n - 1])]
  }

  lemma {:induction false} PiecesAre(s: string, n: nat)
    requires n <= |s| && NulFree(s)
    ensures ValidTokens(Pieces(s, n)) && StandardLit(Pieces(s, n))
    ensures n > 0 ==> !Pieces(s, n)[n - 1].High?
    ensures LiteralText(Pieces(s, n), n) == Escape(s, n) && LiteralBytes(Pieces(s, n), n) == s[..n]
  {
    hide TokenText, TokenBytes, ValidToken, PieceOf, EscapeChar, StandardPiece, LiteralText, LiteralBytes;
    if n > 0 {
      PiecesAre(s, n - 1);
      PieceIsStandard(s[n - 1]);
      Snoc(Pieces(s, n - 1), PieceOf(s[n - 1]));
      assert s[..n] == s[..n - 1] + [s[n - 1]];
    } else {
      NoPieces();
    }
  }

  lemma NoPieces()
    ensures ValidTokens([]) && LiteralText([], 0) == "" && LiteralBytes([], 0) == ""
  {}

  /** How each character is printed: the short forms of section 7 of RFC 8259 but for the slash, lower-case hex for
      the other control characters, all else as it is. */
  lemma EscapeForms(c: char)
    ensures EscapeChar(c) ==
            if c == '\"' then "\\\""
            else if c == '\\' then "\\\\"
            else if c as int == 8 then "\\b"
            else if c as int == 9 then "\\t"
            else if c as int == 10 then "\\n"
            else if c as int == 12 then "\\f"
            else if c as int == 13 then "\\r"
            else if c as int < 32 then "\\u00" + ["0123456789abcdef"[c as int / 16], "0123456789abcdef"[c as int % 16]]
            else [c]
  {
    hide HexDigit;
    if c as int < 32 {
      HexForm(c as int / 16);
      HexForm(c as int % 16);
    }
  }

  lemma HexForm(d: nat)
    requires d < 16
    ensures HexDigit(d) == "0123456789abcdef"[d]
  {}

  /** What the letter of a short escape stands for. */
  lemma ShortForms(c: char)
    ensures Simple(c) as int == if c == 'b' then 8 else if c == 't' then 9 else if c == 'n' then 10
                                else if c == 'f' then 12 else if c == 'r' then 13 else c as int
  {}

  /** A printed string is a literal of RFC 8259 that stands for the string. */
  lemma QuoteIsLiteral(s: string)
    requires NulFree(s)
    ensures var ts := Pieces(s, |s|);
            ValidTokens(ts) && StandardLit(ts) && Literal(ts) == Quote(s) && LitBytes(ts) == s
  {
    hide ValidTokens, LiteralText, LiteralBytes, StandardLit, Escape;
    PiecesAre(s, |s|);
    assert s[..|s|] == s;
  }

  /** Reading a printed string gives the string back and stops right after its closing quote. */
  lemma StringRoundTrip(s: string, text: string, i: nat)
    requires NulFree(s) && Occurs(Quote(s), text, i)
    ensures ParsedString(text, i) == Parsed(s, i + |Quote(s)|)
  {
    hide ParsedString, Occurs, NulFree, Quote, ValidTokens, Literal, LitBytes;
    QuoteIsLiteral(s);
    LitReads(Pieces(s, |s|), text, i);
  }

  // ----- The pieces of any literal that is read -----

  predicate IsUpper(c: char) {
    'A' <= c <= 'F'
  }

  lemma HexCharOfNibble(c: char)
    requires IsHex(c)
    ensures Nibble(c) < 0x10 && HexChar(Nibble(c), IsUpper(c)) == c
  {
    hide Word, Value;
    NibbleIsSmall(c);
    NibbleBounds(Nibble(c));
    WordRoundTrip(if '0' <= c <= '9' then c as int - '0' as int
                  else if 'A' <= c <= 'F' then 10 + c as int - 'A' as int else 10 + c as int - 'a' as int);
  }

  lemma GroupsAssembled(a: bv32, b: bv32, c: bv32, d: bv32)
    requires a < 0x10 && b < 0x10 && c < 0x10 && d < 0x10
    ensures var w := Accumulate(a, b, c, d);
            w < 0x1_0000 && Group(w, 3) == a && Group(w, 2) == b && Group(w, 1) == c && Group(w, 0) == d
  {}

  lemma HexTextOfHex4(s: string)
    requires |s| == 4 && IsHex(s[0]) && IsHex(s[1]) && IsHex(s[2]) && IsHex(s[3])
    ensures var w := Accumulate(Nibble(s[0]), Nibble(s[1]), Nibble(s[2]), Nibble(s[3]));
            w < 0x1_0000 && HexText(w, [IsUpper(s[0]), IsUpper(s[1]), IsUpper(s[2]), IsUpper(s[3])]) == s
  {
    hide HexChar, Nibble, IsHex, Group, Accumulate, IsUpper;
    HexCharOfNibble(s[0]);
    HexCharOfNibble(s[1]);
    HexCharOfNibble(s[2]);
    HexCharOfNibble(s[3]);
    GroupsAssembled(Nibble(s[0]), Nibble(s[1]), Nibble(s[2]), Nibble(s[3]));
  }

  predicate PlainQuad(text: string, i: nat) {
    !Special(At(text, i)) && !Special(At(text, i + 1)) && !Special(At(text, i + 2)) && !Special(At(text, i + 3))
  }

  lemma FourOf(text: string, i: nat) returns (q: Four)
    requires UnitAt(text, i) && PlainQuad(text, i + 2)
    ensures ValidFour(q) && FourValue(q) == Hex4(text, i + 2) && Occurs(['\\', 'u'] + FourText(q), text, i)
    ensures i + 6 <= |text|
  {
    hide Nibble, Accumulate, HexText, IsHex, Word;
    var s := text[i + 2..i + 6];
    if IsHex(s[0]) && IsHex(s[1]) && IsHex(s[2]) && IsHex(s[3]) {
      HexTextOfHex4(s);
      q := Hex(Accumulate(Nibble(s[0]), Nibble(s[1]), Nibble(s[2]), Nibble(s[3])),
               [IsUpper(s[0]), IsUpper(s[1]), IsUpper(s[2]), IsUpper(s[3])]);
    } else {
      q := NotHex(s);
    }
    assert text[i..i + 6] == ['\\', 'u'] + s;
  }

  lemma InStepOnce(text: string, i: nat)
    requires InStep(text, i) && At(text, i) == '\\'
    ensures At(text, i + 1) != NUL
    ensures if At(text, i + 1) == 'u' then PlainQuad(text, i + 2) && InStep(text, i + 6) else InStep(text, i + 2)
  {}

  lemma PairOfWords(w: bv32, v: bv32) returns (d: bv32)
    requires IsHigh(w) && IsLow(v)
    ensures d < 0x10_0000 && HighHalf(d) == w && LowHalf(d) == v
  {
    d := ((w & 0x3FF) << 10) | (v & 0x3FF);
  }

  ghost predicate IsPiece(t: Token, text: string, i: nat) {
    && ValidToken(t) && Occurs(TokenText(t), text, i) && InStep(text, i + |TokenText(t)|)
    && (NoUnit(t) <==> !UnitAt(text, i)) && (t.High? ==> !UnitAt(text, i + |TokenText(t)|))
  }

  lemma UnitPiece(text: string, i: nat) returns (t: Token)
    requires UnitAt(text, i) && InStep(text, i)
    ensures IsPiece(t, text, i)
  {
    hide Hex4, IsHigh, IsLow, ValidFour, FourText, HexText, HighHalf, LowHalf, InStep, PlainQuad, Occurs;
    InStepOnce(text, i);
    var q := FourOf(text, i);
    var w := FourValue(q);
    ZeroNotLow();
    ZeroNotHigh();
    if w == 0 || IsLow(w) {
      t := Void(q);
    } else if !IsHigh(w) {
      FourIsHex(q);
      t := Unit(w, q.caps);
    } else {
      FourIsHex(q);
      HighFits(w);
      if !UnitAt(text, i + 6) {
        t := High(w, q.caps);
      } else {
        InStepOnce(text, i + 6);
        var r := FourOf(text, i + 6);
        OccursJoin(['\\', 'u'] + FourText(q), ['\\', 'u'] + FourText(r), text, i);
        assert ['\\', 'u'] + FourText(q) + (['\\', 'u'] + FourText(r))
            == ['\\', 'u'] + FourText(q) + ['\\', 'u'] + FourText(r);
        if IsLow(FourValue(r)) {
          FourIsHex(r);
          var d := PairOfWords(w, FourValue(r));
          t := Surrogates(d, q.caps, r.caps);
        } else {
          t := Torn(w, q.caps, r);
        }
      }
    }
  }

  lemma ZeroNotHigh()
    ensures !IsHigh(0)
  {}

  lemma FourIsHex(q: Four)
    requires ValidFour(q) && FourValue(q) != 0
    ensures q.Hex? && q.w < 0x1_0000 && |q.caps| == 4 && FourText(q) == HexText(q.w, q.caps)
  {}

  lemma NextPiece(text: string, i: nat) returns (t: Token)
    requires InStep(text, i) && At(text, i) != NUL && At(text, i) != '\"'
    ensures IsPiece(t, text, i)
  {
    hide UnitAt;
    if At(text, i) != '\\' {
      t := Raw(At(text, i));
      RawPiece(text, i);
    } else if At(text, i + 1) == 'u' {
      t := UnitPiece(text, i) by { assert UnitAt(text, i) by { IsUnit(text, i); } }
    } else {
      t := Short(At(text, i + 1));
      ShortPiece(text, i);
    }
  }

  lemma IsUnit(text: string, i: nat)
    requires At(text, i) == '\\' && At(text, i + 1) == 'u'
    ensures UnitAt(text, i)
  {}

  lemma RawPiece(text: string, i: nat)
    requires InStep(text, i) && !Special(At(text, i))
    ensures IsPiece(Raw(At(text, i)), text, i)
  {}

  lemma ShortPiece(text: string, i: nat)
    requires InStep(text, i) && At(text, i) == '\\' && At(text, i + 1) != 'u'
    ensures IsPiece(Short(At(text, i + 1)), text, i)
  {}

  /** Behind the pieces found so far, further ones up to the end of the literal. */
  lemma {:induction false} PiecesFrom(text: string, start: nat, i: nat, found: seq<Token>) returns (ts: seq<Token>)
    requires ValidTokens(found) && Occurs(LiteralText(found, |found|), text, start) && InStep(text, i)
    requires i == start + |LiteralText(found, |found|)|
    requires found != [] && found[|found| - 1].High? ==> !UnitAt(text, i)
    ensures ValidTokens(ts) && Occurs(LiteralText(ts, |ts|), text, start)
    ensures var c := At(text, start + |LiteralText(ts, |ts|)|); c == '\"' || c == NUL
    decreases |text| - i
  {
    hide ValidTokens, LiteralText, InStep, UnitAt, NoUnit, ValidToken, TokenText, Occurs;
    if At(text, i) == '\"' || At(text, i) == NUL {
      ts := found;
    } else {
      var t := NextPiece(text, i);
      Snoc(found, t);
      PieceNonempty(t);
      OccursJoin(LiteralText(found, |found|), TokenText(t), text, start);
      Within(text, i);
      ts := PiecesFrom(text, start, i + |TokenText(t)|, found + [t]);
    }
  }

  lemma PieceNonempty(t: Token)
    requires ValidToken(t)
    ensures TokenText(t) != ""
  {}

  lemma Within(text: string, i: nat)
    requires At(text, i) != NUL
    ensures i < |text|
  {}

  /** A literal that ends at its quote and not at the end of the text. */
  predicate ClosedAt(text: string, i: nat) {
    At(text, i) == '\"' ==> At(text, Unescape(text, i + 1, "").1) == '\"'
  }

  /** Every closed literal that is read consists of the listed pieces. */
  lemma AcceptedLiteral(text: string, i: nat) returns (ts: seq<Token>)
    requires At(text, i) == '\"' && ParsedString(text, i).Parsed? && ClosedAt(text, i)
    ensures ValidTokens(ts) && Occurs(Literal(ts), text, i)
    ensures ParsedString(text, i) == Parsed(LitBytes(ts), i + |Literal(ts)|)
  {
    hide ValidTokens, LiteralText, InStep, Unescape, Occurs, LiteralBytes, UnitAt;
    NoPieces();
    EmptyOccurs(text, i + 1);
    ts := PiecesFrom(text, i + 1, i + 1, []);
    var body := LiteralText(ts, |ts|);
    var j := i + 1 + |body|;
    NoUnitHere(text, j);
    TokensRead(ts, |ts|, text, i + 1, "");
    assert "" + LiteralBytes(ts, |ts|) == LiteralBytes(ts, |ts|);
    EndsAt(text, j, LiteralBytes(ts, |ts|));
    QuoteOccurs(text, i);
    QuoteOccurs(text, j);
    OccursJoin(['\"'], body, text, i);
    OccursJoin(['\"'] + body, ['\"'], text, i);
    LitReads(ts, text, i);
  }

  lemma NoUnitHere(text: string, j: nat)
    requires At(text, j) == '\"' || At(text, j) == NUL
    ensures !UnitAt(text, j)
  {}

  lemma EndsAt(text: string, j: nat, acc: string)
    requires At(text, j) == '\"' || At(text, j) == NUL
    ensures Unescape(text, j, acc) == (acc, j)
  {}

  lemma QuoteOccurs(text: string, i: nat)
    requires At(text, i) == '\"'
    ensures Occurs(['\"'], text, i)
  {}

  lemma EmptyOccurs(text: string, i: nat)
    requires 0 < i && At(text, i - 1) != NUL
    ensures Occurs("", text, i)
  {}

  // ----- Parsed strings are C strings -----

  lemma ChunkNulFree(text: string, i: nat)
    requires At(text, i) == '\\' && InStep(text, i)
    ensures NulFree(ReadEscape(text, i).bytes)
  {
    hide Hex4, Encode, Pair;
    if At(text, i + 1) == 'u' {
      var uc, uc2 := Hex4(text, i + 2), Hex4(text, i + 8);
      Hex4IsSmall(text, i + 2);
      PairInRange(uc, uc2);
      if uc != 0 { EncodeNulFree(uc); }
      EncodeNulFree(Pair(uc, uc2));
    }
  }

  lemma {:induction false} UnescapeNulFree(text: string, i: nat, acc: string)
    requires NulFree(acc) && InStep(text, i)
    ensures NulFree(Unescape(text, i, acc).0)
    decreases |text| - i
  {
    hide ReadEscape, Special;
    var c := At(text, i);
    if c != NUL && c != '\"' {
      if c != '\\' {
        UnescapeNulFree(text, i + 1, acc + [c]);
      } else {
        var chunk := ReadEscape(text, i);
        ChunkNulFree(text, i);
        EscapeFits(text, i);
        NulFreeConcat(acc, chunk.bytes);
        UnescapeNulFree(text, chunk.next, acc + chunk.bytes);
      }
    }
  }

  lemma ParsedStringNulFree(text: string, i: nat)
    requires ParsedString(text, i).Parsed?
    ensures NulFree(ParsedString(text, i).value)
  {
    hide Unescape, InStep;
    UnescapeNulFree(text, i + 1, "");
  }
}
