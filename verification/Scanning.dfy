/** How the parser moves over blanks, numbers and words. */
module Scanning {

  import opened CText
  import opened Decimal
  import opened JsonParse
  import opened JsonString
  import opened JsonTree

  // ----- Blanks -----

  ghost predicate AllBlank(s: string) {
    forall k :: 0 <= k < |s| ==> IsBlank(s[k])
  }

  lemma {:induction false} SkipBlanks(blanks: string, text: string, i: nat)
    requires AllBlank(blanks) && Occurs(blanks, text, i)
    ensures Skipped(text, i) == Skipped(text, i + |blanks|)
    decreases |blanks|
  {
    if blanks != "" {
      OccursAt(blanks, text, i, 0);
      assert blanks == [blanks[0]] + blanks[1..];
      OccursSplit([blanks[0]], blanks[1..], text, i);
      SkipBlanks(blanks[1..], text, i + 1);
    }
  }

  /** Skipping stops at the terminator or the first character above 32. */
  lemma {:induction false} SkippedIs(text: string, i: nat, k: nat)
    ensures i <= Skipped(text, i) && (At(text, Skipped(text, i)) as int == 0 || 32 < At(text, Skipped(text, i)) as int)
    ensures i <= k < Skipped(text, i) ==> 0 < At(text, k) as int <= 32
    decreases |text| - i
  {
    if IsBlank(At(text, i)) { SkippedIs(text, i + 1, k); }
  }

  lemma SkipTwice(text: string, i: nat)
    ensures Skipped(text, Skipped(text, i)) == Skipped(text, i)
    decreases |text| - i
  {}

  lemma SkipNothing(text: string, i: nat)
    requires !IsBlank(At(text, i))
    ensures Skipped(text, i) == i
  {}

  // ----- Numbers -----

  /** A character that would continue a number. */
  predicate Continues(c: char) {
    IsDigit(c) || c == '.' || c == 'e' || c == 'E'
  }

  lemma {:induction false} DigitsRead(n: nat, text: string, i: nat)
    requires Occurs(OfNat(n), text, i)
    ensures Digits(text, i, 0) == Digits(text, i + |OfNat(n)|, n)
  {
    hide Occurs;
    if n < 10 {
      OccursAt(OfNat(n), text, i, 0);
    } else {
      var head := OfNat(n / 10);
      OccursSplit(head, [Digit(n % 10)], text, i);
      OccursAt([Digit(n % 10)], text, i + |head|, 0);
      DigitsRead(n / 10, text, i);
    }
  }

  function Signed(negative: bool, m: nat): int {
    var n: int := m;
    if negative then -n else n
  }

  /** A number as the C code takes it: a sign, a zero, and a decimal without a leading zero, any of them missing. */
  function NumeralText(negative: bool, zero: bool, m: nat): string {
    (if negative then "-" else "") + (if zero then "0" else "") + (if m == 0 then "" else OfNat(m))
  }

  predicate ValidNumeral(negative: bool, zero: bool, m: nat) {
    (negative || zero || m > 0) && IsInt(Signed(negative, m))
  }

  lemma NumeralParts(negative: bool, zero: bool, m: nat, text: string, i: nat)
    requires Occurs(NumeralText(negative, zero, m), text, i)
    ensures Occurs(if negative then "-" else "", text, i)
    ensures var j := if negative then i + 1 else i;
            && Occurs(if zero then "0" else "", text, j)
            && Occurs(if m == 0 then "" else OfNat(m), text, if zero then j + 1 else j)
  {
    hide Occurs, OfNat;
    var sign, lead, rest := if negative then "-" else "", if zero then "0" else "", if m == 0 then "" else OfNat(m);
    OccursSplit(sign + lead, rest, text, i);
    OccursSplit(sign, lead, text, i);
  }

  /** The digits read from k on, where a leading zero has been passed. */
  function DigitRun(text: string, k: nat): (nat, nat) {
    if '1' <= At(text, k) <= '9' then Digits(text, k, 0) else (0, k)
  }

  lemma RunReads(m: nat, text: string, k: nat)
    requires Occurs(if m == 0 then "" else OfNat(m), text, k)
    requires !IsDigit(At(text, k + if m == 0 then 0 else |OfNat(m)|))
    ensures DigitRun(text, k) == (m, k + if m == 0 then 0 else |OfNat(m)|)
    ensures m > 0 ==> '1' <= At(text, k) <= '9'
  {
    hide Occurs;
    if m > 0 {
      OccursAt(OfNat(m), text, k, 0);
      OfNatLead(m);
      OfNatDigits(m, 0);
      DigitsRead(m, text, k);
    }
  }

  /** Every text of this form is read as its integer where nothing continues it; a fraction, an exponent or a value
      beyond 32 bits is not. */
  lemma NumeralIs(negative: bool, zero: bool, m: nat, text: string, i: nat)
    requires (negative || zero || m > 0) && Occurs(NumeralText(negative, zero, m), text, i)
    requires !IsDigit(At(text, i + |NumeralText(negative, zero, m)|))
    ensures At(text, i) == '-' || IsDigit(At(text, i))
    ensures var e, n := i + |NumeralText(negative, zero, m)|, Signed(negative, m);
            ParsedNumber(text, i) ==
            if (At(text, e) == '.' && IsDigit(At(text, e + 1))) || At(text, e) == 'e' || At(text, e) == 'E'
               || n < -0x8000_0000 || 0x7FFF_FFFF < n
            then Undefined else Parsed(Number(n), e)
  {
    hide Occurs, Digits, OfNat;
    NumeralParts(negative, zero, m, text, i);
    if negative { OccursAt("-", text, i, 0); }
    var j := if negative then i + 1 else i;
    if zero { OccursAt("0", text, j, 0); }
    RunReads(m, text, if zero then j + 1 else j);
  }

  /** Every such number in range is read as what it denotes, wherever it stands and nothing continues it. */
  lemma NumeralReads(negative: bool, zero: bool, m: nat, text: string, i: nat)
    requires ValidNumeral(negative, zero, m) && Occurs(NumeralText(negative, zero, m), text, i)
    requires !Continues(At(text, i + |NumeralText(negative, zero, m)|))
    ensures At(text, i) == '-' || IsDigit(At(text, i))
    ensures ParsedNumber(text, i)
         == Parsed(Number(Signed(negative, m)), i + |NumeralText(negative, zero, m)|)
  {
    hide Occurs, NumeralText, ParsedNumber;
    NumeralIs(negative, zero, m, text, i);
  }

  /** The digits that are read spell their value. */
  lemma {:induction false} DigitsSpell(text: string, k: nat, acc: nat)
    requires acc > 0 && k <= |text|
    ensures var (m, e) := Digits(text, k, acc);
            m > 0 && k <= e <= |text| && OfNat(m) == OfNat(acc) + text[k..e]
    decreases |text| - k
  {
    hide OfNat;
    var c := At(text, k);
    if IsDigit(c) {
      var next := 10 * acc + DigitValue(c);
      NextDigit(acc, c);
      DigitsSpell(text, k + 1, next);
      var (m, e) := Digits(text, k + 1, next);
      assert text[k..e] == [c] + text[k + 1..e];
    }
  }

  lemma NextDigit(acc: nat, c: char)
    requires acc > 0 && IsDigit(c)
    ensures OfNat(10 * acc + DigitValue(c)) == OfNat(acc) + [c]
  {}

  lemma RunSpells(text: string, k: nat)
    requires k <= |text|
    ensures var (m, e) := DigitRun(text, k);
            k <= e <= |text| && text[k..e] == if m == 0 then "" else OfNat(m)
  {
    hide OfNat;
    if '1' <= At(text, k) <= '9' {
      var d := DigitValue(At(text, k));
      OneDigit(d);
      DigitsSpell(text, k + 1, d);
      var (m, e) := Digits(text, k + 1, d);
      assert text[k..e] == [text[k]] + text[k + 1..e];
    }
  }

  lemma OneDigit(d: nat)
    requires d < 10
    ensures OfNat(d) == [Digit(d)]
  {}

  /** Every number that is read has this form. */
  lemma AcceptedNumeral(text: string, i: nat) returns (negative: bool, zero: bool, m: nat)
    requires (At(text, i) == '-' || IsDigit(At(text, i))) && ParsedNumber(text, i).Parsed?
    ensures ValidNumeral(negative, zero, m) && Occurs(NumeralText(negative, zero, m), text, i)
    ensures ParsedNumber(text, i)
         == Parsed(Number(Signed(negative, m)), i + |NumeralText(negative, zero, m)|)
  {
    hide OfNat, DigitRun;
    negative := At(text, i) == '-';
    var j := if negative then i + 1 else i;
    zero := At(text, j) == '0';
    var k := if zero then j + 1 else j;
    RunSpells(text, k);
    m := DigitRun(text, k).0;
    NumeralSpells(text, i, negative, zero, m, DigitRun(text, k).1);
    NumberIs(text, i, negative, zero, m, DigitRun(text, k).1);
  }

  lemma NumeralSpells(text: string, i: nat, negative: bool, zero: bool, m: nat, e: nat)
    requires negative ==> At(text, i) == '-'
    requires var j := if negative then i + 1 else i;
             && (zero ==> At(text, j) == '0')
             && var k := if zero then j + 1 else j;
                k <= e <= |text| && text[k..e] == if m == 0 then "" else OfNat(m)
    ensures i <= e && text[i..e] == NumeralText(negative, zero, m)
  {
    hide OfNat;
    var j := if negative then i + 1 else i;
    var k := if zero then j + 1 else j;
    assert text[i..j] == if negative then "-" else "";
    assert text[j..k] == if zero then "0" else "";
    assert text[i..e] == text[i..j] + text[j..k] + text[k..e];
  }

  lemma NumberIs(text: string, i: nat, negative: bool, zero: bool, m: nat, e: nat)
    requires (At(text, i) == '-' || IsDigit(At(text, i))) && ParsedNumber(text, i).Parsed?
    requires negative == (At(text, i) == '-')
    requires var j := if negative then i + 1 else i;
             zero == (At(text, j) == '0') && DigitRun(text, if zero then j + 1 else j) == (m, e)
    ensures ParsedNumber(text, i) == Parsed(Number(Signed(negative, m)), e) && ValidNumeral(negative, zero, m)
  {
    hide Digits;
    NotNothing(text, i, negative, zero, m, e);
  }

  lemma NotNothing(text: string, i: nat, negative: bool, zero: bool, m: nat, e: nat)
    requires (At(text, i) == '-' || IsDigit(At(text, i))) && negative == (At(text, i) == '-')
    requires var j := if negative then i + 1 else i;
             zero == (At(text, j) == '0') && DigitRun(text, if zero then j + 1 else j) == (m, e)
    ensures negative || zero || m > 0
  {
    hide OfNat;
    var j := if negative then i + 1 else i;
    if !negative && !zero { RunSpells(text, j); }
  }

  // ----- Where the parser stops -----

  /** Nothing that could start a value: the error is here. */
  lemma NoValueHere(text: string, i: nat)
    requires At(text, i) !in "nft\"-[{0123456789"
    ensures ParsedValue(text, i) == Rejected(i)
  {
    NotKeyword(text, i);
  }

  /** Behind an item stands neither a comma nor the closing bracket: the error is at the first character that is no
      blank; an error in the item is passed on. */
  lemma NoSeparatorHere(text: string, i: nat)
    ensures match ParsedValue(text, i)
            case Parsed(_, e) =>
              var k := Skipped(text, e);
              At(text, k) != ',' && At(text, k) != ']' ==> ParsedItems(text, i) == Rejected(k)
            case Rejected(at) => ParsedItems(text, i) == Rejected(at)
            case Undefined => ParsedItems(text, i) == Undefined
  {
    hide ParsedValue, Skipped;
  }

  /** The same for a member: where its name, its colon, its value or the separator behind it is missing. */
  lemma NoMemberHere(text: string, i: nat)
    ensures At(text, i) != '\"' ==> ParsedMembers(text, i) == Rejected(i)
    ensures ParsedString(text, i).Parsed? ==>
              var k := Skipped(text, ParsedString(text, i).end);
              if At(text, k) != ':' then ParsedMembers(text, i) == Rejected(k)
              else
                match ParsedValue(text, Skipped(text, k + 1))
                case Parsed(_, e) =>
                  var l := Skipped(text, e);
                  At(text, l) != ',' && At(text, l) != '}' ==> ParsedMembers(text, i) == Rejected(l)
                case Rejected(at) => ParsedMembers(text, i) == Rejected(at)
                case Undefined => ParsedMembers(text, i) == Undefined
  {
    hide ParsedValue, Skipped, InStep, Unescape;
  }

  /** Behind a whole text something is left. */
  lemma MoreLeft(text: string)
    requires ParsedValue(text, Skipped(text, 0)).Parsed?
    ensures var k := Skipped(text, ParsedValue(text, Skipped(text, 0)).end);
            At(text, k) != NUL ==> ParsedText(text, true) == Rejected(k)
  {
    hide ParsedValue, Skipped;
  }

  // ----- Words -----

  lemma NotKeyword(text: string, i: nat)
    requires At(text, i) != 'n' && At(text, i) != 'f' && At(text, i) != 't'
    ensures !Occurs("null", text, i) && !Occurs("false", text, i) && !Occurs("true", text, i)
  {
    if Occurs("null", text, i) { OccursAt("null", text, i, 0); }
    if Occurs("false", text, i) { OccursAt("false", text, i, 0); }
    if Occurs("true", text, i) { OccursAt("true", text, i, 0); }
  }

  lemma Keywords(text: string, i: nat)
    ensures Occurs("false", text, i) ==> !Occurs("null", text, i)
    ensures Occurs("true", text, i) ==> !Occurs("null", text, i) && !Occurs("false", text, i)
  {
    if Occurs("false", text, i) { OccursAt("false", text, i, 0); }
    if Occurs("true", text, i) { OccursAt("true", text, i, 0); }
    if Occurs("null", text, i) { OccursAt("null", text, i, 0); }
  }
}
