/** The recursive-descent parser of common/molten_cJSON.c. */
module JsonParse {

  import opened CText
  import opened Decimal
  import opened JsonString
  import opened JsonTree

  // ----- What the parser computes, position by position -----

  predicate IsBlank(c: char) {
    c != NUL && c as int <= 32
  }

  function Skipped(text: string, i: nat): (j: nat)
    ensures i <= j
    decreases |text| - i
  {
    if IsBlank(At(text, i)) then Skipped(text, i + 1) else i
  }

  /** The value of the digit run at i appended to acc, and its end. */
  function Digits(text: string, i: nat, acc: nat): (r: (nat, nat))
    ensures i <= r.1
    decreases |text| - i
  {
    if IsDigit(At(text, i)) then Digits(text, i + 1, 10 * acc + DigitValue(At(text, i))) else (acc, i)
  }

  /** Fractions, exponents and values outside int leave the modelled range. */
  function NumberEnd(text: string, n: int, e: nat): Parse<Json> {
    if At(text, e) == '.' && IsDigit(At(text, e + 1)) then Undefined
    else if At(text, e) == 'e' || At(text, e) == 'E' then Undefined
    else if !IsInt(n) then Undefined
    else Parsed(Number(n), e)
  }

  function ParsedNumber(text: string, i: nat): (r: Parse<Json>)
    requires At(text, i) == '-' || IsDigit(At(text, i))
    ensures r.Parsed? ==> i < r.end
  {
    var j := if At(text, i) == '-' then i + 1 else i;
    var k := if At(text, j) == '0' then j + 1 else j;
    var run: (nat, nat) := if '1' <= At(text, k) <= '9' then Digits(text, k, 0) else (0, k);
    NumberEnd(text, (if At(text, i) == '-' then -1 else 1) * run.0, run.1)
  }

  function AsValue(r: Parse<string>): Parse<Json> {
    match r
    case Parsed(s, e) => Parsed(String(s), e)
    case Rejected(at) => Rejected(at)
    case Undefined => Undefined
  }

  function AddItem(v: Json, r: Parse<Items>): Parse<Items> {
    match r
    case Parsed(items, e) => Parsed(Item(v, items), e)
    case Rejected(at) => Rejected(at)
    case Undefined => Undefined
  }

  function AddMember(name: string, v: Json, r: Parse<Members>): Parse<Members> {
    match r
    case Parsed(members, e) => Parsed(Member(name, v, members), e)
    case Rejected(at) => Rejected(at)
    case Undefined => Undefined
  }

  function ParsedValue(text: string, i: nat): (r: Parse<Json>)
    ensures r.Parsed? ==> i < r.end
    decreases |text| - i, 1
  {
    if Occurs("null", text, i) then Parsed(Null, i + 4)
    else if Occurs("false", text, i) then Parsed(False, i + 5)
    else if Occurs("true", text, i) then Parsed(True, i + 4)
    else if At(text, i) == '\"' then AsValue(ParsedString(text, i))
    else if At(text, i) == '-' || IsDigit(At(text, i)) then ParsedNumber(text, i)
    else if At(text, i) == '[' then ParsedArray(text, i)
    else if At(text, i) == '{' then ParsedObject(text, i)
    else Rejected(i)
  }

  function ParsedArray(text: string, i: nat): (r: Parse<Json>)
    requires At(text, i) == '['
    ensures r.Parsed? ==> i < r.end
    decreases |text| - i, 0
  {
    var j := Skipped(text, i + 1);
    if At(text, j) == ']' then Parsed(Array(NoItem), j + 1)
    else
      match ParsedItems(text, Skipped(text, j))
      case Parsed(items, e) => Parsed(Array(items), e)
      case Rejected(at) => Rejected(at)
      case Undefined => Undefined
  }

  /** One item at i and everything after it up to the closing bracket. */
  function ParsedItems(text: string, i: nat): (r: Parse<Items>)
    ensures r.Parsed? ==> i < r.end
    decreases |text| - i, 3
  {
    match ParsedValue(text, i)
    case Parsed(v, e) => AddItem(v, MoreItems(text, Skipped(text, e)))
    case Rejected(at) => Rejected(at)
    case Undefined => Undefined
  }

  function MoreItems(text: string, i: nat): (r: Parse<Items>)
    ensures r.Parsed? ==> i < r.end
    decreases |text| - i, 2
  {
    if At(text, i) == ',' then ParsedItems(text, Skipped(text, i + 1))
    else if At(text, i) == ']' then Parsed(NoItem, i + 1)
    else Rejected(i)
  }

  function ParsedObject(text: string, i: nat): (r: Parse<Json>)
    requires At(text, i) == '{'
    ensures r.Parsed? ==> i < r.end
    decreases |text| - i, 0
  {
    var j := Skipped(text, i + 1);
    if At(text, j) == '}' then Parsed(Object(NoMember), j + 1)
    else
      match ParsedMembers(text, Skipped(text, j))
      case Parsed(members, e) => Parsed(Object(members), e)
      case Rejected(at) => Rejected(at)
      case Undefined => Undefined
  }

  /** One member at i and everything after it up to the closing brace. */
  function ParsedMembers(text: string, i: nat): (r: Parse<Members>)
    ensures r.Parsed? ==> i < r.end
    decreases |text| - i, 3
  {
    match ParsedString(text, i)
    case Rejected(at) => Rejected(at)
    case Undefined => Undefined
    case Parsed(name, e) =>
      var k := Skipped(text, e);
      if At(text, k) != ':' then Rejected(k)
      else
        match ParsedValue(text, Skipped(text, k + 1))
        case Parsed(v, e') => AddMember(name, v, MoreMembers(text, Skipped(text, e')))
        case Rejected(at) => Rejected(at)
        case Undefined => Undefined
  }

  function MoreMembers(text: string, i: nat): (r: Parse<Members>)
    ensures r.Parsed? ==> i < r.end
    decreases |text| - i, 2
  {
    if At(text, i) == ',' then ParsedMembers(text, Skipped(text, i + 1))
    else if At(text, i) == '}' then Parsed(NoMember, i + 1)
    else Rejected(i)
  }

  /** cJSON_ParseWithOpts: the whole text, optionally up to its terminator. */
  function ParsedText(text: string, requireEnd: bool): Parse<Json> {
    match ParsedValue(text, Skipped(text, 0))
    case Rejected(at) => Rejected(at)
    case Undefined => Undefined
    case Parsed(v, e) =>
      if !requireEnd then Parsed(v, e)
      else if At(text, Skipped(text, e)) != NUL then Rejected(Skipped(text, e))
      else Parsed(v, Skipped(text, e))
  }

  // ----- The loops -----

  method Skip(text: string, i: nat) returns (j: nat)
    ensures j == Skipped(text, i)
  {
    j := i;
    while At(text, j) != NUL && At(text, j) as int <= 32
      invariant Skipped(text, j) == Skipped(text, i)
      decreases |text| - j
    {
      j := j + 1;
    }
  }

  method ParseNumber(text: string, i: nat) returns (r: Parse<Json>)
    requires At(text, i) == '-' || IsDigit(At(text, i))
    ensures r == ParsedNumber(text, i)
  {
    var n: nat, sign, num := 0, 1, i;
    if At(text, num) == '-' { sign, num := -1, num + 1; }
    if At(text, num) == '0' { num := num + 1; }
    if '1' <= At(text, num) <= '9' {
      ghost var k := num;
      n, num := DigitValue(At(text, num)), num + 1;
      while '0' <= At(text, num) <= '9'
        invariant Digits(text, num, n) == Digits(text, k, 0)
        decreases |text| - num
      {
        n, num := 10 * n + DigitValue(At(text, num)), num + 1;
      }
    }
    r := NumberEnd(text, sign * n, num);
  }
}
