/** Parsing undoes printing, formatted or not, and what was parsed prints and parses to itself. */
module RoundTrip {

  import opened CText
  import opened Decimal
  import opened Grammar
  import opened JsonParse
  import opened JsonString
  import opened JsonTree
  import opened Lexemes
  import opened Prelude
  import opened Scanning
  import opened StringLaws

  // ----- A printed text is a text of the grammar -----

  const NEWLINE := Space('\n')

  function TabGaps(n: int): seq<Gap> {
    if n <= 0 then [] else Repeat(Space(TAB), n)
  }

  function If(fmt: bool, gs: seq<Gap>): seq<Gap> {
    if fmt then gs else []
  }

  /** The derivation of the text of v. */
  function Layout(v: Json, depth: nat, fmt: bool): Doc {
    match v
    case Number(n) => Num(n < 0, n == 0, if n < 0 then -n else n)
    case String(s) => Str(Pieces(s, |s|))
    case Array(items) => Arr([], LayoutItems(items, [], depth + 1, fmt))
    case Object(NoMember) => Obj(If(fmt, [NEWLINE] + TabGaps(depth - 1)), NoPair)
    case Object(members) => Obj([], LayoutMembers(members, If(fmt, [NEWLINE]), depth + 1, fmt))
    case _ => Word(v)
  }

  function LayoutItems(items: Items, before: seq<Gap>, depth: nat, fmt: bool): Docs {
    match items
    case NoItem => NoDoc
    case Item(v, next) => Doc(before, Layout(v, depth, fmt), [], LayoutItems(next, If(fmt, [Space(' ')]), depth, fmt))
  }

  /** The line end in front of a member, its tabs, and behind the last one those of the closing brace. */
  function LayoutMembers(members: Members, before: seq<Gap>, depth: nat, fmt: bool): Pairs {
    match members
    case NoMember => NoPair
    case Member(name, v, next) =>
      Grammar.Pair(before + If(fmt, TabGaps(depth)), Pieces(name, |name|), [], If(fmt, [Space(TAB)]),
                   Layout(v, depth, fmt), if next.NoMember? then If(fmt, [NEWLINE] + TabGaps(depth - 1)) else [],
                   LayoutMembers(next, If(fmt, [NEWLINE]), depth, fmt))
  }

  // ----- Its gaps -----

  /** Spaces, tabs and line ends, which every filling allows. */
  ghost predicate AllWhite(gs: seq<Gap>) {
    forall k :: 0 <= k < |gs| ==> gs[k] == Space(' ') || gs[k] == Space(TAB) || gs[k] == NEWLINE
  }

  lemma WhiteFills(gs: seq<Gap>, f: Filling)
    requires AllWhite(gs)
    ensures Fills(gs, f)
  {
    forall k | 0 <= k < |gs| ensures ValidGap(gs[k], f) {
      assert gs[k] == Space(' ') || gs[k] == Space(TAB) || gs[k] == NEWLINE;
    }
  }

  lemma TabsWhite(n: int)
    ensures AllWhite(TabGaps(n))
  {
    if n > 0 { RepeatAll(Space(TAB), n); }
  }

  lemma {:induction false} FillTabs(n: nat)
    ensures Fill(Repeat(Space(TAB), n)) == Repeat(TAB, n)
  {
    if n > 0 {
      FillTabs(n - 1);
      FillSnoc(Repeat(Space(TAB), n - 1), Space(TAB));
    }
  }

  lemma {:induction false} FillStart(a: seq<Gap>, b: seq<Gap>, n: nat)
    requires n <= |a|
    ensures GapsText(a + b, n) == GapsText(a, n)
  {
    hide GapText;
    if n > 0 { FillStart(a, b, n - 1); }
  }

  lemma {:induction false} FillRest(a: seq<Gap>, b: seq<Gap>, n: nat)
    requires n <= |b|
    ensures GapsText(a + b, |a| + n) == Fill(a) + GapsText(b, n)
  {
    hide GapText;
    if n == 0 {
      FillStart(a, b, |a|);
      assert Fill(a) + "" == Fill(a);
    } else {
      FillRest(a, b, n - 1);
      Assoc(Fill(a), GapsText(b, n - 1), GapText(b[n - 1]));
    }
  }

  lemma FillJoin(a: seq<Gap>, b: seq<Gap>)
    ensures Fill(a + b) == Fill(a) + Fill(b)
  {
    hide GapsText;
    FillRest(a, b, |b|);
  }

  lemma FillOne(c: char)
    ensures Fill([Space(c)]) == [c]
  {
    FillSnoc([], Space(c));
    NoFill();
    assert [] + [Space(c)] == [Space(c)];
  }

  /** The gaps a printed text uses. */
  lemma LayoutGaps(depth: nat, fmt: bool)
    ensures Fill(If(fmt, TabGaps(depth))) == Indent(depth, fmt)
    ensures Fill(If(fmt, [Space(' ')])) == if fmt then " " else ""
    ensures Fill(If(fmt, [NEWLINE])) == if fmt then "\n" else ""
    ensures Fill(If(fmt, [Space(TAB)])) == if fmt then "\t" else ""
    ensures Fill(If(fmt, [NEWLINE] + TabGaps(depth - 1))) == if fmt then "\n" + Tabs(depth - 1) else ""
    ensures AllWhite(If(fmt, TabGaps(depth))) && AllWhite(If(fmt, [Space(' ')])) && AllWhite(If(fmt, [NEWLINE]))
    ensures AllWhite(If(fmt, [Space(TAB)]))
    ensures AllWhite(If(fmt, [NEWLINE] + TabGaps(depth - 1)))
  {
    hide Fill, Repeat, AllWhite;
    NoFill();
    NoWhite();
    FillOne(' ');
    FillOne(TAB);
    FillOne('\n');
    TabsWhite(depth);
    TabsWhite(depth - 1);
    FillTabs(depth);
    if depth > 0 { FillTabs(depth - 1); }
    FillJoin([NEWLINE], TabGaps(depth - 1));
    OneWhite();
    WhiteJoin([NEWLINE], TabGaps(depth - 1));
  }

  lemma OneWhite()
    ensures AllWhite([NEWLINE]) && AllWhite([Space(TAB)]) && AllWhite([Space(' ')])
  {}

  lemma WhiteJoin(a: seq<Gap>, b: seq<Gap>)
    requires AllWhite(a) && AllWhite(b)
    ensures AllWhite(a + b)
  {}

  // ----- It is valid, filled with white space, and denotes the tree -----

  lemma {:induction false} LayoutDenotes(v: Json, depth: nat, fmt: bool, f: Filling)
    requires JsonTree.Valid(v)
    ensures Grammar.Valid(Layout(v, depth, fmt)) && Filled(Layout(v, depth, fmt), f)
    ensures Denoted(Layout(v, depth, fmt)) == v && Standard(Layout(v, depth, fmt))
    decreases v
  {
    hide AllWhite, Fills, If, TabGaps, Quote, ValidTokens, Fill, ValidNumeral, LitBytes, Literal, Pieces, StandardLit,
         NulFree;
    LayoutGaps(depth, fmt);
    NoWhite();
    WhiteFills([], f);
    match v
    case Number(n) => NumberLaidOut(n);
    case String(s) => QuoteIsLiteral(s);
    case Array(items) => ItemsDenote(items, [], depth + 1, fmt, f);
    case Object(NoMember) => WhiteFills(If(fmt, [NEWLINE] + TabGaps(depth - 1)), f);
    case Object(members) => MembersDenote(members, If(fmt, [NEWLINE]), depth + 1, fmt, f);
    case _ =>
  }

  lemma NumberLaidOut(n: int)
    ensures var m: nat := if n < 0 then -n else n;
            && (IsInt(n) ==> ValidNumeral(n < 0, n == 0, m)) && Signed(n < 0, m) == n
            && NumeralText(n < 0, n == 0, m) == OfInt(n)
  {}

  lemma NoWhite()
    ensures AllWhite([])
  {}

  lemma {:induction false} ItemsDenote(items: Items, before: seq<Gap>, depth: nat, fmt: bool, f: Filling)
    requires ValidItems(items) && AllWhite(before)
    ensures ValidDocs(LayoutItems(items, before, depth, fmt)) && FilledDocs(LayoutItems(items, before, depth, fmt), f)
    ensures DenotedItems(LayoutItems(items, before, depth, fmt)) == items
    ensures StandardDocs(LayoutItems(items, before, depth, fmt))
    decreases items
  {
    hide AllWhite, Fills, If, Layout, Grammar.Valid, JsonTree.Valid, Denoted, Filled, Standard, Fill;
    if items.Item? {
      LayoutGaps(depth, fmt);
      NoWhite();
      WhiteFills([], f);
      WhiteFills(before, f);
      LayoutDenotes(items.value, depth, fmt, f);
      ItemsDenote(items.next, If(fmt, [Space(' ')]), depth, fmt, f);
    }
  }

  lemma {:induction false} MembersDenote(members: Members, before: seq<Gap>, depth: nat, fmt: bool, f: Filling)
    requires ValidMembers(members) && AllWhite(before) && depth > 0
    ensures ValidPairs(LayoutMembers(members, before, depth, fmt))
    ensures FilledPairs(LayoutMembers(members, before, depth, fmt), f)
    ensures DenotedMembers(LayoutMembers(members, before, depth, fmt)) == members
    ensures StandardPairs(LayoutMembers(members, before, depth, fmt))
    decreases members
  {
    hide AllWhite, Fills, If, TabGaps, Layout, Grammar.Valid, JsonTree.Valid, Denoted, Filled, Standard, Quote,
         ValidTokens, NulFree, Fill, Literal, LitBytes, Pieces, StandardLit;
    if members.Member? {
      LayoutGaps(depth, fmt);
      NoWhite();
      WhiteFills([], f);
      WhiteJoin(before, If(fmt, TabGaps(depth)));
      WhiteFills(before + If(fmt, TabGaps(depth)), f);
      WhiteFills(If(fmt, [Space(TAB)]), f);
      WhiteFills(If(fmt, [NEWLINE] + TabGaps(depth - 1)), f);
      QuoteIsLiteral(members.name);
      LayoutDenotes(members.value, depth, fmt, f);
      MembersDenote(members.next, If(fmt, [NEWLINE]), depth, fmt, f);
    }
  }

  // ----- It is the derivation of the printed text -----

  lemma {:induction false} LayoutText(v: Json, depth: nat, fmt: bool)
    requires JsonTree.Valid(v) && Grammar.Valid(Layout(v, depth, fmt))
    ensures Source(Layout(v, depth, fmt)) == Text(v, depth, fmt)
    decreases v
  {
    hide If, TabGaps, Quote, ValidTokens, Fill, Tabs, OfNat, ItemsText, MembersText, DocsSource, PairsSource,
         ValidDocs, ValidPairs, Open, Indent, NumeralText, OfInt, Literal, Pieces, NulFree, ValidItems, ValidMembers;
    match v
    case Number(n) => NumberLaidOut(n);
    case String(s) => QuoteIsLiteral(s);
    case Array(items) => ArrayLaidOut(items, depth, fmt);
    case Object(NoMember) => EmptyLaidOut(depth, fmt);
    case Object(members) => ObjectLaidOut(members, depth, fmt);
    case _ =>
  }

  lemma {:induction false} ArrayLaidOut(items: Items, depth: nat, fmt: bool)
    requires ValidItems(items) && Grammar.Valid(Layout(Array(items), depth, fmt))
    ensures Source(Layout(Array(items), depth, fmt)) == Text(Array(items), depth, fmt)
    decreases items, 1
  {
    hide If, TabGaps, Fill, Tabs, DocsSource, ItemsText, ValidDocs;
    NoFill();
    ItemsLaidOut(items, [], depth + 1, fmt);
    var body := ItemsText(items, depth + 1, fmt);
    assert "" + body == body && "[" + "" + body + "]" == "[" + body + "]";
  }

  lemma EmptyLaidOut(depth: nat, fmt: bool)
    ensures Source(Layout(Object(NoMember), depth, fmt)) == Text(Object(NoMember), depth, fmt)
  {
    hide If, TabGaps, Fill, Tabs;
    LayoutGaps(depth, fmt);
    NoPairsSource();
  }

  lemma {:induction false} ObjectLaidOut(members: Members, depth: nat, fmt: bool)
    requires members.Member? && ValidMembers(members) && Grammar.Valid(Layout(Object(members), depth, fmt))
    ensures Source(Layout(Object(members), depth, fmt)) == Text(Object(members), depth, fmt)
    decreases members, 1
  {
    hide If, TabGaps, Fill, Tabs, PairsSource, MembersText, ValidPairs, ValidMembers, Source, Text, Open, Indent;
    LayoutGaps(depth, fmt);
    MembersLaidOut(members, If(fmt, [NEWLINE]), depth + 1, fmt);
    ObjectSource(LayoutMembers(members, If(fmt, [NEWLINE]), depth + 1, fmt));
    ObjectText(members, depth, fmt);
    Braced(MembersText(members, depth + 1, fmt), Indent(depth, fmt), fmt);
  }

  lemma ObjectSource(pairs: Pairs)
    requires ValidPairs(pairs)
    ensures Source(Obj([], pairs)) == "{" + PairsSource(pairs) + "}"
  {
    hide PairsSource, ValidPairs;
    NoFill();
    assert "{" + "" == "{";
  }

  lemma Braced(body: string, i: string, fmt: bool)
    ensures "{" + ((if fmt then "\n" else "") + body + i) + "}" == Open(fmt) + body + i + "}"
  {}

  lemma ObjectText(members: Members, depth: nat, fmt: bool)
    requires members.Member?
    ensures Text(Object(members), depth, fmt)
         == Open(fmt) + MembersText(members, depth + 1, fmt) + Indent(depth, fmt) + "}"
  {}

  lemma {:induction false} ItemsLaidOut(items: Items, before: seq<Gap>, depth: nat, fmt: bool)
    requires ValidItems(items) && ValidDocs(LayoutItems(items, before, depth, fmt))
    ensures DocsSource(LayoutItems(items, before, depth, fmt))
         == (if items.Item? then Fill(before) else "") + ItemsText(items, depth, fmt)
    decreases items, 0
  {
    hide If, Layout, Grammar.Valid, JsonTree.Valid, Fill, Text, Source;
    if items.Item? {
      LayoutGaps(depth, fmt);
      NoFill();
      LayoutText(items.value, depth, fmt);
      ItemsLaidOut(items.next, If(fmt, [Space(' ')]), depth, fmt);
      var b, t, rest := Fill(before), Text(items.value, depth, fmt), ItemsText(items.next, depth, fmt);
      if items.next.Item? {
        assert b + t + "" + ("," + ((if fmt then " " else "") + rest)) == b + (t + Comma(fmt) + rest);
      } else {
        assert b + t + "" + "" == b + t;
      }
    }
  }

  lemma {:induction false} MembersLaidOut(members: Members, before: seq<Gap>, depth: nat, fmt: bool)
    requires members.Member? && depth > 0 && ValidMembers(members)
    requires ValidPairs(LayoutMembers(members, before, depth, fmt))
    ensures PairsSource(LayoutMembers(members, before, depth, fmt))
         == Fill(before) + MembersText(members, depth, fmt) + Indent(depth - 1, fmt)
    decreases members, 0
  {
    hide If, TabGaps, Layout, Grammar.Valid, JsonTree.Valid, Fill, Text, Source, Quote, ValidTokens, Tabs, Head,
         NulFree, Pieces;
    var m, next, b := members, members.next, Fill(before);
    var t, h := Text(m.value, depth, fmt), Head(m.name, depth, fmt);
    LayoutGaps(depth, fmt);
    LayoutText(m.value, depth, fmt);
    HeadLaidOut(m, before, depth, fmt);
    NoFill();
    MembersTextIs(m, depth, fmt);
    if next.Member? {
      MembersLaidOut(next, If(fmt, [NEWLINE]), depth, fmt);
      MoreLaidOut(b, h, t, MembersText(next, depth, fmt), Indent(depth - 1, fmt), fmt);
    } else {
      LastLaidOut(b, h, t, Indent(depth - 1, fmt), fmt);
      IndentIs(depth - 1, fmt);
    }
  }

  lemma MembersTextIs(m: Members, depth: nat, fmt: bool)
    requires m.Member?
    ensures MembersText(m, depth, fmt)
         == Head(m.name, depth, fmt) + Text(m.value, depth, fmt) + Ending(m.next.Member?, fmt)
            + MembersText(m.next, depth, fmt)
    ensures MembersText(NoMember, depth, fmt) == ""
  {}

  lemma IndentIs(depth: nat, fmt: bool)
    ensures Indent(depth, fmt) == if fmt then Tabs(depth) else ""
  {}

  lemma HeadLaidOut(m: Members, before: seq<Gap>, depth: nat, fmt: bool)
    requires m.Member? && NulFree(m.name) && ValidTokens(Pieces(m.name, |m.name|))
    ensures PairHead(LayoutMembers(m, before, depth, fmt)) == Fill(before) + Head(m.name, depth, fmt)
  {
    hide If, TabGaps, Layout, Fill, Quote, ValidTokens, Indent, Literal, Pieces, NulFree;
    LayoutGaps(depth, fmt);
    QuoteIsLiteral(m.name);
    NoFill();
    FillJoin(before, If(fmt, TabGaps(depth)));
    var b, i, q := Fill(before), Indent(depth, fmt), Quote(m.name);
    assert b + i + q + "" + ":" + (if fmt then "\t" else "") == b + (i + q + Colon(fmt));
  }

  lemma MoreLaidOut(b: string, h: string, t: string, rest: string, i: string, fmt: bool)
    ensures b + h + t + "" + ("," + ((if fmt then "\n" else "") + rest + i))
         == b + (h + t + Ending(true, fmt) + rest) + i
  {}

  lemma LastLaidOut(b: string, h: string, t: string, i: string, fmt: bool)
    requires !fmt ==> i == ""
    ensures b + h + t + (if fmt then "\n" + i else "") + "" == b + (h + t + Ending(false, fmt) + "") + i
  {}

  // ----- Reading printed texts -----

  /** The parser reads a printed value back, wherever it stands and whatever delimiter follows. */
  lemma ValueReads(v: Json, depth: nat, fmt: bool, text: string, i: nat)
    requires JsonTree.Valid(v) && Occurs(Text(v, depth, fmt), text, i)
    requires !Continues(At(text, i + |Text(v, depth, fmt)|))
    ensures ParsedValue(text, i) == Parsed(v, i + |Text(v, depth, fmt)|)
  {
    hide Layout, Grammar.Valid, Filled, Source, Text, Denoted, Occurs, JsonTree.Valid;
    LayoutDenotes(v, depth, fmt, Blanks);
    LayoutText(v, depth, fmt);
    SourceReads(Layout(v, depth, fmt), text, i);
  }

  /** cJSON_Parse of either printed form returns an equal tree and stops exactly at the end of the text. */
  lemma ParsePrint(v: Json, fmt: bool, requireEnd: bool)
    requires JsonTree.Valid(v)
    ensures ParsedText(Text(v, 0, fmt), requireEnd) == Parsed(v, |Text(v, 0, fmt)|)
  {
    hide Layout, Grammar.Valid, Filled, Source, Text, Denoted, ParsedText, JsonTree.Valid, Fill, Fills;
    LayoutDenotes(v, 0, fmt, Blanks);
    LayoutText(v, 0, fmt);
    NoFill();
    TextReads([], Layout(v, 0, fmt), [], requireEnd);
    assert "" + Text(v, 0, fmt) + "" == Text(v, 0, fmt);
  }

  /** So both printed forms determine the tree. */
  lemma PrintInjective(v: Json, w: Json, fmt: bool)
    requires JsonTree.Valid(v) && JsonTree.Valid(w) && Text(v, 0, fmt) == Text(w, 0, fmt)
    ensures v == w
  {
    hide *;
    ParsePrint(v, fmt, false);
    ParsePrint(w, fmt, false);
  }

  // ----- Whatever the parser accepts can be printed and parsed again -----

  lemma {:induction false} ParsedIsValid(text: string, i: nat)
    requires ParsedValue(text, i).Parsed?
    ensures JsonTree.Valid(ParsedValue(text, i).value)
    decreases |text| - i, 1
  {
    hide ParsedString, Skipped, Digits, Occurs, ParsedItems, ParsedMembers;
    if Occurs("null", text, i) || Occurs("false", text, i) || Occurs("true", text, i) {
    } else if At(text, i) == '\"' {
      ParsedStringNulFree(text, i);
    } else if At(text, i) == '[' {
      var j := Skipped(text, i + 1);
      if At(text, j) != ']' { ParsedItemsValid(text, Skipped(text, j)); }
    } else if At(text, i) == '{' {
      var j := Skipped(text, i + 1);
      if At(text, j) != '}' { ParsedMembersValid(text, Skipped(text, j)); }
    }
  }

  lemma {:induction false} ParsedItemsValid(text: string, i: nat)
    requires ParsedItems(text, i).Parsed?
    ensures ValidItems(ParsedItems(text, i).value)
    decreases |text| - i, 2
  {
    hide ParsedValue, Skipped, JsonTree.Valid;
    ParsedIsValid(text, i);
    var k := Skipped(text, ParsedValue(text, i).end);
    if At(text, k) == ',' { ParsedItemsValid(text, Skipped(text, k + 1)); }
  }

  lemma {:induction false} ParsedMembersValid(text: string, i: nat)
    requires ParsedMembers(text, i).Parsed?
    ensures ValidMembers(ParsedMembers(text, i).value)
    decreases |text| - i, 2
  {
    hide ParsedValue, ParsedString, Skipped, JsonTree.Valid;
    ParsedStringNulFree(text, i);
    var start := Skipped(text, Skipped(text, ParsedString(text, i).end) + 1);
    ParsedIsValid(text, start);
    var k := Skipped(text, ParsedValue(text, start).end);
    if At(text, k) == ',' { ParsedMembersValid(text, Skipped(text, k + 1)); }
  }

  /** For any input at all: if it parses, printing the result and parsing that gives the same tree. */
  lemma Reprint(text: string, requireEnd: bool, fmt: bool)
    requires ParsedText(text, requireEnd).Parsed?
    ensures var v := ParsedText(text, requireEnd).value;
            JsonTree.Valid(v) && ParsedText(Text(v, 0, fmt), true) == Parsed(v, |Text(v, 0, fmt)|)
  {
    hide ParsedValue, Text, Skipped, JsonTree.Valid;
    ParsedIsValid(text, Skipped(text, 0));
    ParsePrint(ParsedText(text, requireEnd).value, fmt, true);
  }
}
