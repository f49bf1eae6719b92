/** The JSON tree of common/molten_cJSON.c and the text its printers produce. */
module JsonTree {

  import opened CText
  import opened Decimal
  import opened Prelude

  /** An item; the two chains are the C lists child -> next -> next. */
  datatype Json =
    | Null
    | False
    | True
    | Number(n: int)
    | String(s: string)
    | Array(items: Items)
    | Object(members: Members)

  datatype Items = NoItem | Item(value: Json, next: Items)

  datatype Members = NoMember | Member(name: string, value: Json, next: Members)

  predicate IsInt(n: int) {
    INT_MIN <= n <= INT_MAX
  }

  /** What the C structure can hold exactly: int numbers and NUL-terminated strings. */
  ghost predicate Valid(v: Json) {
    match v
    case Null | False | True => true
    case Number(n) => IsInt(n)
    case String(s) => NulFree(s)
    case Array(items) => ValidItems(items)
    case Object(members) => ValidMembers(members)
  }

  ghost predicate ValidItems(items: Items) {
    items.Item? ==> Valid(items.value) && ValidItems(items.next)
  }

  ghost predicate ValidMembers(members: Members) {
    members.Member? ==> NulFree(members.name) && Valid(members.value) && ValidMembers(members.next)
  }

  // ----- Strings -----

  const BACKSPACE := '\U{8}'
  const FORM_FEED := '\U{C}'

  predicate IsPlain(c: char) {
    c as int > 31 && c != '\"' && c != '\\'
  }

  function HexDigit(d: nat): (c: char)
    requires d < 16
    ensures c != NUL
  {
    if d < 10 then ('0' as int + d) as char else ('a' as int + (d - 10)) as char
  }

  /** The letter after the backslash, or NUL for a control character without a short form. */
  function Letter(c: char): char {
    if c == '\"' || c == '\\' then c
    else if c == BACKSPACE then 'b'
    else if c == FORM_FEED then 'f'
    else if c == '\n' then 'n'
    else if c == '\r' then 'r'
    else if c == '\t' then 't'
    else NUL
  }

  function EscapeChar(c: char): (e: string)
    ensures e != []
  {
    if IsPlain(c) then [c]
    else if Letter(c) != NUL then ['\\', Letter(c)]
    else ['\\', 'u', '0', '0', HexDigit(c as int / 16 % 16), HexDigit(c as int % 16)]
  }

  /** The escaped form of the first n characters. */
  function Escape(s: string, n: nat): string
    requires n <= |s|
  {
    if n == 0 then [] else Escape(s, n - 1) + EscapeChar(s[n - 1])
  }

  function Quote(s: string): string {
    ['\"'] + Escape(s, |s|) + ['\"']
  }

  lemma EscapeCharNulFree(c: char)
    requires c != NUL
    ensures NulFree(EscapeChar(c))
  {
    hide Letter;
  }

  lemma {:induction false} EscapeNulFree(s: string, n: nat)
    requires n <= |s| && NulFree(s)
    ensures NulFree(Escape(s, n))
  {
    if n > 0 {
      EscapeNulFree(s, n - 1);
      EscapeCharNulFree(s[n - 1]);
    }
  }

  /** A string without special characters is copied verbatim. */
  lemma {:induction false} EscapePlain(s: string, n: nat)
    requires n <= |s| && forall i :: 0 <= i < n ==> IsPlain(s[i])
    ensures Escape(s, n) == s[..n]
  {
    if n > 0 {
      EscapePlain(s, n - 1);
      assert s[..n] == s[..n - 1] + [s[n - 1]];
    }
  }

  // ----- Values -----

  const TAB := '\t'

  function Tabs(n: int): string {
    if n <= 0 then [] else Repeat(TAB, n)
  }

  /** The text of v at the given nesting depth, unformatted or formatted. */
  function Text(v: Json, depth: nat, fmt: bool): string {
    match v
    case Null => "null"
    case False => "false"
    case True => "true"
    case Number(n) => OfInt(n)
    case String(s) => Quote(s)
    case Array(items) => "[" + ItemsText(items, depth + 1, fmt) + "]"
    case Object(NoMember) => if fmt then "{\n" + Tabs(depth - 1) + "}" else "{}"
    case Object(members) =>
      Open(fmt) + MembersText(members, depth + 1, fmt) + Indent(depth, fmt) + "}"
  }

  function ItemsText(items: Items, depth: nat, fmt: bool): string {
    match items
    case NoItem => ""
    case Item(value, NoItem) => Text(value, depth, fmt)
    case Item(value, next) => Text(value, depth, fmt) + Comma(fmt) + ItemsText(next, depth, fmt)
  }

  function MembersText(members: Members, depth: nat, fmt: bool): string {
    match members
    case NoMember => ""
    case Member(name, value, next) =>
      Head(name, depth, fmt) + Text(value, depth, fmt) + Ending(next.Member?, fmt) + MembersText(next, depth, fmt)
  }

  /** A member up to its value. */
  function Head(name: string, depth: nat, fmt: bool): string {
    Indent(depth, fmt) + Quote(name) + Colon(fmt)
  }

  function Open(fmt: bool): string { if fmt then "{\n" else "{" }
  function Comma(fmt: bool): string { if fmt then ", " else "," }
  function Colon(fmt: bool): string { if fmt then ":\t" else ":" }
  function Indent(depth: nat, fmt: bool): string { if fmt then Tabs(depth) else "" }
  function Ending(more: bool, fmt: bool): string { (if more then "," else "") + (if fmt then "\n" else "") }

  // ----- Sizes, for termination -----

  ghost function Size(v: Json): nat {
    match v
    case Array(items) => 1 + ItemsSize(items)
    case Object(members) => 1 + MembersSize(members)
    case _ => 0
  }

  ghost function ItemsSize(items: Items): nat {
    if items.NoItem? then 0 else 1 + Size(items.value) + ItemsSize(items.next)
  }

  ghost function MembersSize(members: Members): nat {
    if members.NoMember? then 0 else 1 + Size(members.value) + MembersSize(members.next)
  }

  // ----- Printed text holds no terminator -----

  lemma TabsNulFree(n: int)
    ensures NulFree(Tabs(n))
  {
    forall i | 0 <= i < |Tabs(n)| ensures Tabs(n)[i] != NUL { RepeatAt(TAB, n, i); }
  }

  lemma OfIntNulFree(n: int)
    ensures NulFree(OfInt(n))
  {
    OfNatAllDigits(if n < 0 then -n else n);
  }

  lemma QuoteNulFree(s: string)
    requires NulFree(s)
    ensures NulFree(Quote(s))
  {
    EscapeNulFree(s, |s|);
  }

  lemma ObjectNulFree(body: string, depth: nat, fmt: bool)
    requires NulFree(body)
    ensures NulFree(Open(fmt) + body + Indent(depth, fmt) + "}")
  {
    hide Tabs;
    TabsNulFree(depth);
  }

  lemma {:induction false} TextNulFree(v: Json, depth: nat, fmt: bool)
    requires Valid(v)
    ensures NulFree(Text(v, depth, fmt))
  {
    match v
    case Null | False | True =>
    case Number(n) => OfIntNulFree(n);
    case String(s) => QuoteNulFree(s);
    case Array(items) => ItemsTextNulFree(items, depth + 1, fmt);
    case Object(members) =>
      MembersTextNulFree(members, depth + 1, fmt);
      ObjectNulFree(MembersText(members, depth + 1, fmt), depth, fmt);
      TabsNulFree(depth - 1);
      hide Tabs, MembersText;
  }

  lemma {:induction false} ItemsTextNulFree(items: Items, depth: nat, fmt: bool)
    requires ValidItems(items)
    ensures NulFree(ItemsText(items, depth, fmt))
  {
    if items.Item? {
      TextNulFree(items.value, depth, fmt);
      ItemsTextNulFree(items.next, depth, fmt);
    }
  }

  lemma HeadNulFree(name: string, depth: nat, fmt: bool)
    requires NulFree(name)
    ensures NulFree(Head(name, depth, fmt))
  {
    hide Tabs, Quote;
    TabsNulFree(depth);
    QuoteNulFree(name);
  }

  lemma {:induction false} MembersTextNulFree(members: Members, depth: nat, fmt: bool)
    requires ValidMembers(members)
    ensures NulFree(MembersText(members, depth, fmt))
  {
    if members.Member? {
      HeadNulFree(members.name, depth, fmt);
      hide Head, Text;
      TextNulFree(members.value, depth, fmt);
      MembersTextNulFree(members.next, depth, fmt);
    }
  }
}
