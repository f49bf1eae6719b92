/** The printers of common/molten_cJSON.c that allocate a string per value and concatenate. */
module JsonPrint {

  import opened CText
  import opened Decimal
  import opened JsonString
  import opened JsonTree

  // ----- The texts collected before composing -----

  ghost function Texts(items: Items, depth: nat, fmt: bool): seq<string> {
    if items.NoItem? then [] else [Text(items.value, depth, fmt)] + Texts(items.next, depth, fmt)
  }

  /** What the composing loop has written after k of the entries. */
  ghost function Joined(entries: seq<string>, k: nat, fmt: bool): string
    requires k <= |entries|
  {
    if k == 0 then ""
    else Joined(entries, k - 1, fmt) + entries[k - 1] + (if k < |entries| then Comma(fmt) else "")
  }

  ghost function Lengths(entries: seq<string>, k: nat): nat
    requires k <= |entries|
  {
    if k == 0 then 0 else Lengths(entries, k - 1) + |entries[k - 1]|
  }

  lemma {:induction false} JoinedLength(entries: seq<string>, k: nat, fmt: bool)
    requires k <= |entries|
    ensures |Joined(entries, k, fmt)| == Lengths(entries, k)
              + (if fmt then 2 else 1) * (if 0 < k == |entries| then k - 1 else k)
  {
    if k > 0 { JoinedLength(entries, k - 1, fmt); }
  }

  lemma {:induction false} JoinedGrows(entries: seq<string>, k: nat, n: nat, fmt: bool)
    requires k <= n <= |entries|
    ensures |Joined(entries, k, fmt)| <= |Joined(entries, n, fmt)|
  {
    if k < n { JoinedGrows(entries, k, n - 1, fmt); }
  }

  lemma {:induction false} JoinedCons(first: string, rest: seq<string>, k: nat, fmt: bool)
    requires k <= |rest|
    ensures Joined([first] + rest, k + 1, fmt)
         == first + (if rest == [] then "" else Comma(fmt)) + Joined(rest, k, fmt)
  {
    if k > 0 {
      JoinedCons(first, rest, k - 1, fmt);
      assert ([first] + rest)[k] == rest[k - 1];
    } else {
      assert Joined([first] + rest, 0, fmt) == "";
    }
  }

  lemma {:induction false} JoinedIsText(items: Items, depth: nat, fmt: bool)
    ensures Joined(Texts(items, depth, fmt), |Texts(items, depth, fmt)|, fmt) == ItemsText(items, depth, fmt)
  {
    hide Text;
    if items.Item? {
      var rest := Texts(items.next, depth, fmt);
      JoinedIsText(items.next, depth, fmt);
      JoinedCons(Text(items.value, depth, fmt), rest, |rest|, fmt);
    }
  }

  ghost function Names(members: Members): seq<string> {
    if members.NoMember? then [] else [Quote(members.name)] + Names(members.next)
  }

  ghost function Values(members: Members, depth: nat, fmt: bool): seq<string> {
    if members.NoMember? then [] else [Text(members.value, depth, fmt)] + Values(members.next, depth, fmt)
  }

  ghost function JoinedPairs(names: seq<string>, values: seq<string>, k: nat, depth: nat, fmt: bool): string
    requires k <= |names| == |values|
  {
    if k == 0 then ""
    else JoinedPairs(names, values, k - 1, depth, fmt)
         + Pair(names[k - 1], values[k - 1], k < |names|, depth, fmt)
  }

  ghost function Pair(name: string, value: string, more: bool, depth: nat, fmt: bool): string {
    Indent(depth, fmt) + name + Colon(fmt) + value + Ending(more, fmt)
  }

  /** What the collecting loop of print_object adds for k pairs. */
  ghost function PairLengths(names: seq<string>, values: seq<string>, k: nat, depth: nat, fmt: bool): nat
    requires k <= |names| == |values|
  {
    if k == 0 then 0
    else PairLengths(names, values, k - 1, depth, fmt)
         + |values[k - 1]| + |names[k - 1]| + 2 + (if fmt then 2 + depth else 0)
  }

  lemma PairLength(name: string, value: string, more: bool, depth: nat, fmt: bool)
    ensures |Pair(name, value, more, depth, fmt)|
         == |value| + |name| + (if more then 2 else 1) + (if fmt then 2 + depth else 0)
  {}

  lemma {:induction false} JoinedPairsLength(names: seq<string>, values: seq<string>, k: nat, depth: nat, fmt: bool)
    requires k <= |names| == |values|
    ensures |JoinedPairs(names, values, k, depth, fmt)|
         == PairLengths(names, values, k, depth, fmt) - (if 0 < k == |names| then 1 else 0)
  {
    hide Pair;
    if k > 0 {
      JoinedPairsLength(names, values, k - 1, depth, fmt);
      PairLength(names[k - 1], values[k - 1], k < |names|, depth, fmt);
    }
  }

  lemma {:induction false} JoinedPairsGrows(names: seq<string>, values: seq<string>, k: nat, n: nat,
                                            depth: nat, fmt: bool)
    requires k <= n <= |names| == |values|
    ensures |JoinedPairs(names, values, k, depth, fmt)| <= |JoinedPairs(names, values, n, depth, fmt)|
  {
    hide Pair;
    if k < n { JoinedPairsGrows(names, values, k, n - 1, depth, fmt); }
  }

  lemma {:induction false} JoinedPairsCons(name: string, value: string, names: seq<string>, values: seq<string>,
                                           k: nat, depth: nat, fmt: bool)
    requires k <= |names| == |values|
    ensures JoinedPairs([name] + names, [value] + values, k + 1, depth, fmt)
         == Pair(name, value, names != [], depth, fmt) + JoinedPairs(names, values, k, depth, fmt)
  {
    hide Pair;
    if k > 0 {
      JoinedPairsCons(name, value, names, values, k - 1, depth, fmt);
      assert ([name] + names)[k] == names[k - 1] && ([value] + values)[k] == values[k - 1];
    } else {
      assert JoinedPairs([name] + names, [value] + values, 0, depth, fmt) == "";
    }
  }

  lemma {:induction false} PairCounts(members: Members, depth: nat, fmt: bool)
    ensures |Names(members)| == |Values(members, depth, fmt)|
    ensures members.Member? <==> Names(members) != []
  {
    if members.Member? { PairCounts(members.next, depth, fmt); }
  }

  lemma {:induction false} JoinedPairsIsText(members: Members, depth: nat, fmt: bool)
    requires |Names(members)| == |Values(members, depth, fmt)|
    ensures JoinedPairs(Names(members), Values(members, depth, fmt), |Names(members)|, depth, fmt)
         == MembersText(members, depth, fmt)
  {
    hide Text, Quote, Ending, Indent, Colon;
    if members.Member? {
      PairCounts(members.next, depth, fmt);
      JoinedPairsIsText(members.next, depth, fmt);
      var names, values := Names(members.next), Values(members.next, depth, fmt);
      JoinedPairsCons(Quote(members.name), Text(members.value, depth, fmt), names, values, |names|, depth, fmt);
    }
  }

  // ----- Allocated sizes -----

  ghost function Entries(items: Items): nat {
    if items.NoItem? then 0 else 1 + Entries(items.next)
  }

  /** Bytes allocated beyond the text and its terminator. */
  ghost function Slack(v: Json, depth: nat, fmt: bool): int {
    match v
    case Number(n) => if n == 0 then 0 else 20 - |OfInt(n)|
    case Array(Item(_, next)) => Entries(next) + 1 + 3 + (if fmt then 1 else 0)
    case Object(NoMember) => if fmt && depth > 0 then 1 else 0
    case Object(_) => 5
    case _ => 0
  }

  /** The unused bytes: none for words, strings, zero and an empty array; the 21 bytes of other numbers less their text;
      3 and one for each entry of an array, one more when formatted; 5 for an object; 1 for an empty one when formatted
      below the top. */
  lemma SlackIs(v: Json, n: int, items: Items, members: Members, depth: nat, fmt: bool)
    ensures v.Null? || v.False? || v.True? || v.String? ==> Slack(v, depth, fmt) == 0
    ensures Slack(Number(n), depth, fmt) == if n == 0 then 0 else 21 - 1 - |OfInt(n)|
    ensures Slack(Array(items), depth, fmt)
         == if items.NoItem? then 0 else 3 + |Texts(items, depth, fmt)| + (if fmt then 1 else 0)
    ensures members.Member? ==> Slack(Object(members), depth, fmt) == 5
    ensures Slack(Object(NoMember), depth, fmt) == if fmt && depth > 0 then 1 else 0
  {
    EntriesCount(items, depth, fmt);
  }

  lemma IntFits(n: int)
    requires IsInt(n)
    ensures |OfInt(n)| <= 11
  {
    var m := if n < 0 then -n else n;
    OfNatLength(m, 10);
    assert Power10(10) == 10_000_000_000 by {
      assert Power10(5) == 100_000;
      assert Power10(8) == 100_000_000;
    }
  }

  /** A fresh C string holding text, with exactly slack unused bytes. */
  ghost predicate Allocated(out: array<char>, text: string, slack: int)
    reads out
  {
    out.Length == |text| + 1 + slack && slack >= 0 && Holds(out[..], 0, text)
  }

  lemma MakeAllocated(out: array<char>, text: string, slack: int)
    requires out.Length == |text| + 1 + slack && slack >= 0
    requires out[..|text|] == text && out[|text|] == NUL
    ensures Allocated(out, text, slack)
  {}

  // ----- The methods -----

  method Strdup(text: string) returns (out: array<char>)
    ensures fresh(out) && Allocated(out, text, 0)
  {
    out := new char[|text| + 1];
    var p := CopyText(text, out, 0);
    out[p] := NUL;
    MakeAllocated(out, text, 0);
  }

  method PrintNumber(n: int) returns (out: array<char>)
    requires IsInt(n)
    ensures fresh(out) && Allocated(out, OfInt(n), Slack(Number(n), 0, false))
  {
    IntFits(n);
    out := new char[if n == 0 then 2 else 21];
    var p := CopyText(OfInt(n), out, 0);
    out[p] := NUL;
    MakeAllocated(out, OfInt(n), Slack(Number(n), 0, false));
  }

  method PrintStringPtr(s: string) returns (out: array<char>)
    requires NulFree(s)
    ensures fresh(out) && Allocated(out, Quote(s), 0)
  {
    hide Escape, Quote;
    var flag, len := StringSize(s);
    out := new char[len + 3];
    WriteString(s, flag, len, out, 0);
    assert out[..len + 2] == out[..len + 3][..len + 2] == Quote(s);
    MakeAllocated(out, Quote(s), 0);
  }

  method PrintValue(v: Json, depth: nat, fmt: bool) returns (out: array<char>)
    requires Valid(v)
    ensures fresh(out) && Allocated(out, Text(v, depth, fmt), Slack(v, depth, fmt))
    decreases Size(v), 0
  {
    hide Allocated, ItemsText, MembersText, Quote, OfInt, ValidItems, ValidMembers;
    match v
    case Null => out := Strdup("null");
    case False => out := Strdup("false");
    case True => out := Strdup("true");
    case Number(n) => out := PrintNumber(n);
    case String(s) => out := PrintStringPtr(s);
    case Array(items) => out := PrintArray(items, depth, fmt);
    case Object(members) => out := PrintObject(members, depth, fmt);
  }

  /** print_value followed by strlen: the entry as a string. */
  method PrintEntry(v: Json, depth: nat, fmt: bool) returns (entry: string)
    requires Valid(v)
    ensures entry == Text(v, depth, fmt)
    decreases Size(v), 1
  {
    hide Text, Slack, Valid, Size;
    var ret := PrintValue(v, depth, fmt);
    TextNulFree(v, depth, fmt);
    var n := StrLen(ret, 0, Text(v, depth, fmt));
    entry := ret[..n];
  }

  method PrintName(name: string) returns (entry: string)
    requires NulFree(name)
    ensures entry == Quote(name)
  {
    hide Quote;
    var ret := PrintStringPtr(name);
    QuoteNulFree(name);
    var n := StrLen(ret, 0, Quote(name));
    entry := ret[..n];
  }

  method PrintArray(items: Items, depth: nat, fmt: bool) returns (out: array<char>)
    requires ValidItems(items)
    ensures fresh(out) && Allocated(out, Text(Array(items), depth, fmt), Slack(Array(items), depth, fmt))
    decreases ItemsSize(items), 2
  {
    hide Allocated, ItemsText, Joined, Slack;
    if items.NoItem? {
      EmptyArray(depth, fmt);
      out := Strdup("[]");
      return;
    }
    var entries, len := CollectItems(items, depth + 1, fmt);
    JoinedIsText(items, depth + 1, fmt);
    var n := |entries|;
    JoinedLength(entries, n, fmt);
    ArraySlack(items, depth, fmt);
    EntriesCount(items, depth + 1, fmt);
    out := new char[len];
    out[0] := '[';
    assert out[..1] == "[";
    var p := ComposeItems(entries, fmt, out);
    out[p] := ']';
    out[p + 1] := NUL;
    assert out[..p + 1] == "[" + Joined(entries, n, fmt) + "]";
    MakeAllocated(out, Text(Array(items), depth, fmt), Slack(Array(items), depth, fmt));
  }

  lemma EmptyArray(depth: nat, fmt: bool)
    ensures Text(Array(NoItem), depth, fmt) == "[]" && Slack(Array(NoItem), depth, fmt) == 0
  {}

  lemma ArraySlack(items: Items, depth: nat, fmt: bool)
    requires items.Item?
    ensures Slack(Array(items), depth, fmt) == Entries(items) + 3 + (if fmt then 1 else 0)
  {}

  lemma {:induction false} EntriesCount(items: Items, depth: nat, fmt: bool)
    ensures |Texts(items, depth, fmt)| == Entries(items)
  {
    hide Text;
    if items.Item? { EntriesCount(items.next, depth, fmt); }
  }

  method CollectItems(items: Items, depth: nat, fmt: bool) returns (entries: seq<string>, len: nat)
    requires ValidItems(items)
    ensures entries == Texts(items, depth, fmt)
    ensures len == 5 + Lengths(entries, |entries|) + (if fmt then 3 else 2) * |entries|
    decreases ItemsSize(items), 1
  {
    hide Text, Valid, ValidItems, Texts, ItemsSize, Lengths;
    entries, len := [], 5;
    var child := items;
    NoEntries(depth, fmt);
    while child.Item?
      invariant ValidItems(child) && ItemsSize(child) <= ItemsSize(items)
      invariant entries + Texts(child, depth, fmt) == Texts(items, depth, fmt)
      invariant len == 5 + Lengths(entries, |entries|) + (if fmt then 3 else 2) * |entries|
      decreases child
    {
      ItemStep(child, entries, depth, fmt);
      var ret := PrintEntry(child.value, depth, fmt);
      LengthsSnoc(entries, ret);
      entries := entries + [ret];
      len := len + |ret| + 2 + (if fmt then 1 else 0);
      child := child.next;
    }
  }

  lemma NoEntries(depth: nat, fmt: bool)
    ensures Texts(NoItem, depth, fmt) == [] && Lengths([], 0) == 0
  {}

  lemma ItemStep(child: Items, entries: seq<string>, depth: nat, fmt: bool)
    requires child.Item? && ValidItems(child)
    ensures Valid(child.value) && ValidItems(child.next)
    ensures Size(child.value) < ItemsSize(child) && ItemsSize(child.next) < ItemsSize(child)
    ensures entries + Texts(child, depth, fmt)
         == entries + [Text(child.value, depth, fmt)] + Texts(child.next, depth, fmt)
  {
    hide Text, Valid, Size;
  }

  lemma LengthsSnoc(entries: seq<string>, ret: string)
    ensures Lengths(entries + [ret], |entries| + 1) == Lengths(entries, |entries|) + |ret|
  {
    LengthsPrefix(entries, ret, |entries|);
  }

  lemma {:induction false} LengthsPrefix(entries: seq<string>, ret: string, k: nat)
    requires k <= |entries|
    ensures Lengths(entries + [ret], k) == Lengths(entries, k)
  {
    if k > 0 { LengthsPrefix(entries, ret, k - 1); }
  }

  method ComposeItems(entries: seq<string>, fmt: bool, out: array<char>) returns (p: nat)
    requires 1 + |Joined(entries, |entries|, fmt)| <= out.Length
    modifies out
    ensures p == 1 + |Joined(entries, |entries|, fmt)|
    ensures out[..p] == old(out[..1]) + Joined(entries, |entries|, fmt)
  {
    hide Joined, Comma;
    p := 1;
    ghost var open, n := out[..1], |entries|;
    NothingJoined(entries, fmt);
    for i := 0 to |entries|
      invariant p == 1 + |Joined(entries, i, fmt)| <= out.Length
      invariant out[..p] == open + Joined(entries, i, fmt)
    {
      JoinedGrows(entries, i + 1, n, fmt);
      JoinedStep(entries, i, open, fmt);
      p := Append(entries[i], out, p, open + Joined(entries, i, fmt));
      if i != |entries| - 1 {
        p := Append(Comma(fmt), out, p, open + Joined(entries, i, fmt) + entries[i]);
      }
    }
  }

  lemma NothingJoined(entries: seq<string>, fmt: bool)
    ensures Joined(entries, 0, fmt) == ""
  {}

  lemma JoinedStep(entries: seq<string>, i: nat, before: string, fmt: bool)
    requires i < |entries|
    ensures before + Joined(entries, i + 1, fmt)
         == if i + 1 < |entries| then before + Joined(entries, i, fmt) + entries[i] + Comma(fmt)
            else before + Joined(entries, i, fmt) + entries[i]
    ensures |Joined(entries, i + 1, fmt)|
         == |Joined(entries, i, fmt)| + |entries[i]| + if i + 1 < |entries| then |Comma(fmt)| else 0
  {
    hide Comma;
  }

  method PrintObject(members: Members, depth: nat, fmt: bool) returns (out: array<char>)
    requires ValidMembers(members)
    ensures fresh(out) && Allocated(out, Text(Object(members), depth, fmt), Slack(Object(members), depth, fmt))
    decreases MembersSize(members), 2
  {
    hide Allocated, MembersText, JoinedPairs, PairLengths, Slack, Text, Open, Indent;
    if members.NoMember? {
      out := PrintEmptyObject(depth, fmt);
      return;
    }
    var names, values, len := CollectMembers(members, depth + 1, fmt);
    ghost var n := |names|;
    PairCounts(members, depth + 1, fmt);
    JoinedPairsIsText(members, depth + 1, fmt);
    JoinedPairsLength(names, values, n, depth + 1, fmt);
    ObjectParts(members, depth, fmt);
    out := new char[len];
    ghost var body := JoinedPairs(names, values, n, depth + 1, fmt);
    assert out[..0] == "" && "" + Open(fmt) == Open(fmt);
    var p := Append(Open(fmt), out, 0, "");
    p := ComposeMembers(names, values, depth + 1, fmt, out, p, Open(fmt));
    p := Append(Indent(depth, fmt), out, p, Open(fmt) + body);
    p := Append("}", out, p, Open(fmt) + body + Indent(depth, fmt));
    out[p] := NUL;
    MakeAllocated(out, Text(Object(members), depth, fmt), Slack(Object(members), depth, fmt));
  }

  lemma ObjectParts(members: Members, depth: nat, fmt: bool)
    requires members.Member?
    ensures Text(Object(members), depth, fmt)
         == Open(fmt) + MembersText(members, depth + 1, fmt) + Indent(depth, fmt) + "}"
    ensures Slack(Object(members), depth, fmt) == 5
    ensures |Indent(depth, fmt)| == (if fmt then depth else 0) && |Open(fmt)| == if fmt then 2 else 1
  {}

  method PrintEmptyObject(depth: nat, fmt: bool) returns (out: array<char>)
    ensures fresh(out) && Allocated(out, Text(Object(NoMember), depth, fmt), Slack(Object(NoMember), depth, fmt))
  {
    out := new char[if fmt then depth + 4 else 3];
    var p := CopyText("{", out, 0);
    if fmt {
      p := CopyText("\n", out, p);
      p := CopyText(Tabs(depth - 1), out, p);
    }
    out[p] := '}';
    out[p + 1] := NUL;
    assert out[..p + 1] == Text(Object(NoMember), depth, fmt);
    MakeAllocated(out, Text(Object(NoMember), depth, fmt), Slack(Object(NoMember), depth, fmt));
  }

  method CollectMembers(members: Members, depth: nat, fmt: bool)
    returns (names: seq<string>, values: seq<string>, len: nat)
    requires ValidMembers(members)
    ensures names == Names(members) && values == Values(members, depth, fmt) && |names| == |values|
    ensures len == 7 + (if fmt then depth else 0) + PairLengths(names, values, |names|, depth, fmt)
    decreases MembersSize(members), 1
  {
    hide Text, Valid, Quote, ValidMembers, Names, Values, MembersSize, PairLengths;
    names, values, len := [], [], 7;
    if fmt { len := len + depth; }
    var child := members;
    NoPairs(depth, fmt);
    while child.Member?
      invariant ValidMembers(child) && MembersSize(child) <= MembersSize(members)
      invariant |names| == |values|
      invariant names + Names(child) == Names(members)
      invariant values + Values(child, depth, fmt) == Values(members, depth, fmt)
      invariant len == 7 + (if fmt then depth else 0) + PairLengths(names, values, |names|, depth, fmt)
      decreases child
    {
      MemberStep(child, names, values, depth, fmt);
      var str := PrintName(child.name);
      var ret := PrintEntry(child.value, depth, fmt);
      PairLengthsSnoc(names, values, str, ret, depth, fmt);
      names, values := names + [str], values + [ret];
      len := len + |ret| + |str| + 2 + (if fmt then 2 + depth else 0);
      child := child.next;
    }
  }

  lemma NoPairs(depth: nat, fmt: bool)
    ensures Names(NoMember) == [] && Values(NoMember, depth, fmt) == [] && PairLengths([], [], 0, depth, fmt) == 0
  {}

  lemma MemberStep(child: Members, names: seq<string>, values: seq<string>, depth: nat, fmt: bool)
    requires child.Member? && ValidMembers(child)
    ensures NulFree(child.name) && Valid(child.value) && ValidMembers(child.next)
    ensures Size(child.value) < MembersSize(child) && MembersSize(child.next) < MembersSize(child)
    ensures names + Names(child) == names + [Quote(child.name)] + Names(child.next)
    ensures values + Values(child, depth, fmt)
         == values + [Text(child.value, depth, fmt)] + Values(child.next, depth, fmt)
  {
    hide Text, Valid, Size, Quote, NulFree;
  }

  lemma PairLengthsSnoc(names: seq<string>, values: seq<string>, str: string, ret: string, depth: nat, fmt: bool)
    requires |names| == |values|
    ensures PairLengths(names + [str], values + [ret], |names| + 1, depth, fmt)
         == PairLengths(names, values, |names|, depth, fmt) + |ret| + |str| + 2 + (if fmt then 2 + depth else 0)
  {
    PairLengthsPrefix(names, values, str, ret, |names|, depth, fmt);
  }

  lemma {:induction false} PairLengthsPrefix(names: seq<string>, values: seq<string>, str: string, ret: string,
                                             k: nat, depth: nat, fmt: bool)
    requires k <= |names| == |values|
    ensures PairLengths(names + [str], values + [ret], k, depth, fmt) == PairLengths(names, values, k, depth, fmt)
  {
    if k > 0 { PairLengthsPrefix(names, values, str, ret, k - 1, depth, fmt); }
  }

  method ComposeMembers(names: seq<string>, values: seq<string>, depth: nat, fmt: bool,
                        out: array<char>, at: nat, ghost before: string)
    returns (p: nat)
    requires |names| == |values|
    requires at + |JoinedPairs(names, values, |names|, depth, fmt)| <= out.Length && out[..at] == before
    modifies out
    ensures p == at + |JoinedPairs(names, values, |names|, depth, fmt)|
    ensures out[..p] == before + JoinedPairs(names, values, |names|, depth, fmt)
  {
    hide Pair, JoinedPairs;
    p := at;
    NothingPaired(names, values, depth, fmt);
    for i := 0 to |names|
      invariant p == at + |JoinedPairs(names, values, i, depth, fmt)| <= out.Length
      invariant out[..p] == before + JoinedPairs(names, values, i, depth, fmt)
    {
      JoinedPairsGrows(names, values, i + 1, |names|, depth, fmt);
      PairsStep(names, values, i, before, depth, fmt);
      p := ComposePair(names[i], values[i], i != |names| - 1, depth, fmt, out, p,
                       before + JoinedPairs(names, values, i, depth, fmt));
    }
  }

  lemma NothingPaired(names: seq<string>, values: seq<string>, depth: nat, fmt: bool)
    requires |names| == |values|
    ensures JoinedPairs(names, values, 0, depth, fmt) == ""
  {}

  lemma PairsStep(names: seq<string>, values: seq<string>, i: nat, before: string, depth: nat, fmt: bool)
    requires i < |names| == |values|
    ensures before + JoinedPairs(names, values, i + 1, depth, fmt)
         == before + JoinedPairs(names, values, i, depth, fmt)
            + Pair(names[i], values[i], i + 1 < |names|, depth, fmt)
    ensures |JoinedPairs(names, values, i + 1, depth, fmt)|
         == |JoinedPairs(names, values, i, depth, fmt)| + |Pair(names[i], values[i], i + 1 < |names|, depth, fmt)|
  {
    hide Pair;
  }

  /** Indentation, name, colon, value and ending, appended one after the other. */
  method ComposePair(name: string, value: string, more: bool, depth: nat, fmt: bool,
                     out: array<char>, at: nat, ghost before: string)
    returns (p: nat)
    requires at + |Pair(name, value, more, depth, fmt)| <= out.Length && out[..at] == before
    modifies out
    ensures p == at + |Pair(name, value, more, depth, fmt)|
    ensures out[..p] == before + Pair(name, value, more, depth, fmt)
  {
    hide Indent, Colon, Ending;
    ghost var i, c, e := Indent(depth, fmt), Colon(fmt), Ending(more, fmt);
    Assoc(before, i, name);
    Assoc(before, i + name, c);
    Assoc(before, i + name + c, value);
    Assoc(before, i + name + c + value, e);
    p := Append(Indent(depth, fmt), out, at, before);
    p := Append(name, out, p, before + i);
    p := Append(Colon(fmt), out, p, before + (i + name));
    p := Append(value, out, p, before + (i + name + c));
    p := Append(Ending(more, fmt), out, p, before + (i + name + c + value));
  }

  /** cJSON_Print and cJSON_PrintUnformatted. */
  method Print(v: Json, fmt: bool) returns (out: array<char>)
    requires Valid(v)
    ensures fresh(out) && Holds(out[..], 0, Text(v, 0, fmt))
  {
    out := PrintValue(v, 0, fmt);
  }
}
