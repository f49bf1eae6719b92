/** The printers of common/molten_cJSON.c that write into one growing buffer. */
module JsonBuffer {

  import opened Bits
  import opened CText
  import opened Decimal
  import opened JsonPrint
  import opened JsonString
  import opened JsonTree
  import opened Prelude

  /** Up to here pow2gt neither overflows int nor misses its power of two. */
  const LIMIT: nat := 0x4000_0000

  /** No request for a single value exceeds its text by more than this. */
  const ROOM: nat := 21

  /** The index print_value returns. For a non-empty formatted object it is the nesting depth: the variable
      that held the start has counted the closing tabs before it is used. */
  function ReturnedStart(v: Json, depth: nat, fmt: bool, start: nat): nat {
    if fmt && v.Object? && v.members.Member? then depth else start
  }

  /** for (i = 0; i < n; i++) writes a tab; the counter is handed back. */
  method WriteTabs(n: nat, out: array<char>, at: nat, ghost before: string) returns (i: nat, ptr: nat)
    requires at + n <= out.Length && out[..at] == before
    modifies out
    ensures i == n && ptr == at + n && out[..ptr] == before + Repeat(TAB, n)
  {
    i, ptr := 0, at;
    while i < n
      invariant i <= n && ptr == at + i && out[..ptr] == before + Repeat(TAB, i)
    {
      out[ptr] := TAB;
      ptr, i := ptr + 1, i + 1;
      assert out[..ptr] == before + (Repeat(TAB, i - 1) + [TAB]);
    }
  }

  class PrintBuffer {
    var buffer: array<char>
    var length: nat
    var offset: nat

    ghost predicate Valid()
      reads this
    {
      length == buffer.Length && 1 <= length <= LIMIT && offset <= length
    }

    /** Everything before offset is the string done. */
    ghost predicate Written(done: string)
      reads this, buffer
    {
      Valid() && offset == |done| && buffer[..offset] == done
    }

    /** The strings done and text stand at the front, terminated; offset is somewhere inside text. */
    ghost predicate Rendered(done: string, text: string)
      reads this, buffer
    {
      && Valid()
      && |done| <= offset <= |done| + |text| < length
      && buffer[..|done| + |text|] == done + text
      && buffer[|done| + |text|] == NUL
    }

    constructor (prebuffer: nat)
      requires 1 <= prebuffer <= LIMIT
      ensures Written("") && fresh(buffer)
    {
      buffer := new char[prebuffer];
      length := prebuffer;
      offset := 0;
    }

    /** Makes room for needed bytes behind offset, keeping what is already written. */
    method Ensure(needed: nat)
      requires Valid() && offset + needed <= LIMIT
      modifies this
      ensures Valid() && offset == old(offset) && offset + needed <= length
      ensures length >= old(length) && buffer[..old(length)] == old(buffer[..])
      ensures buffer == old(buffer) || fresh(buffer)
      ensures old(offset) + needed <= old(length) ==> length == old(length)
      ensures old(offset) + needed > old(length) ==>
                IsPowerOfTwo(length) && forall p: nat :: IsPowerOfTwo(p) && offset + needed <= p ==> length <= p
    {
      hide Pow2Gt, Value, Word;
      var total := needed + offset;
      if total <= length {
        return;
      }
      Pow2GtLeast(total);
      var newsize := Value(Pow2Gt(Word(total)));
      var newbuffer := new char[newsize];
      for i := 0 to length
        invariant unchanged(this) && unchanged(buffer) && fresh(newbuffer)
        invariant length <= newbuffer.Length && newbuffer[..i] == buffer[..i]
      {
        newbuffer[i] := buffer[i];
      }
      length := newsize;
      buffer := newbuffer;
    }

    /** Moves offset over the string that was rendered there. */
    method Update(ghost done: string, ghost text: string)
      requires Rendered(done, text) && NulFree(text)
      modifies this`offset
      ensures Written(done + text) && buffer[offset] == NUL && offset < length
    {
      ghost var rest := text[offset - |done|..];
      assert Holds(buffer[..], offset, rest) by {
        assert buffer[..][offset..offset + |rest|] == (done + text)[offset..];
      }
      var n := StrLen(buffer, offset, rest);
      offset := offset + n;
    }

    /** Requests needed bytes, writes text and, if asked, a terminator, and advances over the text. */
    method Emit(text: string, terminate: bool, needed: nat, ghost done: string)
      requires Written(done) && |done| + needed <= LIMIT
      requires |text| + (if terminate then 1 else 0) <= needed
      modifies this, buffer
      ensures Written(done + text) && (buffer == old(buffer) || fresh(buffer))
    {
      Ensure(needed);
      assert buffer[..offset] == buffer[..old(length)][..offset] == done;
      var p := Append(text, buffer, offset, done);
      if terminate { buffer[p] := NUL; }
      offset := p;
    }

    /** The same without advancing: the caller moves offset later. */
    method EmitLast(text: string, needed: nat, ghost done: string)
      requires Written(done) && |done| + needed <= LIMIT && |text| + 1 <= needed
      modifies this, buffer
      ensures Rendered(done, text) && (buffer == old(buffer) || fresh(buffer))
    {
      Ensure(needed);
      assert buffer[..offset] == buffer[..old(length)][..offset] == done;
      var p := Append(text, buffer, offset, done);
      buffer[p] := NUL;
    }

    method PrintStringPtr(s: string, ghost done: string)
      requires Written(done) && NulFree(s) && |done| + |Quote(s)| + 1 <= LIMIT
      modifies this, buffer
      ensures Rendered(done, Quote(s)) && (buffer == old(buffer) || fresh(buffer))
    {
      hide Escape, Quote;
      var flag, len := StringSize(s);
      QuoteLength(s);
      Ensure(len + 3);
      assert buffer[..offset] == buffer[..old(length)][..offset] == done;
      WriteString(s, flag, len, buffer, offset);
      assert buffer[..offset + len + 3] == done + Quote(s) + [NUL];
      assert buffer[..|done| + |Quote(s)|] == buffer[..offset + len + 3][..|done| + |Quote(s)|];
    }

    method PrintValue(v: Json, depth: nat, fmt: bool, ghost done: string) returns (start: nat)
      requires Written(done) && JsonTree.Valid(v) && |done| + |Text(v, depth, fmt)| + ROOM <= LIMIT
      modifies this, buffer
      ensures Rendered(done, Text(v, depth, fmt)) && (buffer == old(buffer) || fresh(buffer))
      ensures start == ReturnedStart(v, depth, fmt, |done|)
      ensures start == |done| <==> !fmt || !v.Object? || v.members.NoMember? || depth == |done|
      decreases Size(v), 1
    {
      hide Rendered, ItemsText, MembersText, Quote, OfInt;
      start := offset;
      match v
      case Null => EmitLast("null", 5, done);
      case False => EmitLast("false", 6, done);
      case True => EmitLast("true", 5, done);
      case Number(n) =>
        IntFits(n);
        ZeroText();
        EmitLast(OfInt(n), if n == 0 then 2 else 21, done);
      case String(s) => PrintStringPtr(s, done);
      case Array(items) => start := PrintArray(items, depth, fmt, done);
      case Object(members) => start := PrintObject(members, depth, fmt, done);
    }

    method PrintArray(items: Items, depth: nat, fmt: bool, ghost done: string) returns (start: nat)
      requires Written(done) && ValidItems(items) && |done| + |Text(Array(items), depth, fmt)| + ROOM <= LIMIT
      modifies this, buffer
      ensures Rendered(done, Text(Array(items), depth, fmt)) && (buffer == old(buffer) || fresh(buffer))
      ensures start == |done|
      decreases ItemsSize(items), 2
    {
      hide Rendered, Written, ItemsText, Comma, Text;
      ArrayText(items, depth, fmt);
      WrittenOffset(done);
      start := offset;
      if items.NoItem? {
        EmitLast("[]", 3, done);
        return;
      }
      ghost var body := ItemsText(items, depth + 1, fmt);
      Emit("[", false, 1, done);
      PrintItems(items, depth + 1, fmt, done + "[");
      FinishBracket(done, body);
    }

    /** The closing bracket behind everything written so far. */
    method FinishBracket(ghost done: string, ghost body: string)
      requires Written(done + "[" + body) && |done| + |body| + ROOM <= LIMIT
      modifies this, buffer
      ensures Rendered(done, "[" + body + "]") && (buffer == old(buffer) || fresh(buffer))
    {
      EmitLast("]", 2, done + "[" + body);
      Regroup(done, "[" + body, "]");
      Assoc(done, "[", body);
    }

    method PrintItems(items: Items, depth: nat, fmt: bool, ghost done: string)
      requires Written(done) && ValidItems(items) && |done| + |ItemsText(items, depth, fmt)| + ROOM <= LIMIT
      modifies this, buffer
      ensures Written(done + ItemsText(items, depth, fmt)) && (buffer == old(buffer) || fresh(buffer))
      decreases ItemsSize(items), 1
    {
      hide Rendered, Written, ItemsText, Comma, Text, JsonTree.Valid, ValidItems, ItemsSize, Size;
      ghost var whole := ItemsText(items, depth, fmt);
      ghost var now := done;
      var child := items;
      NoItemText(depth, fmt);
      assert done + whole == now + ItemsText(child, depth, fmt);
      while child.Item?
        invariant Written(now) && ValidItems(child) && ItemsSize(child) <= ItemsSize(items)
        invariant now + ItemsText(child, depth, fmt) == done + whole
        invariant buffer == old(buffer) || fresh(buffer)
        decreases child
      {
        ghost var first := Text(child.value, depth, fmt);
        BufferItemStep(child, now, depth, fmt);
        var _ := PrintValue(child.value, depth, fmt, now);
        TextNulFree(child.value, depth, fmt);
        Update(now, first);
        assert now + first + "" == now + first;
        now := now + first;
        if child.next.Item? {
          Emit(Comma(fmt), true, (if fmt then 2 else 1) + 1, now);
          now := now + Comma(fmt);
        }
        child := child.next;
      }
      assert now + "" == now;
    }

    method PrintObject(members: Members, depth: nat, fmt: bool, ghost done: string) returns (start: nat)
      requires Written(done) && ValidMembers(members)
      requires |done| + |Text(Object(members), depth, fmt)| + ROOM <= LIMIT
      modifies this, buffer
      ensures Rendered(done, Text(Object(members), depth, fmt)) && (buffer == old(buffer) || fresh(buffer))
      ensures start == ReturnedStart(Object(members), depth, fmt, |done|)
      decreases MembersSize(members), 2
    {
      hide Rendered, Written, MembersText, Open, Indent, Text;
      WrittenOffset(done);
      var i := offset;
      ghost var text := Text(Object(members), depth, fmt);
      if members.NoMember? {
        EmptyObjectText(depth, fmt);
        EmitLast(if fmt then "{\n" + Tabs(depth - 1) + "}" else "{}", if fmt then depth + 4 else 3, done);
        return i;
      }
      ObjectParts(members, depth, fmt);
      ghost var body := MembersText(members, depth + 1, fmt);
      Emit(Open(fmt), true, (if fmt then 2 else 1) + 1, done);
      PrintMembers(members, depth + 1, fmt, done + Open(fmt));
      i := FinishBrace(depth + 1, fmt, i, done, body);
      start := i;
    }

    /** The closing tabs and brace; held is what the counter i holds before the loop over the tabs. */
    method FinishBrace(depth: nat, fmt: bool, held: nat, ghost done: string, ghost body: string) returns (i: nat)
      requires depth > 0 && Written(done + Open(fmt) + body)
      requires |done| + |Open(fmt)| + |body| + (if fmt then depth + 1 else 2) <= LIMIT
      modifies this, buffer
      ensures Rendered(done, Open(fmt) + body + Indent(depth - 1, fmt) + "}")
      ensures buffer == old(buffer) || fresh(buffer)
      ensures i == if fmt then depth - 1 else held
    {
      hide Open, Indent, Rendered, Repeat;
      ghost var before, tail := done + Open(fmt) + body, Indent(depth - 1, fmt);
      i := held;
      Ensure(if fmt then depth + 1 else 2);
      assert buffer[..offset] == buffer[..old(length)][..offset] == before;
      var ptr := offset;
      IndentTabs(depth - 1, fmt);
      if fmt { i, ptr := WriteTabs(depth - 1, buffer, ptr, before); }
      assert before + "" == before;
      ptr := Append("}", buffer, ptr, before + tail);
      buffer[ptr] := NUL;
      FinishText(done, Open(fmt), body, tail);
      MakeRendered(done, Open(fmt) + body + tail + "}", ptr);
    }

    lemma FinishText(done: string, a: string, body: string, tail: string)
      ensures done + a + body + tail + "}" == done + (a + body + tail + "}")
    {}

    lemma MakeRendered(done: string, text: string, end: nat)
      requires Valid() && |done| <= offset <= end < length && buffer[..end] == done + text && buffer[end] == NUL
      ensures Rendered(done, text)
    {}

    lemma WrittenOffset(done: string)
      requires Written(done)
      ensures offset == |done|
    {}

    /** What was rendered behind done + a was also rendered, together with a, behind done. */
    lemma Regroup(done: string, a: string, b: string)
      requires Rendered(done + a, b)
      ensures Rendered(done, a + b)
    {
      Assoc(done, a, b);
    }

    method PrintMembers(members: Members, depth: nat, fmt: bool, ghost done: string)
      requires Written(done) && ValidMembers(members) && depth > 0
      requires |done| + |MembersText(members, depth, fmt)| + ROOM <= LIMIT
      modifies this, buffer
      ensures Written(done + MembersText(members, depth, fmt)) && (buffer == old(buffer) || fresh(buffer))
      decreases MembersSize(members), 1
    {
      hide Rendered, Written, MembersText, Text, JsonTree.Valid, ValidMembers, MembersSize, Size, Head, Ending;
      ghost var whole := MembersText(members, depth, fmt);
      ghost var now := done;
      var child := members;
      while child.Member?
        invariant Written(now) && ValidMembers(child) && MembersSize(child) <= MembersSize(members)
        invariant now + MembersText(child, depth, fmt) == done + whole
        invariant buffer == old(buffer) || fresh(buffer)
        decreases child
      {
        ghost var head, body := Head(child.name, depth, fmt), Text(child.value, depth, fmt);
        BufferMemberStep(child, now, depth, fmt);
        PrintHead(child.name, depth, fmt, now);
        var _ := PrintValue(child.value, depth, fmt, now + head);
        TextNulFree(child.value, depth, fmt);
        Update(now + head, body);
        EndingLength(child.next.Member?, fmt);
        Emit(Ending(child.next.Member?, fmt), true,
             (if fmt then 1 else 0) + (if child.next.Member? then 1 else 0) + 1, now + head + body);
        now := now + head + body + Ending(child.next.Member?, fmt);
        child := child.next;
      }
      NoMemberText(depth, fmt);
      assert now + "" == now;
    }

    method PrintHead(name: string, depth: nat, fmt: bool, ghost done: string)
      requires Written(done) && NulFree(name) && depth > 0
      requires |done| + |Head(name, depth, fmt)| + ROOM <= LIMIT
      modifies this, buffer
      ensures Written(done + Head(name, depth, fmt)) && (buffer == old(buffer) || fresh(buffer))
    {
      hide Rendered, Written, Quote, Indent, Colon;
      ghost var i, q, c := Indent(depth, fmt), Quote(name), Colon(fmt);
      IndentLength(depth, fmt);
      ColonLength(fmt);
      assert fmt || done + i == done;
      if fmt { Emit(Indent(depth, fmt), false, depth, done); }
      PrintStringPtr(name, done + i);
      QuoteNulFree(name);
      Update(done + i, q);
      Emit(Colon(fmt), false, if fmt then 2 else 1, done + i + q);
      Assoc(done, i, q);
      Assoc(done, i + q, c);
    }
  }

  lemma QuoteLength(s: string)
    ensures |Quote(s)| == |Escape(s, |s|)| + 2
  {}

  lemma ZeroText()
    ensures |OfInt(0)| == 1
  {}

  lemma ArrayText(items: Items, depth: nat, fmt: bool)
    ensures Text(Array(items), depth, fmt) == "[" + ItemsText(items, depth + 1, fmt) + "]"
    ensures items.NoItem? ==> Text(Array(items), depth, fmt) == "[]"
  {}

  lemma NoItemText(depth: nat, fmt: bool)
    ensures ItemsText(NoItem, depth, fmt) == ""
  {}

  lemma NoMemberText(depth: nat, fmt: bool)
    ensures MembersText(NoMember, depth, fmt) == ""
  {}

  lemma BufferItemStep(child: Items, now: string, depth: nat, fmt: bool)
    requires child.Item? && ValidItems(child)
    ensures Valid(child.value) && ValidItems(child.next)
    ensures Size(child.value) < ItemsSize(child) && ItemsSize(child.next) < ItemsSize(child)
    ensures now + ItemsText(child, depth, fmt)
         == if child.next.Item?
            then now + Text(child.value, depth, fmt) + Comma(fmt) + ItemsText(child.next, depth, fmt)
            else now + Text(child.value, depth, fmt)
    ensures |Comma(fmt)| == if fmt then 2 else 1
  {
    hide Text, Valid, Size;
  }

  lemma EmptyObjectText(depth: nat, fmt: bool)
    ensures Text(Object(NoMember), depth, fmt) == if fmt then "{\n" + Tabs(depth - 1) + "}" else "{}"
    ensures |Tabs(depth - 1)| == if depth > 0 then depth - 1 else 0
  {}

  lemma IndentTabs(depth: nat, fmt: bool)
    ensures Indent(depth, fmt) == if fmt then Repeat(TAB, depth) else ""
  {}

  lemma IndentLength(depth: nat, fmt: bool)
    ensures |Indent(depth, fmt)| == if fmt then depth else 0
  {}

  lemma ColonLength(fmt: bool)
    ensures |Colon(fmt)| == if fmt then 2 else 1
  {}

  lemma EndingLength(more: bool, fmt: bool)
    ensures |Ending(more, fmt)| == (if fmt then 1 else 0) + (if more then 1 else 0)
  {}

  lemma BufferMemberStep(child: Members, now: string, depth: nat, fmt: bool)
    requires child.Member? && ValidMembers(child)
    ensures NulFree(child.name) && Valid(child.value) && ValidMembers(child.next)
    ensures Size(child.value) < MembersSize(child) && MembersSize(child.next) < MembersSize(child)
    ensures now + MembersText(child, depth, fmt)
         == now + Head(child.name, depth, fmt) + Text(child.value, depth, fmt)
            + Ending(child.next.Member?, fmt) + MembersText(child.next, depth, fmt)
  {
    hide Text, Valid, Size, NulFree, Head, Ending;
  }

  /** cJSON_PrintBuffered: whatever the first guess at the size, the text the simple printers produce. */
  method PrintBuffered(v: Json, prebuffer: nat, fmt: bool) returns (out: array<char>, start: nat)
    requires Valid(v) && 1 <= prebuffer <= LIMIT && |Text(v, 0, fmt)| + ROOM <= LIMIT
    ensures start == 0 && Holds(out[..], start, Text(v, 0, fmt))
  {
    hide Text;
    var p := new PrintBuffer(prebuffer);
    start := p.PrintValue(v, 0, fmt, "");
    out := p.buffer;
    assert "" + Text(v, 0, fmt) == Text(v, 0, fmt);
  }

  const PREFIX := "{\n\t\"a\":\t"

  /** An object nested in an object: its text starts at 8, and the index returned for it is 1. */
  method MisplacedObject() returns (start: nat)
    ensures start == 1
    ensures var inner := Object(Member("b", Null, NoMember));
            var outer := Object(Member("a", inner, NoMember));
            |PREFIX| == 8 && Occurs(Text(inner, 1, true), Text(outer, 0, true), 8)
  {
    var inner := Object(Member("b", Null, NoMember));
    NestedText(inner);
    NestedSize(inner);
    var p := new PrintBuffer(64);
    p.Emit(PREFIX, false, 8, "");
    assert "" + PREFIX == PREFIX;
    start := p.PrintValue(inner, 1, true, PREFIX);
  }

  lemma OneLetterHead(c: char, depth: nat)
    requires IsPlain(c) && depth > 0
    ensures Head([c], depth, true) == Repeat(TAB, depth) + ['\"', c, '\"'] + ":\t"
  {
    hide Repeat;
    assert Escape([c], 1) == Escape([c], 0) + EscapeChar(c) == [c];
    assert Quote([c]) == ['\"', c, '\"'];
  }

  lemma NestedSize(inner: Json)
    requires inner == Object(Member("b", Null, NoMember))
    ensures JsonTree.Valid(inner) && |Text(inner, 1, true)| == 16
  {
    hide Head;
    OneLetterHead('b', 2);
    var members := Member("b", Null, NoMember);
    assert MembersText(members, 2, true) == Head("b", 2, true) + "null" + "\n" + "";
    assert Text(inner, 1, true) == Open(true) + MembersText(members, 2, true) + Indent(1, true) + "}";
    IndentLength(1, true);
  }

  lemma NestedText(inner: Json)
    ensures Occurs(Text(inner, 1, true), Text(Object(Member("a", inner, NoMember)), 0, true), |PREFIX|)
  {
    hide Occurs, Head, Text;
    var body := Text(inner, 1, true);
    OneLetterHead('a', 1);
    assert Repeat(TAB, 1) == [TAB];
    OuterText(inner);
    assert Text(Object(Member("a", inner, NoMember)), 0, true) == PREFIX + body + "\n}";
    WholeText(PREFIX, body, "\n}");
  }

  lemma OuterText(inner: Json)
    ensures Text(Object(Member("a", inner, NoMember)), 0, true)
         == Open(true) + (Head("a", 1, true) + Text(inner, 1, true) + "\n" + "") + "" + "}"
  {
    hide Head;
    var members := Member("a", inner, NoMember);
    assert MembersText(members, 1, true) == Head("a", 1, true) + Text(inner, 1, true) + "\n" + "";
    assert Text(Object(members), 0, true) == Open(true) + MembersText(members, 1, true) + Indent(0, true) + "}";
  }
}
