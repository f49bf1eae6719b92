/** parse_string and print_string_ptr of common/molten_cJSON.c. */
module JsonString {

  import opened Bits
  import opened CText
  import opened JsonTree
  import opened Utf8

  /** Where a parse stopped. Undefined marks input on which the C code's result is not modelled. */
  datatype Parse<+T> = Parsed(value: T, end: nat) | Rejected(at: nat) | Undefined

  // ----- What parse_string computes -----

  /** The bytes one escape sequence becomes and the position after it. */
  datatype Chunk = Chunk(bytes: string, next: nat)

  function ReadUnicode(text: string, i: nat): Chunk {
    var uc := Hex4(text, i + 2);
    if IsLow(uc) || uc == 0 then Chunk("", i + 6)
    else if !IsHigh(uc) then Chunk(Encode(uc), i + 6)
    else if At(text, i + 6) != '\\' || At(text, i + 7) != 'u' then Chunk("", i + 6)
    else
      var uc2 := Hex4(text, i + 8);
      if IsLow(uc2) then Chunk(Encode(Pair(uc, uc2)), i + 12) else Chunk("", i + 12)
  }

  function Simple(c: char): char {
    if c == 'b' then BACKSPACE
    else if c == 'f' then FORM_FEED
    else if c == 'n' then '\n'
    else if c == 'r' then '\r'
    else if c == 't' then '\t'
    else c
  }

  function ReadEscape(text: string, i: nat): (r: Chunk)
    ensures r.next > i
  {
    if At(text, i + 1) == 'u' then ReadUnicode(text, i) else Chunk([Simple(At(text, i + 1))], i + 2)
  }

  predicate Special(c: char) {
    c == NUL || c == '\"' || c == '\\'
  }

  /** Every backslash has a character after it, and every \u four that end no literal. Then the
      counting pass and the copying pass of the C code see the same literal. */
  predicate InStep(text: string, i: nat)
    decreases |text| - i
  {
    var c := At(text, i);
    if c == NUL || c == '\"' then true
    else if c != '\\' then InStep(text, i + 1)
    else if At(text, i + 1) == NUL then false
    else if At(text, i + 1) != 'u' then InStep(text, i + 2)
    else
      && !Special(At(text, i + 2)) && !Special(At(text, i + 3))
      && !Special(At(text, i + 4)) && !Special(At(text, i + 5))
      && InStep(text, i + 6)
  }

  /** The copying pass from position i: what was copied so far is acc. */
  function Unescape(text: string, i: nat, acc: string): (r: (string, nat))
    ensures i <= r.1
    decreases |text| - i
  {
    var c := At(text, i);
    if c == NUL || c == '\"' then (acc, i)
    else if c != '\\' then Unescape(text, i + 1, acc + [c])
    else
      var chunk := ReadEscape(text, i);
      Unescape(text, chunk.next, acc + chunk.bytes)
  }

  function ParsedString(text: string, i: nat): (r: Parse<string>)
    ensures r.Parsed? ==> i < r.end
  {
    if At(text, i) != '\"' then Rejected(i)
    else if !InStep(text, i + 1) then Undefined
    else
      var (s, j) := Unescape(text, i + 1, "");
      Parsed(s, if At(text, j) == '\"' then j + 1 else j)
  }

  // ----- The buffer size counted by the first pass -----

  function Count(text: string, i: nat): nat
    decreases |text| - i
  {
    var c := At(text, i);
    if c == NUL || c == '\"' then 0
    else 1 + Count(text, if c == '\\' then i + 2 else i + 1)
  }

  lemma CountPlain4(text: string, i: nat)
    requires !Special(At(text, i)) && !Special(At(text, i + 1))
    requires !Special(At(text, i + 2)) && !Special(At(text, i + 3))
    ensures Count(text, i) == 4 + Count(text, i + 4)
  {
    assert Count(text, i + 3) == 1 + Count(text, i + 4);
    assert Count(text, i + 2) == 1 + Count(text, i + 3);
    assert Count(text, i + 1) == 1 + Count(text, i + 2);
  }

  lemma CountUnicode(text: string, i: nat)
    requires At(text, i) == '\\' && At(text, i + 1) == 'u' && InStep(text, i)
    ensures Count(text, i) == 5 + Count(text, i + 6) && InStep(text, i + 6) && i + 6 <= |text|
  {
    CountPlain4(text, i + 2);
  }

  /** One escape never yields more bytes than the first pass counted for it. */
  lemma EscapeFits(text: string, i: nat)
    requires At(text, i) == '\\' && InStep(text, i)
    ensures var chunk := ReadEscape(text, i);
            chunk.next <= |text| && InStep(text, chunk.next)
            && |chunk.bytes| + Count(text, chunk.next) <= Count(text, i)
  {
    hide Encode, Hex4, Pair, IsHigh, IsLow;
    if At(text, i + 1) == 'u' {
      CountUnicode(text, i);
      if At(text, i + 6) == '\\' && At(text, i + 7) == 'u' { CountUnicode(text, i + 6); }
    }
  }

  method ParseString(text: string, i: nat) returns (r: Parse<string>)
    requires !ParsedString(text, i).Undefined?
    ensures r == ParsedString(text, i)
  {
    if At(text, i) != '\"' {
      return Rejected(i);
    }
    var ptr, len := i + 1, 0;
    while At(text, ptr) != '\"' && At(text, ptr) != NUL
      invariant len + Count(text, ptr) == Count(text, i + 1)
      decreases |text| - ptr
    {
      len := len + 1;
      ptr := if At(text, ptr) == '\\' then ptr + 2 else ptr + 1;
    }
    var out := new char[len + 1];
    ptr := i + 1;
    var k := 0;
    assert out[..0] == "";
    while At(text, ptr) != '\"' && At(text, ptr) != NUL
      invariant 0 <= k <= len && InStep(text, ptr)
      invariant k + Count(text, ptr) <= len
      invariant out.Length == len + 1
      invariant Unescape(text, ptr, out[..k]) == Unescape(text, i + 1, "")
      decreases |text| - ptr
    {
      ghost var copied := out[..k];
      if At(text, ptr) != '\\' {
        out[k] := At(text, ptr);
        assert out[..k + 1] == copied + [At(text, ptr)];
        k, ptr := k + 1, ptr + 1;
      } else {
        EscapeFits(text, ptr);
        k, ptr := CopyEscape(text, ptr, out, k);
      }
    }
    out[k] := NUL;
    assert At(text, ptr) == '\"' || At(text, ptr) == NUL;
    r := Parsed(out[..k], if At(text, ptr) == '\"' then ptr + 1 else ptr);
  }

  /** The switch over one escape sequence. */
  method CopyEscape(text: string, ptr: nat, out: array<char>, k: nat) returns (k': nat, next: nat)
    requires k + |ReadEscape(text, ptr).bytes| <= out.Length
    modifies out
    ensures var chunk := ReadEscape(text, ptr);
            next == chunk.next && k' == k + |chunk.bytes| && out[..k'] == old(out[..k]) + chunk.bytes
  {
    hide Encode, Hex4, Pair, IsHigh, IsLow, Simple;
    k', next := k, ptr + 2;
    if At(text, ptr + 1) != 'u' {
      out[k] := Simple(At(text, ptr + 1));
      k' := k + 1;
      return;
    }
    var uc := Hex4(text, ptr + 2);
    next := ptr + 6;
    if IsLow(uc) || uc == 0 {
      return;
    }
    if IsHigh(uc) {
      if At(text, ptr + 6) != '\\' || At(text, ptr + 7) != 'u' {
        return;
      }
      var uc2 := Hex4(text, ptr + 8);
      next := ptr + 12;
      if !IsLow(uc2) {
        return;
      }
      uc := Pair(uc, uc2);
    }
    var length := PutUtf8(out, k, uc);
    k' := k + length;
  }

  // ----- print_string_ptr -----

  predicate NeedsEscape(c: char) {
    0 < c as int < 32 || c == '\"' || c == '\\'
  }

  /** The scan for special characters and the counting pass. */
  method StringSize(str: string) returns (flag: bool, len: nat)
    requires NulFree(str)
    ensures len == |Escape(str, |str|)|
    ensures !flag ==> Escape(str, |str|) == str
  {
    flag := false;
    for i := 0 to |str|
      invariant !flag ==> forall j :: 0 <= j < i ==> IsPlain(str[j])
    {
      if NeedsEscape(str[i]) { flag := true; }
    }
    if !flag {
      EscapePlain(str, |str|);
      assert str[..|str|] == str;
      len := |str|;
      return;
    }
    len := 0;
    for i := 0 to |str|
      invariant len == |Escape(str, i)|
    {
      var token := str[i];
      len := len + 1;
      if token == '\"' || token == '\\' || token == BACKSPACE || token == FORM_FEED
         || token == '\n' || token == '\r' || token == '\t' {
        len := len + 1;
      } else if token as int < 32 {
        len := len + 5;
      }
    }
  }

  /** Writes exactly len + 3 bytes: the quoted text and its terminator. */
  method WriteString(str: string, flag: bool, len: nat, out: array<char>, at: nat)
    requires len == |Escape(str, |str|)| && (!flag ==> Escape(str, |str|) == str)
    requires at + len + 3 <= out.Length
    modifies out
    ensures |Quote(str)| == len + 2
    ensures out[..at + len + 3] == old(out[..at]) + Quote(str) + [NUL]
    ensures forall j :: at + len + 3 <= j < out.Length ==> out[j] == old(out[j])
  {
    hide Escape;
    ghost var before := out[..at];
    out[at] := '\"';
    assert out[..at + 1] == before + ['\"'];
    var p := WriteBody(str, flag, out, at + 1);
    out[p] := '\"';
    out[p + 1] := NUL;
    assert out[..p + 2] == before + Quote(str) + [NUL];
  }

  method WriteBody(str: string, flag: bool, out: array<char>, at: nat) returns (end: nat)
    requires at + |Escape(str, |str|)| <= out.Length
    requires !flag ==> Escape(str, |str|) == str
    modifies out
    ensures end == at + |Escape(str, |str|)|
    ensures out[..end] == old(out[..at]) + Escape(str, |str|)
    ensures forall j :: end <= j < out.Length ==> out[j] == old(out[j])
  {
    hide Escape, EscapeChar;
    EscapeNone(str);
    if !flag {
      end := CopyText(str, out, at);
      return;
    }
    end := at;
    ghost var before, last := out[..at], at + |Escape(str, |str|)|;
    for i := 0 to |str|
      invariant end == at + |Escape(str, i)| <= out.Length
      invariant out[..end] == before + Escape(str, i)
      invariant forall j :: last <= j < out.Length ==> out[j] == old(out[j])
    {
      EscapeGrows(str, i + 1, |str|);
      EscapeNext(str, i);
      end := WriteEscaped(str[i], out, end);
    }
  }

  lemma EscapeNone(s: string)
    ensures Escape(s, 0) == []
  {}

  lemma EscapeNext(s: string, i: nat)
    requires i < |s|
    ensures Escape(s, i + 1) == Escape(s, i) + EscapeChar(s[i])
  {}

  lemma {:induction false} EscapeGrows(s: string, m: nat, n: nat)
    requires m <= n <= |s|
    ensures |Escape(s, m)| <= |Escape(s, n)|
  {
    if m < n { EscapeGrows(s, m, n - 1); }
  }

  method WriteEscaped(c: char, out: array<char>, at: nat) returns (end: nat)
    requires at + |EscapeChar(c)| <= out.Length
    modifies out
    ensures end == at + |EscapeChar(c)|
    ensures out[..end] == old(out[..at]) + EscapeChar(c)
    ensures forall j :: end <= j < out.Length ==> out[j] == old(out[j])
  {
    hide HexDigit, Letter;
    if c as int > 31 && c != '\"' && c != '\\' {
      out[at] := c;
      end := at + 1;
      return;
    }
    out[at] := '\\';
    if Letter(c) != NUL {
      out[at + 1] := Letter(c);
      end := at + 2;
    } else {
      end := CopyText(['u', '0', '0', HexDigit(c as int / 16 % 16), HexDigit(c as int % 16)], out, at + 1);
    }
  }
}
