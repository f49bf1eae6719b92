/** C strings as the source reads and writes them: one char per byte, '\0' past the end. */
module CText {

  const NUL := '\0'

  /** What the pointer text + i reads; the terminator follows the last character. */
  function At(text: string, i: nat): char {
    if i < |text| then text[i] else NUL
  }

  ghost predicate NulFree(s: string) {
    forall i :: 0 <= i < |s| ==> s[i] != NUL
  }

  /** The characters of part stand in text from position i on. */
  predicate Occurs(part: string, text: string, i: nat) {
    i + |part| <= |text| && text[i..i + |part|] == part
  }

  lemma OccursAt(part: string, text: string, i: nat, k: nat)
    requires Occurs(part, text, i) && k < |part|
    ensures At(text, i + k) == part[k]
  {
    assert text[i..i + |part|][k] == text[i + k];
  }

  lemma OccursSplit(a: string, b: string, text: string, i: nat)
    requires Occurs(a + b, text, i)
    ensures Occurs(a, text, i) && Occurs(b, text, i + |a|)
  {
    var whole := text[i..i + |a + b|];
    assert a == whole[..|a|] && b == whole[|a|..];
  }

  lemma OccursJoin(a: string, b: string, text: string, i: nat)
    requires Occurs(a, text, i) && Occurs(b, text, i + |a|)
    ensures Occurs(a + b, text, i)
  {
    assert text[i..i + |a + b|] == text[i..i + |a|] + text[i + |a|..i + |a| + |b|];
  }

  lemma WholeText(a: string, b: string, c: string)
    ensures Occurs(a, a + b + c, 0) && Occurs(b, a + b + c, |a|) && Occurs(c, a + b + c, |a| + |b|)
  {}

  lemma NulFreeConcat(a: string, b: string)
    requires NulFree(a) && NulFree(b)
    ensures NulFree(a + b)
  {}

  lemma Assoc(a: string, b: string, c: string)
    ensures a + b + c == a + (b + c)
  {}

  /** A buffer holding text as a C string from position i on. */
  ghost predicate Holds(buffer: seq<char>, i: nat, text: string) {
    Occurs(text, buffer, i) && i + |text| < |buffer| && buffer[i + |text|] == NUL
  }

  lemma HoldsAt(buffer: seq<char>, i: nat, text: string, k: nat)
    requires Holds(buffer, i, text) && k <= |text|
    ensures i + k < |buffer| && buffer[i + k] == if k == |text| then NUL else text[k]
  {
    if k < |text| { OccursAt(text, buffer, i, k); }
  }

  /** strlen(buffer + at) */
  method StrLen(buffer: array<char>, at: nat, ghost text: string) returns (n: nat)
    requires Holds(buffer[..], at, text) && NulFree(text)
    ensures n == |text|
  {
    hide Holds;
    n := 0;
    HoldsAt(buffer[..], at, text, 0);
    while buffer[at + n] != NUL
      invariant n <= |text| && at + n < buffer.Length
      invariant buffer[at + n] == if n == |text| then NUL else text[n]
      decreases |text| - n
    {
      n := n + 1;
      HoldsAt(buffer[..], at, text, n);
    }
  }

  /** strcpy without the terminator. */
  method CopyText(text: string, out: array<char>, at: nat) returns (end: nat)
    requires at + |text| <= out.Length
    modifies out
    ensures end == at + |text|
    ensures out[..end] == old(out[..at]) + text
    ensures forall j :: end <= j < out.Length ==> out[j] == old(out[j])
  {
    end := at;
    ghost var before := out[..at];
    for i := 0 to |text|
      invariant end == at + i
      invariant out[..end] == before + text[..i]
      invariant forall j :: at + |text| <= j < out.Length ==> out[j] == old(out[j])
    {
      out[end] := text[i];
      end := end + 1;
      assert text[..i + 1] == text[..i] + [text[i]];
    }
    assert text[..|text|] == text;
  }

  /** The same, for a caller that knows what stands before at. */
  method Append(text: string, out: array<char>, at: nat, ghost before: string) returns (end: nat)
    requires at + |text| <= out.Length && out[..at] == before
    modifies out
    ensures end == at + |text|
    ensures out[..end] == before + text
    ensures forall j :: end <= j < out.Length ==> out[j] == old(out[j])
  {
    end := CopyText(text, out, at);
  }
}
