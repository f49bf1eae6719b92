/** cJSON_Minify, which strips blanks and comments in place. */
module Minify {

  import opened CText
  import opened Decimal
  import opened JsonParse
  import opened JsonString
  import opened JsonTree
  import opened Prelude

  // ----- What it computes; None marks input on which the C code runs past the terminator -----

  predicate IsSpace(c: char) {
    c == ' ' || c == '\t' || c == '\r' || c == '\n'
  }

  function LineEnd(text: string, i: nat): (j: nat)
    ensures i <= j
    decreases |text| - i
  {
    if At(text, i) == NUL || At(text, i) == '\n' then i else LineEnd(text, i + 1)
  }

  /** A line comment ends before the line end, or with the text. */
  lemma {:induction false} LineEndIs(text: string, i: nat, k: nat)
    ensures At(text, LineEnd(text, i)) == '\n' || At(text, LineEnd(text, i)) == NUL
    ensures i <= k < LineEnd(text, i) ==> At(text, k) != '\n' && At(text, k) != NUL
    decreases |text| - i
  {
    if At(text, i) != NUL && At(text, i) != '\n' { LineEndIs(text, i + 1, k); }
  }

  /** The position of the "*" that closes a comment, or of the terminator. */
  function CommentEnd(text: string, i: nat): (j: nat)
    ensures i <= j
    decreases |text| - i
  {
    if At(text, i) == NUL || (At(text, i) == '*' && At(text, i + 1) == '/') then i else CommentEnd(text, i + 1)
  }

  /** The position after the closing quote of the literal whose inside starts at i. */
  function LiteralEnd(text: string, i: nat): (r: Option<nat>)
    ensures r.Some? ==> i < r.value <= |text|
    decreases |text| - i
  {
    if At(text, i) == NUL then None
    else if At(text, i) == '\"' then Some(i + 1)
    else if At(text, i) != '\\' then LiteralEnd(text, i + 1)
    else if At(text, i + 1) == NUL then None
    else LiteralEnd(text, i + 2)
  }

  /** The output for text from position i on, behind the output acc so far. */
  function Minified(text: string, i: nat, acc: string): Option<string>
    decreases |text| - i
  {
    var c := At(text, i);
    if c == NUL then Some(acc)
    else if IsSpace(c) then Minified(text, i + 1, acc)
    else if c == '/' && At(text, i + 1) == '/' then Minified(text, LineEnd(text, i + 1), acc)
    else if c == '/' && At(text, i + 1) == '*' then
      var j := CommentEnd(text, i);
      if At(text, j) == NUL then None else Minified(text, j + 2, acc)
    else if c == '\"' then
      match LiteralEnd(text, i + 1)
      case None => None
      case Some(j) => Minified(text, j, acc + text[i..j])
    else Minified(text, i + 1, acc + [c])
  }

  // ----- The loop -----

  /** The write position never passes the read position, so every character is read before it is overwritten. */
  method MinifyInPlace(json: array<char>, ghost text: string)
    requires Holds(json[..], 0, text) && NulFree(text)
    requires Minified(text, 0, "").Some?
    modifies json
    ensures Holds(json[..], 0, Minified(text, 0, "").value)
  {
    hide LineEnd, CommentEnd, LiteralEnd, Holds, NulFree;
    var rd, into := 0, 0;
    assert json[..0] == "";
    BufferAt(json, text);
    while json[rd] != NUL
      invariant 0 <= into <= rd <= |text| < json.Length
      invariant forall j :: rd <= j <= |text| ==> json[j] == At(text, j)
      invariant Minified(text, rd, json[..into]) == Minified(text, 0, "")
      decreases |text| - rd
    {
      if json[rd] == ' ' || json[rd] == '\t' || json[rd] == '\r' || json[rd] == '\n' {
        rd := rd + 1;
      } else if json[rd] == '/' && json[rd + 1] == '/' {
        rd := SkipLine(json, text, rd);
      } else if json[rd] == '/' && json[rd + 1] == '*' {
        rd := SkipComment(json, text, rd);
      } else if json[rd] == '\"' {
        rd, into := CopyLiteral(json, text, rd, into);
      } else {
        ghost var done := json[..into];
        json[into] := json[rd];
        rd, into := rd + 1, into + 1;
        assert json[..into] == done + [At(text, rd - 1)];
      }
    }
    ghost var result := json[..into];
    assert Minified(text, 0, "") == Some(result);
    json[into] := NUL;
    HoldsResult(json, result);
  }

  lemma BufferAt(json: array<char>, text: string)
    requires Holds(json[..], 0, text) && NulFree(text)
    ensures |text| < json.Length && forall j :: 0 <= j <= |text| ==> json[j] == At(text, j)
    ensures forall j :: 0 <= j < |text| ==> At(text, j) != NUL
  {
    forall j | 0 <= j < |text| ensures json[j] == At(text, j) { OccursAt(text, json[..], 0, j); }
  }

  lemma HoldsResult(json: array<char>, text: string)
    requires |text| < json.Length && json[..|text|] == text && json[|text|] == NUL
    ensures Holds(json[..], 0, text)
  {}

  method SkipLine(json: array<char>, ghost text: string, i: nat) returns (rd: nat)
    requires i < |text| < json.Length && At(text, i) == '/' && At(text, i + 1) == '/'
    requires forall j :: i <= j <= |text| ==> json[j] == At(text, j)
    ensures rd == LineEnd(text, i + 1) && i < rd <= |text|
  {
    rd := i + 1;
    while json[rd] != NUL && json[rd] != '\n'
      invariant i < rd <= |text| && LineEnd(text, rd) == LineEnd(text, i + 1)
      decreases |text| - rd
    {
      rd := rd + 1;
    }
  }

  method SkipComment(json: array<char>, ghost text: string, i: nat) returns (rd: nat)
    requires i < |text| < json.Length && At(text, CommentEnd(text, i)) != NUL
    requires forall j :: i <= j <= |text| ==> json[j] == At(text, j)
    ensures rd == CommentEnd(text, i) + 2 && i < rd <= |text|
  {
    rd := i;
    while json[rd] != NUL && !(json[rd] == '*' && json[rd + 1] == '/')
      invariant i <= rd < |text| && CommentEnd(text, rd) == CommentEnd(text, i)
      decreases |text| - rd
    {
      rd := rd + 1;
    }
    rd := rd + 2;
  }

  method CopyLiteral(json: array<char>, ghost text: string, i: nat, at: nat) returns (rd: nat, into: nat)
    requires at <= i < |text| < json.Length && At(text, i) == '\"' && LiteralEnd(text, i + 1).Some?
    requires forall j :: i <= j <= |text| ==> json[j] == At(text, j)
    modifies json
    ensures rd == LiteralEnd(text, i + 1).value && into <= rd
    ensures json[..into] == old(json[..at]) + text[i..rd]
    ensures forall j :: rd <= j <= |text| ==> json[j] == At(text, j)
  {
    hide LiteralEnd;
    ghost var before := json[..at];
    LiteralGoesOn(text, i + 1);
    rd, into := CopyOne(json, text, i, at, i, before);
    while json[rd] != NUL && json[rd] != '\"'
      invariant i < rd < |text| && into == at + (rd - i)
      invariant forall j :: rd <= j <= |text| ==> json[j] == At(text, j)
      invariant LiteralEnd(text, rd) == LiteralEnd(text, i + 1)
      invariant json[..into] == before + text[i..rd]
      decreases |text| - rd
    {
      LiteralGoesOn(text, rd);
      if json[rd] == '\\' {
        rd, into := CopyOne(json, text, rd, into, i, before);
      }
      rd, into := CopyOne(json, text, rd, into, i, before);
      LiteralInside(text, rd);
    }
    LiteralGoesOn(text, rd);
    rd, into := CopyOne(json, text, rd, into, i, before);
  }

  /** One step of the literal, for a literal that is closed. */
  lemma LiteralGoesOn(text: string, i: nat)
    requires LiteralEnd(text, i).Some?
    ensures i < |text| && At(text, i) != NUL
    ensures LiteralEnd(text, i) == if At(text, i) == '\"' then Some(i + 1)
                                   else LiteralEnd(text, if At(text, i) == '\\' then i + 2 else i + 1)
    ensures At(text, i) == '\\' ==> i + 1 < |text|
  {}

  lemma LiteralInside(text: string, i: nat)
    requires LiteralEnd(text, i).Some?
    ensures i < |text|
  {}

  /** *into++ = *json++ */
  method CopyOne(json: array<char>, ghost text: string, i: nat, at: nat, ghost start: nat, ghost before: string)
    returns (rd: nat, into: nat)
    requires at <= i < |text| < json.Length && start <= i
    requires forall j :: i <= j <= |text| ==> json[j] == At(text, j)
    requires json[..at] == before + text[start..i]
    modifies json
    ensures rd == i + 1 && into == at + 1
    ensures json[..into] == before + text[start..rd]
    ensures forall j :: rd <= j <= |text| ==> json[j] == At(text, j)
  {
    json[at] := json[i];
    rd, into := i + 1, at + 1;
    assert json[..into] == json[..at] + [text[i]];
    assert text[start..rd] == text[start..i] + [text[i]];
  }

  // ----- Characters that are kept -----

  predicate IsKept(c: char) {
    !IsSpace(c) && c != '/' && c != '\"' && c != NUL
  }

  lemma {:induction false} PlainKept(s: string, n: nat, text: string, i: nat, acc: string)
    requires n <= |s| && Occurs(s, text, i) && forall k :: 0 <= k < |s| ==> IsKept(s[k])
    ensures Minified(text, i, acc) == Minified(text, i + n, acc + s[..n])
  {
    if n == 0 {
      assert acc + s[..0] == acc;
    } else {
      PlainKept(s, n - 1, text, i, acc);
      OccursAt(s, text, i, n - 1);
      assert acc + s[..n - 1] + [s[n - 1]] == acc + s[..n];
    }
  }

  lemma Kept(s: string, text: string, i: nat, acc: string)
    requires Occurs(s, text, i) && forall k :: 0 <= k < |s| ==> IsKept(s[k])
    ensures Minified(text, i, acc) == Minified(text, i + |s|, acc + s)
  {
    hide Minified, IsKept, Occurs;
    PlainKept(s, |s|, text, i, acc);
    assert s[..|s|] == s;
  }
}
