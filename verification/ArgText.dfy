/** The bounded rendering of a call in molten_intercept.c. */
module ArgText {

  import opened CText

  const ARGS_MAX_LEN := 64
  const ARGS_ELLIPSIS := "..."
  const ARGS_REAL_LEN := ARGS_MAX_LEN - |ARGS_ELLIPSIS| - 1

  // ----- strncat -----

  /** The part of s a C string function sees. */
  function CStr(s: string): (r: string)
    ensures |r| <= |s|
  {
    if s == "" || s[0] == NUL then "" else [s[0]] + CStr(s[1..])
  }

  lemma {:induction false} CStrIs(s: string)
    ensures CStr(s) == s[..|CStr(s)|] && NulFree(CStr(s))
    ensures |CStr(s)| < |s| ==> s[|CStr(s)|] == NUL
  {
    if s != "" && s[0] != NUL { CStrIs(s[1..]); }
  }

  /** What strncat(_, s, n) appends; a negative n counts as unlimited. */
  function Capped(s: string, n: int): (r: string)
    ensures |r| <= |s| && (n >= 0 ==> |r| <= n)
  {
    if 0 <= n < |CStr(s)| then CStr(s)[..n] else CStr(s)
  }

  lemma CappedNulFree(s: string, n: int)
    ensures NulFree(Capped(s, n))
  {
    CStrIs(s);
  }

  /** A cut at n sees the first n characters, provided they are there and hold no NUL. */
  lemma CappedClean(s: string, n: nat)
    requires n <= |s| && NulFree(s[..n])
    ensures Capped(s, n) == s[..n]
  {
    CStrIs(s);
    assert forall k :: 0 <= k < n ==> s[..n][k] == s[k];
  }

  /** Writes part over the terminator of text. */
  method Strncat(buffer: array<char>, ghost text: string, s: string, n: int)
    requires Holds(buffer[..], 0, text) && NulFree(text)
    requires |text| + |Capped(s, n)| < buffer.Length
    modifies buffer
    ensures Holds(buffer[..], 0, text + Capped(s, n)) && NulFree(text + Capped(s, n))
  {
    hide Capped;
    CappedNulFree(s, n);
    var d := StrLen(buffer, 0, text);
    var part := Capped(s, n);
    var k := 0;
    assert forall j :: 0 <= j < |text| ==> buffer[..][0..|text|][j] == text[j];
    while k < |part|
      invariant k <= |part| && d == |text| && d + |part| < buffer.Length
      invariant forall j :: 0 <= j < |text| ==> buffer[j] == text[j]
      invariant forall j :: 0 <= j < k ==> buffer[d + j] == part[j]
    {
      buffer[d + k] := part[k];
      k := k + 1;
    }
    buffer[d + k] := NUL;
    assert buffer[..][0..0 + |text + part|] == text + part;
  }

  // ----- The rendering -----

  /** What the loop appends from argument i on when it has counted len characters so far. */
  function Rest(args: seq<string>, i: nat, len: nat): string
    requires i <= |args|
    decreases |args| - i
  {
    if i == |args| then ""
    else if len + |args[i]| + 1 >= ARGS_REAL_LEN then Capped(args[i], ARGS_REAL_LEN - len - 1) + ARGS_ELLIPSIS
    else CStr(args[i]) + "," + Rest(args, i + 1, len + |args[i]| + 1)
  }

  function Rendered(f: string, args: seq<string>): string {
    CStr(f) + " " + Rest(args, 0, |f| + 1)
  }

  lemma {:induction false} RestFits(args: seq<string>, i: nat, len: nat)
    requires i <= |args|
    ensures NulFree(Rest(args, i, len))
    ensures len < ARGS_REAL_LEN ==> len + |Rest(args, i, len)| < ARGS_MAX_LEN - 1
    decreases |args| - i
  {
    hide Capped;
    if i < |args| {
      CStrIs(args[i]);
      CappedNulFree(args[i], ARGS_REAL_LEN - len - 1);
      if len + |args[i]| + 1 < ARGS_REAL_LEN { RestFits(args, i + 1, len + |args[i]| + 1); }
    }
  }

  /** Names of at most 58 characters leave room for the ellipsis whatever the arguments; behind a longer one the
      first argument is appended uncut. */
  predicate FitsBuffer(f: string, args: seq<string>) {
    || |f| + 1 < ARGS_REAL_LEN
    || |CStr(f)| + 1 + (if args == [] then 0 else |CStr(args[0])| + |ARGS_ELLIPSIS|) < ARGS_MAX_LEN
  }

  /** No NUL in the rendering, which fits the buffer with its terminator exactly for such calls; for a name of at most
      58 characters it has at most 62. */
  lemma RenderedFits(f: string, args: seq<string>)
    ensures NulFree(Rendered(f, args))
    ensures |Rendered(f, args)| < ARGS_MAX_LEN <==> FitsBuffer(f, args)
    ensures |f| + 1 < ARGS_REAL_LEN ==> |Rendered(f, args)| < ARGS_MAX_LEN - 1
  {
    CStrIs(f);
    RestFits(args, 0, |f| + 1);
  }

  /** convert_args_to_string, for calls whose rendering fits the buffer. */
  method ConvertArgsToString(f: string, args: seq<string>) returns (out: array<char>)
    requires FitsBuffer(f, args)
    ensures fresh(out) && out.Length == ARGS_MAX_LEN
    ensures Holds(out[..], 0, Rendered(f, args))
  {
    hide Capped, Holds, Rest, Rendered, NulFree, CStr;
    RenderedFits(f, args);
    out := new char[ARGS_MAX_LEN](_ => NUL);
    ghost var text := "";
    EmptyHeld(out[..]);
    Start(f, args);
    var argLen: nat := |f| + 1;
    var i, stop := 0, false;
    Strncat(out, text, f, -1);
    text := text + Capped(f, -1);
    One(' ');
    Strncat(out, text, " ", 1);
    text := text + " ";
    while i < |args|
      invariant i <= |args| && !stop
      invariant Holds(out[..], 0, text) && NulFree(text)
      invariant text + Rest(args, i, argLen) == Rendered(f, args)
    {
      var realLen := |args[i]| + 1;
      ghost var was := text;
      if argLen + realLen >= ARGS_REAL_LEN {
        realLen := ARGS_REAL_LEN - argLen;
        RestStops(args, i, argLen, was);
        Strncat(out, text, args[i], realLen - 1);
        text := text + Capped(args[i], realLen - 1);
        stop := true;
        break;
      } else {
        RestGoesOn(args, i, argLen, was);
        One(',');
        Strncat(out, text, args[i], realLen - 1);
        text := text + Capped(args[i], realLen - 1);
        Strncat(out, text, ",", 1);
        text := text + ",";
        argLen := argLen + realLen;
        i := i + 1;
      }
    }
    RestEnds(args, argLen, text);
    if stop {
      Dots();
      Strncat(out, text, ARGS_ELLIPSIS, |ARGS_ELLIPSIS|);
      text := text + ARGS_ELLIPSIS;
      LastStays(out[..], text);
      ghost var was := out[..];
      out[ARGS_MAX_LEN - 1] := NUL;
      assert out[..] == was[ARGS_MAX_LEN - 1 := NUL];
    }
  }

  lemma EmptyHeld(buffer: seq<char>)
    requires 0 < |buffer| && buffer[0] == NUL
    ensures Holds(buffer, 0, "")
  {}

  lemma Start(f: string, args: seq<string>)
    ensures "" + Capped(f, -1) + " " + Rest(args, 0, |f| + 1) == Rendered(f, args)
    ensures NulFree("")
  {}

  lemma RestStops(args: seq<string>, i: nat, len: nat, text: string)
    requires i < |args| && len + |args[i]| + 1 >= ARGS_REAL_LEN
    ensures text + Capped(args[i], ARGS_REAL_LEN - len - 1) + ARGS_ELLIPSIS == text + Rest(args, i, len)
  {
    hide Capped;
    Assoc(text, Capped(args[i], ARGS_REAL_LEN - len - 1), ARGS_ELLIPSIS);
  }

  lemma RestGoesOn(args: seq<string>, i: nat, len: nat, text: string)
    requires i < |args| && len + |args[i]| + 1 < ARGS_REAL_LEN
    ensures text + Capped(args[i], |args[i]|) + "," + Rest(args, i + 1, len + |args[i]| + 1)
         == text + Rest(args, i, len)
  {
    var later := Rest(args, i + 1, len + |args[i]| + 1);
    assert Rest(args, i, len) == Capped(args[i], |args[i]|) + "," + later;
    assert text + (Capped(args[i], |args[i]|) + "," + later) == text + Capped(args[i], |args[i]|) + "," + later;
  }

  lemma RestEnds(args: seq<string>, len: nat, text: string)
    ensures text + Rest(args, |args|, len) == text
  {}

  lemma Dots()
    ensures Capped(ARGS_ELLIPSIS, |ARGS_ELLIPSIS|) == ARGS_ELLIPSIS
  {
    CappedClean(ARGS_ELLIPSIS, |ARGS_ELLIPSIS|);
  }

  lemma LastStays(buffer: seq<char>, text: string)
    requires Holds(buffer, 0, text) && |text| < |buffer|
    ensures Holds(buffer[|buffer| - 1 := NUL], 0, text)
  {
    assert buffer[|buffer| - 1 := NUL][0..0 + |text|] == text;
  }

  lemma One(c: char)
    requires c != NUL
    ensures Capped([c], 1) == [c]
  {
    CappedClean([c], 1);
  }

  // ----- The closed form -----

  function Joined(args: seq<string>, i: nat): string
    requires i <= |args|
    decreases |args| - i
  {
    if i == |args| then "" else args[i] + "," + Joined(args, i + 1)
  }

  function Full(f: string, args: seq<string>): string {
    f + " " + Joined(args, 0)
  }

  /** s itself when it has at most n characters, else its first n characters and an ellipsis. */
  function Cut(s: string, n: nat): string {
    if |s| <= n then s else s[..n] + ARGS_ELLIPSIS
  }

  /** The first n characters of s, as far as there are any, hold no NUL. */
  ghost predicate CleanUpTo(s: string, n: nat) {
    NulFree(if |s| <= n then s else s[..n])
  }

  lemma {:induction false} RestIsCut(args: seq<string>, i: nat, len: nat)
    requires i <= |args| && len < ARGS_REAL_LEN
    requires CleanUpTo(Joined(args, i), ARGS_REAL_LEN - 1 - len)
    ensures Rest(args, i, len) == Cut(Joined(args, i), ARGS_REAL_LEN - 1 - len)
    decreases |args| - i
  {
    hide Capped, CStr, Cut, CleanUpTo;
    if i == |args| {
      CutShort("", ARGS_REAL_LEN - 1 - len);
    } else {
      var a, later, n := args[i], Joined(args, i + 1), ARGS_REAL_LEN - 1 - len;
      if |a| >= n {
        CutInside(a, later, n);
      } else {
        CutBehind(a, later, n);
        RestIsCut(args, i + 1, len + |a| + 1);
      }
    }
  }

  lemma CutShort(s: string, n: nat)
    requires |s| <= n
    ensures Cut(s, n) == s
  {}

  lemma CutInside(a: string, later: string, n: nat)
    requires n <= |a| && CleanUpTo(a + "," + later, n)
    ensures Capped(a, n) + ARGS_ELLIPSIS == Cut(a + "," + later, n)
  {
    var whole := a + "," + later;
    assert whole[..n] == a[..n];
    CappedClean(a, n);
  }

  lemma CutBehind(a: string, later: string, n: nat)
    requires |a| < n && CleanUpTo(a + "," + later, n)
    ensures CStr(a) == a && CleanUpTo(later, n - |a| - 1)
    ensures Cut(a + "," + later, n) == a + "," + Cut(later, n - |a| - 1)
  {
    hide CleanUpTo, Cut;
    CleanSplit(a + ",", later, n);
    CleanCStr(a, ',');
    CutAdds(a + ",", later, n);
  }

  lemma CutAdds(a: string, later: string, n: nat)
    requires |a| <= n
    ensures Cut(a + later, n) == a + Cut(later, n - |a|)
  {
    var m := n - |a|;
    if |later| > m {
      assert (a + later)[..n] == a + later[..m];
      Assoc(a, later[..m], ARGS_ELLIPSIS);
    }
  }

  lemma CleanSplit(a: string, later: string, n: nat)
    requires |a| <= n && CleanUpTo(a + later, n)
    ensures NulFree(a) && CleanUpTo(later, n - |a|)
  {
    var whole := a + later;
    assert forall k :: 0 <= k < |a| ==> a[k] == whole[k];
    assert forall k :: 0 <= k < |later| ==> later[k] == whole[|a| + k];
  }

  lemma CleanCStr(s: string, c: char)
    requires NulFree(s + [c])
    ensures CStr(s) == s
  {
    CStrIs(s);
    assert forall k :: 0 <= k < |s| ==> (s + [c])[k] == s[k];
  }

  /** The rendering is the call text cut to 59 characters exactly when those characters hold no NUL and the
      name has at most 58. */
  lemma ClosedForm(f: string, args: seq<string>)
    ensures Rendered(f, args) == Cut(Full(f, args), ARGS_REAL_LEN - 1)
       <==> |f| + 1 < ARGS_REAL_LEN && CleanUpTo(Full(f, args), ARGS_REAL_LEN - 1)
  {
    hide Rest, Joined, CStr;
    var full, n := Full(f, args), ARGS_REAL_LEN - 1;
    RenderedFits(f, args);
    CStrIs(f);
    if |f| + 1 >= ARGS_REAL_LEN {
      var p := |CStr(f)|;
      assert Rendered(f, args)[p] == ' ';
      assert p < n ==> Cut(full, n)[p] == f[p];
      assert n <= p < n + 3 ==> Cut(full, n)[p] == '.';
    } else if CleanUpTo(full, n) {
      ClosedWhenClean(f, args);
    } else {
      assert forall k :: 0 <= k < n && k < |full| ==> Cut(full, n)[k] == full[k];
    }
  }

  lemma ClosedWhenClean(f: string, args: seq<string>)
    requires |f| + 1 < ARGS_REAL_LEN && CleanUpTo(Full(f, args), ARGS_REAL_LEN - 1)
    ensures Rendered(f, args) == Cut(Full(f, args), ARGS_REAL_LEN - 1)
  {
    hide Rest, Joined, Cut, CStr, CleanUpTo;
    var later, n := Joined(args, 0), ARGS_REAL_LEN - 1;
    CleanSplit(f + " ", later, n);
    CleanCStr(f, ' ');
    RestIsCut(args, 0, |f| + 1);
    CutAdds(f + " ", later, n);
  }

  /** A call with one argument: the name, a space, the argument and a comma, cut behind 59 characters. */
  lemma OneArgument(f: string, a: string)
    requires NulFree(f) && NulFree(a) && |f| <= 58
    ensures var whole := f + " " + a + ",";
            Rendered(f, [a]) == if |whole| <= 59 then whole else whole[..59] + "..."
  {
    hide Rest, Rendered, CStr;
    var whole := f + " " + a + ",";
    assert Joined([a], 0) == a + "," + Joined([a], 1) == a + ",";
    assert Full(f, [a]) == whole by { assert f + " " + (a + ",") == whole; }
    ClosedForm(f, [a]);
  }

  /** Two arguments are separated, and closed, by a comma. */
  lemma TwoArguments(f: string, a: string, b: string)
    requires NulFree(f) && NulFree(a) && NulFree(b) && |f| + |a| + |b| <= 56
    ensures Rendered(f, [a, b]) == f + " " + a + "," + b + ","
  {
    hide Rest, Rendered, CStr;
    var whole := f + " " + a + "," + b + ",";
    assert Joined([a, b], 1) == b + "," + Joined([a, b], 2) == b + ",";
    assert Joined([a, b], 0) == a + "," + (b + ",");
    assert Full(f, [a, b]) == whole by { assert f + " " + (a + "," + (b + ",")) == whole; }
    ClosedForm(f, [a, b]);
  }
}
