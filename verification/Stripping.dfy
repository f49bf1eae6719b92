/** cJSON_Minify on any text of the grammar and on any text the parser accepts: the value stays. */
module Stripping {

  import opened Accepted
  import opened CText
  import opened Decimal
  import opened Grammar
  import opened JsonParse
  import opened JsonString
  import opened JsonTree
  import opened Lexemes
  import opened Minify
  import opened Prelude
  import opened RoundTrip
  import opened Scanning
  import opened StringLaws
  import opened Utf8

  // ----- What the minifier leaves -----

  /** Of the blanks the parser skips, the minifier strips four; comments go altogether. */
  predicate Stays(g: Gap) {
    g.Space? && !IsSpace(g.c)
  }

  function LeftTo(gs: seq<Gap>, n: nat): seq<Gap>
    requires n <= |gs|
  {
    if n == 0 then [] else LeftTo(gs, n - 1) + if Stays(gs[n - 1]) then [gs[n - 1]] else []
  }

  function Left(gs: seq<Gap>): seq<Gap> {
    LeftTo(gs, |gs|)
  }

  lemma {:induction false} LeftIsBlank(gs: seq<Gap>, n: nat, f: Filling)
    requires n <= |gs| && Fills(gs, f)
    ensures Fills(LeftTo(gs, n), Blanks) && (f.Comments? ==> LeftTo(gs, n) == [])
  {
    if n > 0 {
      LeftIsBlank(gs, n - 1, f);
      assert ValidGap(gs[n - 1], f);
    }
  }

  /** The text with only that between its tokens. */
  function Compacted(d: Doc): Doc {
    match d
    case Arr(open, docs) => Arr(Left(open), CompactedDocs(docs))
    case Obj(open, pairs) => Obj(Left(open), CompactedPairs(pairs))
    case _ => d
  }

  function CompactedDocs(ds: Docs): Docs {
    if ds.NoDoc? then NoDoc else Doc(Left(ds.before), Compacted(ds.doc), Left(ds.after), CompactedDocs(ds.next))
  }

  function CompactedPairs(ps: Pairs): Pairs {
    if ps.NoPair? then NoPair
    else Grammar.Pair(Left(ps.before), ps.name, Left(ps.mid), Left(ps.gap), Compacted(ps.doc), Left(ps.after),
                      CompactedPairs(ps.next))
  }

  lemma {:induction false} CompactedDenotes(d: Doc, f: Filling)
    requires Grammar.Valid(d) && Filled(d, f)
    ensures Grammar.Valid(Compacted(d)) && Filled(Compacted(d), Blanks)
    ensures Denoted(Compacted(d)) == Denoted(d)
    decreases d
  {
    hide ValidTokens, ValidNumeral, LitBytes, Fills, LeftTo;
    match d
    case Arr(open, docs) =>
      LeftIsBlank(open, |open|, f);
      CompactedDocsDenote(docs, f);
    case Obj(open, pairs) =>
      LeftIsBlank(open, |open|, f);
      CompactedPairsDenote(pairs, f);
    case _ =>
  }

  lemma {:induction false} CompactedDocsDenote(ds: Docs, f: Filling)
    requires ValidDocs(ds) && FilledDocs(ds, f)
    ensures ValidDocs(CompactedDocs(ds)) && FilledDocs(CompactedDocs(ds), Blanks)
    ensures DenotedItems(CompactedDocs(ds)) == DenotedItems(ds)
    decreases ds
  {
    hide Grammar.Valid, Denoted, Filled, Compacted, Fills, LeftTo;
    if ds.Doc? {
      LeftIsBlank(ds.before, |ds.before|, f);
      LeftIsBlank(ds.after, |ds.after|, f);
      CompactedDenotes(ds.doc, f);
      CompactedDocsDenote(ds.next, f);
    }
  }

  lemma {:induction false} CompactedPairsDenote(ps: Pairs, f: Filling)
    requires ValidPairs(ps) && FilledPairs(ps, f)
    ensures ValidPairs(CompactedPairs(ps)) && FilledPairs(CompactedPairs(ps), Blanks)
    ensures DenotedMembers(CompactedPairs(ps)) == DenotedMembers(ps)
    decreases ps
  {
    hide Grammar.Valid, Denoted, Filled, Compacted, ValidTokens, LitBytes, Fills, LeftTo;
    if ps.Pair? {
      LeftIsBlank(ps.before, |ps.before|, f);
      LeftIsBlank(ps.mid, |ps.mid|, f);
      LeftIsBlank(ps.gap, |ps.gap|, f);
      LeftIsBlank(ps.after, |ps.after|, f);
      CompactedDenotes(ps.doc, f);
      CompactedPairsDenote(ps.next, f);
    }
  }

  // ----- Where only the four blanks and comments stood, nothing is left between the tokens -----

  predicate Bare(d: Doc) {
    match d
    case Arr(open, docs) => open == [] && BareDocs(docs)
    case Obj(open, pairs) => open == [] && BarePairs(pairs)
    case _ => true
  }

  predicate BareDocs(ds: Docs) {
    ds.Doc? ==> ds.before == [] && Bare(ds.doc) && ds.after == [] && BareDocs(ds.next)
  }

  predicate BarePairs(ps: Pairs) {
    ps.Pair? ==>
      ps.before == [] && ps.mid == [] && ps.gap == [] && Bare(ps.doc) && ps.after == [] && BarePairs(ps.next)
  }

  lemma {:induction false} NothingBetween(d: Doc)
    requires Filled(d, Comments)
    ensures Bare(Compacted(d))
    decreases d
  {
    hide Fills, LeftTo;
    match d
    case Arr(open, docs) =>
      LeftIsBlank(open, |open|, Comments);
      NothingBetweenDocs(docs);
    case Obj(open, pairs) =>
      LeftIsBlank(open, |open|, Comments);
      NothingBetweenPairs(pairs);
    case _ =>
  }

  lemma {:induction false} NothingBetweenDocs(ds: Docs)
    requires FilledDocs(ds, Comments)
    ensures BareDocs(CompactedDocs(ds))
    decreases ds
  {
    hide Fills, LeftTo, Compacted, Filled;
    if ds.Doc? {
      LeftIsBlank(ds.before, |ds.before|, Comments);
      LeftIsBlank(ds.after, |ds.after|, Comments);
      NothingBetween(ds.doc);
      NothingBetweenDocs(ds.next);
    }
  }

  lemma {:induction false} NothingBetweenPairs(ps: Pairs)
    requires FilledPairs(ps, Comments)
    ensures BarePairs(CompactedPairs(ps))
    decreases ps
  {
    hide Fills, LeftTo, Compacted, Filled;
    if ps.Pair? {
      LeftIsBlank(ps.before, |ps.before|, Comments);
      LeftIsBlank(ps.mid, |ps.mid|, Comments);
      LeftIsBlank(ps.gap, |ps.gap|, Comments);
      LeftIsBlank(ps.after, |ps.after|, Comments);
      NothingBetween(ps.doc);
      NothingBetweenPairs(ps.next);
    }
  }

  // ----- Gaps are stripped -----

  lemma {:induction false} LineScan(text: string, i: nat, n: nat)
    requires forall k :: i <= k < i + n ==> At(text, k) != NUL && At(text, k) != '\n'
    ensures LineEnd(text, i) == LineEnd(text, i + n)
  {
    if n > 0 { LineScan(text, i, n - 1); }
  }

  lemma {:induction false} CommentScan(text: string, i: nat, n: nat)
    requires forall k :: i <= k < i + n ==> At(text, k) != NUL && (At(text, k) == '*' ==> At(text, k + 1) != '/')
    ensures CommentEnd(text, i) == CommentEnd(text, i + n)
  {
    if n > 0 { CommentScan(text, i, n - 1); }
  }

  lemma OccursChars(s: string, text: string, i: nat)
    requires Occurs(s, text, i)
    ensures forall k :: i <= k < i + |s| ==> At(text, k) == s[k - i]
  {
    forall k | i <= k < i + |s| ensures At(text, k) == s[k - i] { OccursAt(s, text, i, k - i); }
  }

  lemma LineDropped(body: string, text: string, i: nat, acc: string)
    requires ValidGap(Line(body), Mixed) && Occurs(GapText(Line(body)), text, i)
    ensures Minified(text, i, acc) == Minified(text, i + |body| + 3, acc)
  {
    hide Occurs, LineEnd, CommentEnd, LiteralEnd;
    OccursChars(GapText(Line(body)), text, i);
    LineScan(text, i + 1, |body| + 1);
    LineStops(text, i + 2 + |body|);
  }

  lemma LineStops(text: string, i: nat)
    requires At(text, i) == '\n'
    ensures LineEnd(text, i) == i
  {}

  lemma CommentStops(text: string, i: nat)
    requires At(text, i) == '*' && At(text, i + 1) == '/'
    ensures CommentEnd(text, i) == i
  {}

  lemma BlockDropped(body: string, text: string, i: nat, acc: string)
    requires ValidGap(Block(body), Mixed) && Occurs(GapText(Block(body)), text, i)
    ensures Minified(text, i, acc) == Minified(text, i + |body| + 4, acc)
  {
    hide Occurs, LineEnd, CommentEnd, LiteralEnd;
    OccursChars(GapText(Block(body)), text, i);
    CommentScan(text, i, |body| + 2);
    CommentStops(text, i + 2 + |body|);
  }

  lemma GapStripped(g: Gap, text: string, i: nat, acc: string)
    requires ValidGap(g, Mixed) && Occurs(GapText(g), text, i)
    ensures Minified(text, i, acc)
         == Minified(text, i + |GapText(g)|, if Stays(g) then acc + GapText(g) else acc)
  {
    hide Occurs, LineEnd, CommentEnd, LiteralEnd;
    match g
    case Space(c) => OccursAt([c], text, i, 0);
    case Line(body) => LineDropped(body, text, i, acc);
    case Block(body) => BlockDropped(body, text, i, acc);
  }

  lemma {:induction false} GapsStripped(gs: seq<Gap>, n: nat, text: string, i: nat, acc: string)
    requires n <= |gs| && Fills(gs, Mixed) && Occurs(GapsText(gs, n), text, i)
    ensures Minified(text, i, acc) == Minified(text, i + |GapsText(gs, n)|, acc + Fill(LeftTo(gs, n)))
  {
    hide Occurs, Minified, ValidGap, GapText, Stays;
    if n == 0 {
      assert acc + "" == acc;
    } else {
      var g, before := gs[n - 1], LeftTo(gs, n - 1);
      OccursSplit(GapsText(gs, n - 1), GapText(g), text, i);
      GapsStripped(gs, n - 1, text, i, acc);
      GapStripped(g, text, i + |GapsText(gs, n - 1)|, acc + Fill(before));
      if Stays(g) {
        TakeText(before, g, |before|);
        assert acc + Fill(before) + GapText(g) == acc + (Fill(before) + GapText(g));
      } else {
        assert before + [] == before;
      }
    }
  }

  lemma FillStripped(gs: seq<Gap>, text: string, i: nat, acc: string)
    requires Fills(gs, Mixed) && Occurs(Fill(gs), text, i)
    ensures Minified(text, i, acc) == Minified(text, i + |Fill(gs)|, acc + Fill(Left(gs)))
  {
    hide Occurs, Minified, Fills, GapsText, LeftTo;
    GapsStripped(gs, |gs|, text, i, acc);
  }

  /** A comment ends where C ends it, unless it starts with a slash. */
  lemma CommentEndsRight(body: string, text: string, i: nat)
    requires NulFree(body) && NoEnd(body) && Occurs(GapText(Block(body)), text, i)
    ensures CommentEnd(text, i) + 2 == i + |GapText(Block(body))| <==> body == "" || body[0] != '/'
  {
    hide Occurs, CommentEnd;
    OccursChars(GapText(Block(body)), text, i);
    if body == "" || body[0] != '/' {
      CommentScan(text, i, |body| + 2);
      CommentStops(text, i + 2 + |body|);
    } else {
      CommentScan(text, i, 1);
      CommentStops(text, i + 1);
    }
  }

  // ----- Tokens are kept -----

  lemma MarkStays(c: char, text: string, i: nat, acc: string)
    requires IsKept(c) && At(text, i) == c
    ensures Minified(text, i, acc) == Minified(text, i + 1, acc + [c])
  {}

  lemma UnitInside(text: string, i: nat)
    requires At(text, i) == '\\' && At(text, i + 1) == 'u'
    requires PlainQuad(text, i + 2)
    ensures LiteralEnd(text, i) == LiteralEnd(text, i + 6)
  {
    assert LiteralEnd(text, i + 5) == LiteralEnd(text, i + 6);
    assert LiteralEnd(text, i + 4) == LiteralEnd(text, i + 5);
    assert LiteralEnd(text, i + 3) == LiteralEnd(text, i + 4);
    assert LiteralEnd(text, i + 2) == LiteralEnd(text, i + 3);
  }

  /** The literal end the minifier looks for is the one the parser stopped at. */
  lemma {:induction false} LiteralScan(text: string, i: nat, acc: string)
    requires InStep(text, i)
    ensures LiteralEnd(text, i) == LiteralEnd(text, Unescape(text, i, acc).1)
    decreases |text| - i
  {
    hide ReadEscape, LiteralEnd;
    LiteralStep(text, i);
    var c := At(text, i);
    if c == '\\' {
      var chunk := ReadEscape(text, i);
      EscapeFits(text, i);
      EscapeInLiteral(text, i);
      LiteralScan(text, chunk.next, acc + chunk.bytes);
    } else if c != NUL && c != '\"' {
      LiteralScan(text, i + 1, acc + [c]);
    }
  }

  lemma LiteralStep(text: string, i: nat)
    ensures !Special(At(text, i)) ==> LiteralEnd(text, i) == LiteralEnd(text, i + 1)
    ensures At(text, i) == '\\' && At(text, i + 1) != NUL ==> LiteralEnd(text, i) == LiteralEnd(text, i + 2)
    ensures At(text, i) == '\"' ==> LiteralEnd(text, i) == Some(i + 1)
    ensures At(text, i) == NUL ==> LiteralEnd(text, i) == None
  {}

  /** Where an escape ends: the second unit of a pair is looked at only behind a high surrogate. */
  lemma EscapeSpan(text: string, i: nat)
    requires At(text, i + 1) == 'u'
    ensures ReadEscape(text, i).next
         == if IsHigh(Hex4(text, i + 2)) && UnitAt(text, i + 6) then i + 12 else i + 6
  {
    HighNotLow(Hex4(text, i + 2));
  }

  lemma HighNotLow(u: bv32)
    ensures IsHigh(u) ==> !IsLow(u) && u != 0
  {}

  lemma EscapeInLiteral(text: string, i: nat)
    requires InStep(text, i) && At(text, i) == '\\'
    ensures LiteralEnd(text, i) == LiteralEnd(text, ReadEscape(text, i).next)
  {
    hide Encode, Utf8.Pair, IsHigh, IsLow, InStep, Hex4, LiteralEnd, Simple;
    LiteralStep(text, i);
    InStepOnce(text, i);
    if At(text, i + 1) == 'u' {
      EscapeSpan(text, i);
      UnitInside(text, i);
      if ReadEscape(text, i).next != i + 6 {
        InStepOnce(text, i + 6);
        UnitInside(text, i + 6);
      }
    }
  }

  lemma LiteralStays(l: seq<Token>, text: string, i: nat, acc: string)
    requires ValidTokens(l) && Occurs(Literal(l), text, i)
    ensures Minified(text, i, acc) == Minified(text, i + |Literal(l)|, acc + Literal(l))
  {
    hide ValidTokens, Literal, Occurs, LiteralEnd, Minified, InStep, Unescape, At;
    var j := i + |Literal(l)| - 1;
    LitUnescaped(l, text, i);
    LiteralScan(text, i + 1, "");
    LiteralCopied(Literal(l), text, i, acc);
  }

  lemma LiteralCopied(quoted: string, text: string, i: nat, acc: string)
    requires |quoted| >= 2 && Occurs(quoted, text, i) && At(text, i) == '\"' && At(text, i + |quoted| - 1) == '\"'
    requires LiteralEnd(text, i + 1) == LiteralEnd(text, i + |quoted| - 1)
    ensures Minified(text, i, acc) == Minified(text, i + |quoted|, acc + quoted)
  {}

  lemma WordStays(v: Json, text: string, i: nat, acc: string)
    requires (v.Null? || v.False? || v.True?) && Occurs(Text(v, 0, false), text, i)
    ensures Minified(text, i, acc) == Minified(text, i + |Text(v, 0, false)|, acc + Text(v, 0, false))
  {
    hide Minified, Occurs;
    Kept(Text(v, 0, false), text, i, acc);
  }

  lemma NumberStays(negative: bool, zero: bool, m: nat, text: string, i: nat, acc: string)
    requires Occurs(NumeralText(negative, zero, m), text, i)
    ensures var token := NumeralText(negative, zero, m);
            Minified(text, i, acc) == Minified(text, i + |token|, acc + token)
  {
    hide Minified, Occurs, OfNat;
    OfNatAllDigits(m);
    Kept(NumeralText(negative, zero, m), text, i, acc);
  }

  // ----- The minifier on whole texts -----

  lemma {:induction false} SourceStripped(d: Doc, text: string, i: nat, acc: string)
    requires Grammar.Valid(d) && Filled(d, Mixed) && Grammar.Valid(Compacted(d)) && Occurs(Source(d), text, i)
    ensures Minified(text, i, acc) == Minified(text, i + |Source(d)|, acc + Source(Compacted(d)))
    decreases d, 1
  {
    hide Occurs, Minified, ValidTokens, ValidNumeral, Literal, NumeralText, Text, Fills, Fill, GapsText, LeftTo;
    match d
    case Word(v) => WordStays(v, text, i, acc);
    case Num(negative, zero, m) => NumberStays(negative, zero, m, text, i, acc);
    case Str(lit) => LiteralStays(lit, text, i, acc);
    case Arr(open, docs) => ArrStripped(open, docs, text, i, acc);
    case Obj(open, pairs) => ObjStripped(open, pairs, text, i, acc);
  }

  lemma ArrStripped(open: seq<Gap>, docs: Docs, text: string, i: nat, acc: string)
    requires Fills(open, Mixed) && ValidDocs(docs) && FilledDocs(docs, Mixed) && ValidDocs(CompactedDocs(docs))
    requires Occurs("[" + Fill(open) + DocsSource(docs) + "]", text, i)
    ensures var left := "[" + Fill(Left(open)) + DocsSource(CompactedDocs(docs)) + "]";
            Minified(text, i, acc) == Minified(text, i + |Fill(open)| + |DocsSource(docs)| + 2, acc + left)
    decreases docs, 2
  {
    hide Occurs, Minified, DocsSource, Fills, Fill, GapsText, LeftTo;
    var body, o, rest := DocsSource(docs), Fill(Left(open)), DocsSource(CompactedDocs(docs));
    Bracketed("[", Fill(open), body, "]", text, i);
    MarkStays('[', text, i, acc);
    FillStripped(open, text, i + 1, acc + "[");
    DocsStripped(docs, text, i + 1 + |Fill(open)|, acc + "[" + o);
    MarkStays(']', text, i + 1 + |Fill(open)| + |body|, acc + "[" + o + rest);
    assert acc + "[" + o + rest + "]" == acc + ("[" + o + rest + "]");
  }

  lemma {:induction false} DocsStripped(ds: Docs, text: string, i: nat, acc: string)
    requires ValidDocs(ds) && FilledDocs(ds, Mixed) && ValidDocs(CompactedDocs(ds))
    requires Occurs(DocsSource(ds), text, i)
    ensures Minified(text, i, acc) == Minified(text, i + |DocsSource(ds)|, acc + DocsSource(CompactedDocs(ds)))
    decreases ds, 1
  {
    hide Occurs, Minified, Source, Fills, Grammar.Valid, Filled, Compacted, Fill, GapsText, LeftTo;
    if ds.Doc? {
      DocsParts(ds, text, i);
      var j := i + |Fill(ds.before)|;
      var e := j + |Source(ds.doc)|;
      var k := e + |Fill(ds.after)|;
      var b, s, a := Fill(Left(ds.before)), Source(Compacted(ds.doc)), Fill(Left(ds.after));
      FillStripped(ds.before, text, i, acc);
      SourceStripped(ds.doc, text, j, acc + b);
      FillStripped(ds.after, text, e, acc + b + s);
      if ds.next.Doc? {
        var rest := DocsSource(CompactedDocs(ds.next));
        MarkStays(',', text, k, acc + b + s + a);
        DocsStripped(ds.next, text, k + 1, acc + b + s + a + ",");
        assert acc + b + s + a + "," + rest == acc + (b + s + a + ("," + rest));
      } else {
        assert acc + b + s + a == acc + (b + s + a + "");
      }
    } else {
      assert acc + "" == acc;
    }
  }

  lemma ObjStripped(open: seq<Gap>, pairs: Pairs, text: string, i: nat, acc: string)
    requires Fills(open, Mixed) && ValidPairs(pairs) && FilledPairs(pairs, Mixed)
    requires ValidPairs(CompactedPairs(pairs)) && Occurs("{" + Fill(open) + PairsSource(pairs) + "}", text, i)
    ensures var left := "{" + Fill(Left(open)) + PairsSource(CompactedPairs(pairs)) + "}";
            Minified(text, i, acc) == Minified(text, i + |Fill(open)| + |PairsSource(pairs)| + 2, acc + left)
    decreases pairs, 2
  {
    hide Occurs, Minified, PairsSource, Fills, Fill, GapsText, LeftTo;
    var body, o, rest := PairsSource(pairs), Fill(Left(open)), PairsSource(CompactedPairs(pairs));
    Bracketed("{", Fill(open), body, "}", text, i);
    MarkStays('{', text, i, acc);
    FillStripped(open, text, i + 1, acc + "{");
    PairsStripped(pairs, text, i + 1 + |Fill(open)|, acc + "{" + o);
    MarkStays('}', text, i + 1 + |Fill(open)| + |body|, acc + "{" + o + rest);
    assert acc + "{" + o + rest + "}" == acc + ("{" + o + rest + "}");
  }

  /** The head of a member as the minifier leaves it. */
  ghost function HeadLeft(ps: Pairs): string
    requires ps.Pair? && ValidTokens(ps.name)
  {
    Fill(Left(ps.before)) + Literal(ps.name) + Fill(Left(ps.mid)) + ":" + Fill(Left(ps.gap))
  }

  lemma HeadStripped(ps: Pairs, text: string, i: nat, acc: string)
    requires ps.Pair? && ValidTokens(ps.name) && Occurs(PairHead(ps), text, i)
    requires Fills(ps.before, Mixed) && Fills(ps.mid, Mixed) && Fills(ps.gap, Mixed)
    ensures Minified(text, i, acc) == Minified(text, i + |PairHead(ps)|, acc + HeadLeft(ps))
  {
    hide Occurs, Minified, Fills, Literal, ValidTokens, Fill, GapsText, LeftTo;
    HeadParts(ps, text, i);
    var q := i + |Fill(ps.before)|;
    var e := q + |Literal(ps.name)|;
    var k := e + |Fill(ps.mid)|;
    var b, l, m, g := Fill(Left(ps.before)), Literal(ps.name), Fill(Left(ps.mid)), Fill(Left(ps.gap));
    FillStripped(ps.before, text, i, acc);
    LiteralStays(ps.name, text, q, acc + b);
    FillStripped(ps.mid, text, e, acc + b + l);
    MarkStays(':', text, k, acc + b + l + m);
    FillStripped(ps.gap, text, k + 1, acc + b + l + m + ":");
    assert acc + b + l + m + ":" + g == acc + (b + l + m + ":" + g);
  }

  lemma {:induction false} PairsStripped(ps: Pairs, text: string, i: nat, acc: string)
    requires ValidPairs(ps) && FilledPairs(ps, Mixed) && ValidPairs(CompactedPairs(ps))
    requires Occurs(PairsSource(ps), text, i)
    ensures Minified(text, i, acc) == Minified(text, i + |PairsSource(ps)|, acc + PairsSource(CompactedPairs(ps)))
    decreases ps, 1
  {
    hide Occurs, Minified, Source, Fills, Grammar.Valid, Filled, Compacted, ValidTokens, Literal, Fill, GapsText,
         LeftTo;
    if ps.Pair? {
      PairsParts(ps, text, i);
      var j := i + |PairHead(ps)|;
      var e := j + |Source(ps.doc)|;
      var k := e + |Fill(ps.after)|;
      var h, s, a := HeadLeft(ps), Source(Compacted(ps.doc)), Fill(Left(ps.after));
      HeadStripped(ps, text, i, acc);
      SourceStripped(ps.doc, text, j, acc + h);
      FillStripped(ps.after, text, e, acc + h + s);
      if ps.next.Pair? {
        var rest := PairsSource(CompactedPairs(ps.next));
        MarkStays(',', text, k, acc + h + s + a);
        PairsStripped(ps.next, text, k + 1, acc + h + s + a + ",");
        assert acc + h + s + a + "," + rest == acc + (h + s + a + ("," + rest));
      } else {
        assert acc + h + s + a == acc + (h + s + a + "");
      }
    } else {
      assert acc + "" == acc;
    }
  }

  /** Minifying a text with any blanks and comments between its tokens leaves the tokens alone, and what is
      left parses to the value the text denotes. */
  lemma StripsToCompact(before: seq<Gap>, d: Doc, after: seq<Gap>)
    requires Fills(before, Mixed) && Grammar.Valid(d) && Filled(d, Mixed) && Fills(after, Mixed)
    ensures Grammar.Valid(Compacted(d))
    ensures var left := Fill(Left(before)) + Source(Compacted(d)) + Fill(Left(after));
            && Minified(Fill(before) + Source(d) + Fill(after), 0, "") == Some(left)
            && ParsedText(left, true) == Parsed(Denoted(d), |left|)
  {
    hide Minified, Source, Denoted, Fills, Filled, ParsedText, Grammar.Valid, Fill, Occurs, LeftTo;
    CompactedDenotes(d, Mixed);
    LeftIsBlank(before, |before|, Mixed);
    LeftIsBlank(after, |after|, Mixed);
    var b, a, text := Fill(before), Fill(after), Fill(before) + Source(d) + Fill(after);
    var b', s', a' := Fill(Left(before)), Source(Compacted(d)), Fill(Left(after));
    WholeText(b, Source(d), a);
    FillStripped(before, text, 0, "");
    assert "" + b' == b';
    SourceStripped(d, text, |b|, b');
    FillStripped(after, text, |b| + |Source(d)|, b' + s');
    EndReached(text, b' + s' + a');
    TextReads(Left(before), Compacted(d), Left(after), true);
  }

  lemma EndReached(text: string, acc: string)
    ensures Minified(text, |text|, acc) == Some(acc)
  {}

  // ----- Any text the parser accepts -----

  /** A text the parser accepts to its end is minified, within its bounds, to one that parses to the same value,
      unless it is a string literal that ends with the text; on those the C code runs past the terminator. */
  lemma MinifyKeepsValue(text: string)
    requires NulFree(text) && ParsedText(text, true).Parsed?
    ensures Minified(text, 0, "").Some? <==> ClosedAt(text, Skipped(text, 0))
    ensures var left := Minified(text, 0, "");
            left.Some? ==> ParsedText(left.value, true) == Parsed(ParsedText(text, true).value, |left.value|)
  {
    hide Minified, Source, Denoted, Fills, Filled, ParsedText, Grammar.Valid, Fill, ClosedAt, LeftTo, Skipped, NulFree;
    if ClosedAt(text, Skipped(text, 0)) {
      var before, d, after := AcceptedText(text);
      BlanksAreMixed(before);
      BlanksAreMixed(after);
      FilledMixed(d);
      StripsToCompact(before, d, after);
    } else {
      UnclosedOverrun(text);
    }
  }

  lemma BlanksAreMixed(gs: seq<Gap>)
    requires Fills(gs, Blanks)
    ensures Fills(gs, Mixed)
  {
    forall k | 0 <= k < |gs| ensures ValidGap(gs[k], Mixed) { assert ValidGap(gs[k], Blanks); }
  }

  lemma {:induction false} FilledMixed(d: Doc)
    requires Filled(d, Blanks)
    ensures Filled(d, Mixed)
    decreases d
  {
    hide Fills;
    match d
    case Arr(open, docs) =>
      BlanksAreMixed(open);
      FilledMixedDocs(docs);
    case Obj(open, pairs) =>
      BlanksAreMixed(open);
      FilledMixedPairs(pairs);
    case _ =>
  }

  lemma {:induction false} FilledMixedDocs(ds: Docs)
    requires FilledDocs(ds, Blanks)
    ensures FilledDocs(ds, Mixed)
    decreases ds
  {
    hide Fills, Filled;
    if ds.Doc? {
      BlanksAreMixed(ds.before);
      BlanksAreMixed(ds.after);
      FilledMixed(ds.doc);
      FilledMixedDocs(ds.next);
    }
  }

  lemma {:induction false} FilledMixedPairs(ps: Pairs)
    requires FilledPairs(ps, Blanks)
    ensures FilledPairs(ps, Mixed)
    decreases ps
  {
    hide Fills, Filled;
    if ps.Pair? {
      BlanksAreMixed(ps.before);
      BlanksAreMixed(ps.mid);
      BlanksAreMixed(ps.gap);
      BlanksAreMixed(ps.after);
      FilledMixed(ps.doc);
      FilledMixedPairs(ps.next);
    }
  }

  lemma UnclosedOverrun(text: string)
    requires ParsedText(text, true).Parsed? && !ClosedAt(text, Skipped(text, 0))
    ensures Minified(text, 0, "") == None
  {
    hide Skipped, Unescape, InStep, LiteralEnd, Fill, Fills, Minified, LeftTo;
    var gs := SkippedGaps(text, 0);
    var i := Skipped(text, 0);
    NotKeyword(text, i);
    BlanksAreMixed(gs);
    FillStripped(gs, text, 0, "");
    UnescapeStops(text, i + 1, "");
    LiteralScan(text, i + 1, "");
    LiteralStep(text, Unescape(text, i + 1, "").1);
    OverrunStep(text, i, "" + Fill(Left(gs)));
  }

  lemma OverrunStep(text: string, i: nat, acc: string)
    requires At(text, i) == '\"' && LiteralEnd(text, i + 1).None?
    ensures Minified(text, i, acc) == None
  {}

  // ----- Printed texts -----

  lemma NothingLeft(gs: seq<Gap>)
    requires Fills(gs, Comments)
    ensures Left(gs) == []
  {
    LeftIsBlank(gs, |gs|, Comments);
  }

  lemma {:induction false} LayoutCompacted(v: Json, depth: nat, fmt: bool)
    requires Filled(Layout(v, depth, fmt), Comments)
    ensures Compacted(Layout(v, depth, fmt)) == Layout(v, depth, false)
    decreases v
  {
    hide Fills, Left, TabGaps, Quote;
    NoFill();
    NothingLeft([]);
    match v
    case Array(items) => ItemsCompacted(items, [], depth + 1, fmt);
    case Object(NoMember) => NothingLeft(If(fmt, [NEWLINE] + TabGaps(depth - 1)));
    case Object(members) => MembersCompacted(members, If(fmt, [NEWLINE]), depth + 1, fmt);
    case _ =>
  }

  lemma {:induction false} ItemsCompacted(items: Items, before: seq<Gap>, depth: nat, fmt: bool)
    requires FilledDocs(LayoutItems(items, before, depth, fmt), Comments)
    ensures CompactedDocs(LayoutItems(items, before, depth, fmt)) == LayoutItems(items, [], depth, false)
    decreases items
  {
    hide Fills, Left, Layout, Filled, Compacted;
    if items.Item? {
      NoFill();
      NothingLeft([]);
      NothingLeft(before);
      LayoutCompacted(items.value, depth, fmt);
      ItemsCompacted(items.next, If(fmt, [Space(' ')]), depth, fmt);
    }
  }

  lemma {:induction false} MembersCompacted(members: Members, before: seq<Gap>, depth: nat, fmt: bool)
    requires depth > 0 && FilledPairs(LayoutMembers(members, before, depth, fmt), Comments)
    ensures CompactedPairs(LayoutMembers(members, before, depth, fmt)) == LayoutMembers(members, [], depth, false)
    decreases members
  {
    hide Fills, Left, Layout, Filled, Compacted, Quote, TabGaps;
    if members.Member? {
      var ps := LayoutMembers(members, before, depth, fmt);
      NoFill();
      NothingLeft([]);
      NothingLeft(ps.before);
      NothingLeft(ps.gap);
      NothingLeft(ps.after);
      LayoutCompacted(members.value, depth, fmt);
      MembersCompacted(members.next, If(fmt, [NEWLINE]), depth, fmt);
    }
  }

  /** Minifying the formatted text of any tree yields exactly its unformatted text, and that text is a fixed point. */
  lemma MinifyPrinted(v: Json, fmt: bool)
    requires JsonTree.Valid(v)
    ensures Minified(Text(v, 0, fmt), 0, "") == Some(Text(v, 0, false))
  {
    hide Minified, Text, Source, Layout, Grammar.Valid, Filled, Denoted, Fill, Fills, Left, Compacted, ParsedText,
         JsonTree.Valid;
    LayoutDenotes(v, 0, fmt, Comments);
    LayoutDenotes(v, 0, fmt, Mixed);
    LayoutDenotes(v, 0, false, Comments);
    LayoutText(v, 0, fmt);
    LayoutText(v, 0, false);
    LayoutCompacted(v, 0, fmt);
    AllFill();
    StripsToCompact([], Layout(v, 0, fmt), []);
    assert "" + Text(v, 0, fmt) + "" == Text(v, 0, fmt) && "" + Text(v, 0, false) + "" == Text(v, 0, false);
  }

  lemma AllFill()
    ensures Fills([], Mixed) && Fill([]) == "" && Left([]) == []
  {}
}
