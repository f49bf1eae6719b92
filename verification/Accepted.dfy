/** Every text the parser accepts is one of the texts of the grammar: the converse of reading them. */
module Accepted {

  import opened CText
  import opened Decimal
  import opened Grammar
  import opened JsonParse
  import opened JsonString
  import opened JsonTree
  import opened Lexemes
  import opened Scanning
  import opened StringLaws

  // ----- Blanks of a text -----

  function BlanksOf(text: string, a: nat, b: nat): seq<Gap>
    requires a <= b <= |text|
  {
    if a == b then [] else BlanksOf(text, a, b - 1) + [Space(text[b - 1])]
  }

  lemma {:induction false} BlanksFill(text: string, a: nat, b: nat)
    requires a <= b <= |text|
    ensures Fill(BlanksOf(text, a, b)) == text[a..b]
  {
    if a < b {
      BlanksFill(text, a, b - 1);
      FillSnoc(BlanksOf(text, a, b - 1), Space(text[b - 1]));
      assert text[a..b] == text[a..b - 1] + [text[b - 1]];
    }
  }

  lemma {:induction false} SkippedBlank(text: string, i: nat, k: nat)
    ensures i <= |text| ==> Skipped(text, i) <= |text|
    ensures i <= k < Skipped(text, i) ==> IsBlank(At(text, k))
    decreases |text| - i
  {
    if IsBlank(At(text, i)) { SkippedBlank(text, i + 1, k); }
  }

  lemma {:induction false} BlanksAreBlank(text: string, a: nat, b: nat)
    requires a <= b <= |text| && forall k :: a <= k < b ==> IsBlank(At(text, k))
    ensures Fills(BlanksOf(text, a, b), Blanks)
  {
    if a < b {
      BlanksAreBlank(text, a, b - 1);
      assert IsBlank(At(text, b - 1));
      FillsSnoc(BlanksOf(text, a, b - 1), Space(text[b - 1]), Blanks);
    }
  }

  lemma FillsSnoc(gs: seq<Gap>, g: Gap, f: Filling)
    requires Fills(gs, f) && ValidGap(g, f)
    ensures Fills(gs + [g], f)
  {
    hide ValidGap;
  }

  /** The blanks skipped from a on. */
  lemma SkippedGaps(text: string, a: nat) returns (gs: seq<Gap>)
    requires a <= |text|
    ensures Fills(gs, Blanks) && Occurs(Fill(gs), text, a) && Skipped(text, a) == a + |Fill(gs)| <= |text|
  {
    hide BlanksOf, Fills, Fill, Skipped;
    var b := Skipped(text, a);
    SkippedBlank(text, a, a);
    forall k | a <= k < b ensures IsBlank(At(text, k)) { SkippedBlank(text, a, k); }
    gs := BlanksOf(text, a, b);
    BlanksFill(text, a, b);
    BlanksAreBlank(text, a, b);
  }

  lemma MarkOccurs(c: char, text: string, i: nat)
    requires At(text, i) == c != NUL
    ensures Occurs([c], text, i) && i < |text|
  {}

  // ----- Tokens -----

  lemma AcceptedNumber(text: string, i: nat) returns (d: Doc)
    requires (At(text, i) == '-' || IsDigit(At(text, i))) && ParsedNumber(text, i).Parsed?
    ensures Grammar.Valid(d) && Filled(d, Blanks) && Occurs(Source(d), text, i)
    ensures ParsedNumber(text, i) == Parsed(Denoted(d), i + |Source(d)|)
  {
    hide ParsedNumber, NumeralText, ValidNumeral;
    var negative, zero, m := AcceptedNumeral(text, i);
    d := Num(negative, zero, m);
  }

  // ----- Values -----

  /** What the lemmas below establish for a value at i. */
  ghost predicate Derives(d: Doc, text: string, i: nat) {
    && Grammar.Valid(d) && Filled(d, Blanks) && Occurs(Source(d), text, i)
    && ParsedValue(text, i) == Parsed(Denoted(d), i + |Source(d)|)
  }

  lemma {:induction false} AcceptedValue(text: string, i: nat) returns (d: Doc)
    requires ParsedValue(text, i).Parsed? && ClosedAt(text, i)
    ensures Derives(d, text, i)
    decreases |text| - i, 1
  {
    hide ParsedString, ParsedNumber, ParsedArray, ParsedObject, Unescape, Occurs, ValidTokens, ValidNumeral,
         Literal, LitBytes;
    if Occurs("null", text, i) {
      d := Word(Null);
    } else if Occurs("false", text, i) {
      d := Word(False);
    } else if Occurs("true", text, i) {
      d := Word(True);
    } else if At(text, i) == '\"' {
      var l := AcceptedLiteral(text, i);
      d := Str(l);
    } else if At(text, i) == '-' || IsDigit(At(text, i)) {
      d := AcceptedNumber(text, i);
    } else if At(text, i) == '[' {
      d := AcceptedArray(text, i);
    } else {
      d := AcceptedObject(text, i);
    }
  }

  lemma {:induction false} AcceptedArray(text: string, i: nat) returns (d: Doc)
    requires At(text, i) == '[' && ParsedArray(text, i).Parsed?
    ensures Grammar.Valid(d) && Filled(d, Blanks) && Occurs(Source(d), text, i)
    ensures ParsedArray(text, i) == Parsed(Denoted(d), i + |Source(d)|)
    decreases |text| - i, 0
  {
    hide Skipped, Occurs, Fill, Fills, DocsSource, ParsedItems;
    MarkOccurs('[', text, i);
    var open := SkippedGaps(text, i + 1);
    var j := Skipped(text, i + 1);
    var docs := NoDoc;
    NoDocsSource();
    SkipTwice(text, i + 1);
    if At(text, j) != ']' {
      docs := AcceptedItems(text, j);
    }
    d := Arr(open, docs);
    var body := DocsSource(docs);
    MarkOccurs(']', text, j + |body|);
    NothingOccurs(text, j);
    Wrapped("[", Fill(open), body, "]", text, i);
  }

  lemma NothingOccurs(text: string, i: nat)
    requires i <= |text|
    ensures Occurs("", text, i)
  {}

  lemma Wrapped(a: string, b: string, c: string, d: string, text: string, i: nat)
    requires Occurs(a, text, i) && Occurs(b, text, i + |a|) && Occurs(c, text, i + |a| + |b|)
    requires Occurs(d, text, i + |a| + |b| + |c|)
    ensures Occurs(a + b + c + d, text, i)
  {
    hide Occurs;
    OccursJoin(a, b, text, i);
    OccursJoin(a + b, c, text, i);
    OccursJoin(a + b + c, d, text, i);
  }

  /** Behind an accepted element stands a comma or the closing mark, so its literal was closed. */
  lemma ClosedElement(text: string, i: nat)
    requires ParsedValue(text, i).Parsed?
    requires var c := At(text, Skipped(text, ParsedValue(text, i).end)); c != NUL
    ensures ClosedAt(text, i)
  {
    hide Unescape, InStep;
    if At(text, i) == '\"' {
      NotKeyword(text, i);
      UnescapeStops(text, i + 1, "");
    }
  }

  lemma {:induction false} UnescapeStops(text: string, i: nat, acc: string)
    ensures var c := At(text, Unescape(text, i, acc).1); c == NUL || c == '\"'
    decreases |text| - i
  {
    hide ReadEscape;
    var c := At(text, i);
    if c != NUL && c != '\"' {
      if c != '\\' {
        UnescapeStops(text, i + 1, acc + [c]);
      } else {
        UnescapeStops(text, ReadEscape(text, i).next, acc + ReadEscape(text, i).bytes);
      }
    }
  }

  /** The blanks in front of the first element. */
  lemma DocsBefore(ds: Docs, gs: seq<Gap>, text: string, i: nat)
    requires ds.Doc? && ds.before == [] && ValidDocs(ds) && FilledDocs(ds, Blanks)
    requires Fills(gs, Blanks) && Occurs(Fill(gs), text, i) && Occurs(DocsSource(ds), text, i + |Fill(gs)|)
    ensures var dt := ds.(before := gs);
            && ValidDocs(dt) && FilledDocs(dt, Blanks) && DenotedItems(dt) == DenotedItems(ds)
            && Occurs(DocsSource(dt), text, i) && |DocsSource(dt)| == |Fill(gs)| + |DocsSource(ds)|
  {
    hide Occurs, Fill, Fills, Source, Grammar.Valid, Filled, Denoted;
    NoFill();
    var rest := Fill(ds.after) + (if ds.next.Doc? then "," + DocsSource(ds.next) else "");
    assert DocsSource(ds) == Source(ds.doc) + rest;
    assert DocsSource(ds.(before := gs)) == Fill(gs) + (Source(ds.doc) + rest);
    OccursJoin(Fill(gs), DocsSource(ds), text, i);
  }

  /** The items from i on up to the closing bracket. */
  ghost predicate DerivesItems(ds: Docs, text: string, i: nat) {
    && ds.Doc? && ds.before == [] && ValidDocs(ds) && FilledDocs(ds, Blanks)
    && Occurs(DocsSource(ds), text, i) && At(text, i + |DocsSource(ds)|) == ']'
    && ParsedItems(text, i) == Parsed(DenotedItems(ds), i + |DocsSource(ds)| + 1)
  }

  lemma {:induction false} AcceptedItems(text: string, i: nat) returns (ds: Docs)
    requires ParsedItems(text, i).Parsed?
    ensures DerivesItems(ds, text, i)
    decreases |text| - i, 2
  {
    hide Skipped, Occurs, Fill, Fills, ParsedValue, ClosedAt, Source, DocsSource, Grammar.Valid, Filled, Denoted, At;
    ClosedElement(text, i);
    var d := AcceptedValue(text, i);
    var e := i + |Source(d)|;
    SourceInside(d, text, i);
    var after := SkippedGaps(text, e);
    var k := Skipped(text, e);
    var next := NoDoc;
    if At(text, k) == ',' {
      MarkOccurs(',', text, k);
      var gs := SkippedGaps(text, k + 1);
      var rest := AcceptedItems(text, Skipped(text, k + 1));
      DocsBefore(rest, gs, text, k + 1);
      next := rest.(before := gs);
    }
    ds := Doc([], d, after, next);
    NoFill();
    BuiltDocs(ds, text, i);
    assert ValidDocs(ds) && FilledDocs(ds, Blanks);
    assert At(text, i + |DocsSource(ds)|) == ']';
    assert ParsedItems(text, i) == Parsed(DenotedItems(ds), i + |DocsSource(ds)| + 1);
  }

  lemma SourceInside(d: Doc, text: string, i: nat)
    requires Grammar.Valid(d) && Occurs(Source(d), text, i)
    ensures i + |Source(d)| <= |text|
  {}

  /** The text of an element put together. */
  lemma BuiltDocs(ds: Docs, text: string, i: nat)
    requires ds.Doc? && ds.before == [] && ValidDocs(ds)
    requires Occurs(Source(ds.doc), text, i) && Occurs(Fill(ds.after), text, i + |Source(ds.doc)|)
    requires var k := i + |Source(ds.doc)| + |Fill(ds.after)|;
             ds.next.Doc? ==> At(text, k) == ',' && Occurs(DocsSource(ds.next), text, k + 1)
    ensures Occurs(DocsSource(ds), text, i)
    ensures var k := i + |Source(ds.doc)| + |Fill(ds.after)|;
            i + |DocsSource(ds)| == if ds.next.Doc? then k + 1 + |DocsSource(ds.next)| else k
  {
    hide Occurs, Fill, Source, Grammar.Valid;
    NoFill();
    var s, a, k := Source(ds.doc), Fill(ds.after), i + |Source(ds.doc)| + |Fill(ds.after)|;
    OccursJoin(s, a, text, i);
    if ds.next.Doc? {
      MarkOccurs(',', text, k);
      OccursJoin(",", DocsSource(ds.next), text, k);
      OccursJoin(s + a, "," + DocsSource(ds.next), text, i);
      assert DocsSource(ds) == s + a + ("," + DocsSource(ds.next));
    } else {
      assert DocsSource(ds) == s + a;
    }
  }

  // ----- Objects -----

  lemma PairsBefore(ps: Pairs, gs: seq<Gap>, text: string, i: nat)
    requires ps.Pair? && ps.before == [] && ValidPairs(ps) && FilledPairs(ps, Blanks)
    requires Fills(gs, Blanks) && Occurs(Fill(gs), text, i) && Occurs(PairsSource(ps), text, i + |Fill(gs)|)
    ensures var pt := ps.(before := gs);
            && ValidPairs(pt) && FilledPairs(pt, Blanks) && DenotedMembers(pt) == DenotedMembers(ps)
            && Occurs(PairsSource(pt), text, i) && |PairsSource(pt)| == |Fill(gs)| + |PairsSource(ps)|
  {
    hide Occurs, Fill, Fills, Source, Grammar.Valid, Filled, Denoted, ValidTokens, Literal, LitBytes;
    NoFill();
    var head := Literal(ps.name) + Fill(ps.mid) + ":" + Fill(ps.gap);
    var rest := Fill(ps.after) + (if ps.next.Pair? then "," + PairsSource(ps.next) else "");
    assert PairHead(ps) == head;
    assert PairHead(ps.(before := gs)) == Fill(gs) + head;
    assert PairsSource(ps) == head + Source(ps.doc) + rest;
    assert PairsSource(ps.(before := gs)) == Fill(gs) + (head + Source(ps.doc) + rest);
    OccursJoin(Fill(gs), PairsSource(ps), text, i);
  }

  ghost predicate DerivesMembers(ps: Pairs, text: string, i: nat) {
    && ps.Pair? && ps.before == [] && ValidPairs(ps) && FilledPairs(ps, Blanks)
    && Occurs(PairsSource(ps), text, i) && At(text, i + |PairsSource(ps)|) == '}'
    && ParsedMembers(text, i) == Parsed(DenotedMembers(ps), i + |PairsSource(ps)| + 1)
  }

  lemma {:induction false} AcceptedObject(text: string, i: nat) returns (d: Doc)
    requires At(text, i) == '{' && ParsedObject(text, i).Parsed?
    ensures Grammar.Valid(d) && Filled(d, Blanks) && Occurs(Source(d), text, i)
    ensures ParsedObject(text, i) == Parsed(Denoted(d), i + |Source(d)|)
    decreases |text| - i, 0
  {
    hide Skipped, Occurs, Fill, Fills, PairsSource, ParsedMembers;
    MarkOccurs('{', text, i);
    var open := SkippedGaps(text, i + 1);
    var j := Skipped(text, i + 1);
    var pairs := NoPair;
    NoPairsSource();
    SkipTwice(text, i + 1);
    if At(text, j) != '}' {
      pairs := AcceptedMembers(text, j);
    }
    d := Obj(open, pairs);
    var body := PairsSource(pairs);
    MarkOccurs('}', text, j + |body|);
    NothingOccurs(text, j);
    Wrapped("{", Fill(open), body, "}", text, i);
  }

  /** Name, colon and the blanks around it. */
  lemma AcceptedHead(text: string, i: nat) returns (ps: Pairs)
    requires ParsedString(text, i).Parsed? && At(text, Skipped(text, ParsedString(text, i).end)) == ':'
    ensures ps.Pair? && ps.before == [] && ValidTokens(ps.name) && Fills(ps.mid, Blanks) && Fills(ps.gap, Blanks)
    ensures ParsedString(text, i) == Parsed(LitBytes(ps.name), i + |Literal(ps.name)|)
    ensures Occurs(PairHead(ps), text, i) && i < i + |PairHead(ps)| <= |text|
    ensures Skipped(text, Skipped(text, ParsedString(text, i).end) + 1) == i + |PairHead(ps)|
  {
    hide Skipped, Occurs, Fill, Fills, Unescape, InStep, ValidTokens, Literal, LitBytes;
    ClosedName(text, i);
    var l := AcceptedLiteral(text, i);
    var e := i + |Literal(l)|;
    LiteralInside(l, text, i);
    var mid := SkippedGaps(text, e);
    var k := Skipped(text, e);
    MarkOccurs(':', text, k);
    var gap := SkippedGaps(text, k + 1);
    ps := Grammar.Pair([], l, mid, gap, Word(Null), [], NoPair);
    Wrapped(Literal(l), Fill(mid), ":", Fill(gap), text, i);
    NoFill();
    assert PairHead(ps) == Literal(l) + Fill(mid) + ":" + Fill(gap);
  }

  lemma ClosedName(text: string, i: nat)
    requires ParsedString(text, i).Parsed? && At(text, Skipped(text, ParsedString(text, i).end)) == ':'
    ensures At(text, i) == '\"' && ClosedAt(text, i)
  {
    hide Unescape, InStep;
    UnescapeStops(text, i + 1, "");
  }

  lemma LiteralInside(l: seq<Token>, text: string, i: nat)
    requires ValidTokens(l) && Occurs(Literal(l), text, i)
    ensures i + |Literal(l)| <= |text|
  {}

  lemma {:induction false} AcceptedMembers(text: string, i: nat) returns (ps: Pairs)
    requires ParsedMembers(text, i).Parsed?
    ensures DerivesMembers(ps, text, i)
    decreases |text| - i, 2
  {
    hide Skipped, Occurs, Fill, Fills, ParsedValue, ParsedString, ClosedAt, Source, PairsSource, Grammar.Valid, Filled,
         Denoted, At, ValidTokens, Literal, LitBytes, PairHead;
    var h := AcceptedHead(text, i);
    var j := i + |PairHead(h)|;
    ClosedElement(text, j);
    var d := AcceptedValue(text, j);
    var e := j + |Source(d)|;
    SourceInside(d, text, j);
    var after := SkippedGaps(text, e);
    var k := Skipped(text, e);
    var next := NoPair;
    if At(text, k) == ',' {
      MarkOccurs(',', text, k);
      var gs := SkippedGaps(text, k + 1);
      var rest := AcceptedMembers(text, Skipped(text, k + 1));
      PairsBefore(rest, gs, text, k + 1);
      next := rest.(before := gs);
    }
    ps := Grammar.Pair([], h.name, h.mid, h.gap, d, after, next);
    SameHead(h, ps);
    NoFill();
    BuiltPairs(ps, text, i);
    assert ValidPairs(ps) && FilledPairs(ps, Blanks);
    assert At(text, i + |PairsSource(ps)|) == '}';
    assert ParsedMembers(text, i) == Parsed(DenotedMembers(ps), i + |PairsSource(ps)| + 1);
  }

  lemma SameHead(h: Pairs, ps: Pairs)
    requires h.Pair? && ps.Pair? && ValidTokens(h.name)
    requires ps.before == h.before && ps.name == h.name && ps.mid == h.mid && ps.gap == h.gap
    ensures PairHead(ps) == PairHead(h)
  {}

  lemma BuiltPairs(ps: Pairs, text: string, i: nat)
    requires ps.Pair? && ValidPairs(ps) && Occurs(PairHead(ps), text, i)
    requires Occurs(Source(ps.doc), text, i + |PairHead(ps)|)
    requires Occurs(Fill(ps.after), text, i + |PairHead(ps)| + |Source(ps.doc)|)
    requires var k := i + |PairHead(ps)| + |Source(ps.doc)| + |Fill(ps.after)|;
             ps.next.Pair? ==> At(text, k) == ',' && Occurs(PairsSource(ps.next), text, k + 1)
    ensures Occurs(PairsSource(ps), text, i)
    ensures var k := i + |PairHead(ps)| + |Source(ps.doc)| + |Fill(ps.after)|;
            i + |PairsSource(ps)| == if ps.next.Pair? then k + 1 + |PairsSource(ps.next)| else k
  {
    hide Occurs, Fill, Source, Grammar.Valid, PairHead, ValidTokens;
    var h, s, a := PairHead(ps), Source(ps.doc), Fill(ps.after);
    var k := i + |h| + |s| + |a|;
    OccursJoin(h, s, text, i);
    OccursJoin(h + s, a, text, i);
    if ps.next.Pair? {
      MarkOccurs(',', text, k);
      OccursJoin(",", PairsSource(ps.next), text, k);
      OccursJoin(h + s + a, "," + PairsSource(ps.next), text, i);
      assert PairsSource(ps) == h + s + a + ("," + PairsSource(ps.next));
    } else {
      assert PairsSource(ps) == h + s + a;
    }
  }

  // ----- Whole texts -----

  /** A text accepted to its end, whose literals are all closed, is a text of the grammar; reading those texts
      is the converse. */
  lemma AcceptedText(text: string) returns (before: seq<Gap>, d: Doc, after: seq<Gap>)
    requires NulFree(text) && ParsedText(text, true).Parsed? && ClosedAt(text, Skipped(text, 0))
    ensures Fills(before, Blanks) && Grammar.Valid(d) && Filled(d, Blanks) && Fills(after, Blanks)
    ensures text == Fill(before) + Source(d) + Fill(after)
    ensures ParsedText(text, true) == Parsed(Denoted(d), |text|)
  {
    hide Skipped, Fill, Fills, ParsedValue, ClosedAt, Source, Grammar.Valid, Filled, Denoted, NulFree, Occurs;
    before := SkippedGaps(text, 0);
    var i := Skipped(text, 0);
    d := AcceptedValue(text, i);
    var e := i + |Source(d)|;
    SourceInside(d, text, i);
    after := SkippedGaps(text, e);
    AtEnd(text, Skipped(text, e));
    ThreeParts(Fill(before), Source(d), Fill(after), text);
  }

  lemma AtEnd(text: string, k: nat)
    requires NulFree(text) && k <= |text| && At(text, k) == NUL
    ensures k == |text|
  {}

  lemma ThreeParts(a: string, b: string, c: string, text: string)
    requires Occurs(a, text, 0) && Occurs(b, text, |a|) && Occurs(c, text, |a| + |b|) && |text| == |a| + |b| + |c|
    ensures text == a + b + c
  {
    assert text == text[0..|a|] + text[|a|..|a| + |b|] + text[|a| + |b|..|a| + |b| + |c|];
  }
}
