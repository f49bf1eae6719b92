/** Every JSON text of RFC 8259 with integer numbers is parsed to the value it denotes, and so is every text
    that takes the liberties the C code allows. */
module Grammar {

  import opened CText
  import opened Decimal
  import opened JsonParse
  import opened JsonString
  import opened JsonTree
  import opened Lexemes
  import opened Scanning
  import opened StringLaws

  // ----- What may stand between the tokens -----

  datatype Gap = Space(c: char) | Line(body: string) | Block(body: string)

  function GapText(g: Gap): string {
    match g
    case Space(c) => [c]
    case Line(body) => "//" + body + "\n"
    case Block(body) => "/*" + body + "*/"
  }

  function GapsText(gs: seq<Gap>, n: nat): string
    requires n <= |gs|
  {
    if n == 0 then "" else GapsText(gs, n - 1) + GapText(gs[n - 1])
  }

  function Fill(gs: seq<Gap>): string {
    GapsText(gs, |gs|)
  }

  /** Blanks as the parser skips them, blanks and comments as the minifier strips them, or any of these. */
  datatype Filling = Blanks | Comments | Mixed

  /** A block comment must not start with a slash: the C code takes the first three characters for all of it. */
  ghost predicate ValidGap(g: Gap, f: Filling) {
    match g
    case Space(c) => if f.Comments? then c == ' ' || c == '\t' || c == '\r' || c == '\n' else IsBlank(c)
    case Line(body) => !f.Blanks? && NulFree(body) && '\n' !in body
    case Block(body) => !f.Blanks? && NulFree(body) && NoEnd(body) && (body == "" || body[0] != '/')
  }

  ghost predicate NoEnd(body: string) {
    forall k :: 0 <= k < |body| - 1 ==> body[k] != '*' || body[k + 1] != '/'
  }

  ghost predicate Fills(gs: seq<Gap>, f: Filling) {
    forall k :: 0 <= k < |gs| ==> ValidGap(gs[k], f)
  }

  lemma {:induction false} TakeText(gs: seq<Gap>, g: Gap, n: nat)
    requires n <= |gs|
    ensures GapsText(gs + [g], n) == GapsText(gs, n)
  {
    hide GapText;
    if n > 0 { TakeText(gs, g, n - 1); }
  }

  lemma FillSnoc(gs: seq<Gap>, g: Gap)
    ensures Fill(gs + [g]) == Fill(gs) + GapText(g)
  {
    TakeText(gs, g, |gs|);
  }

  lemma {:induction false} BlankFill(gs: seq<Gap>, n: nat)
    requires n <= |gs| && Fills(gs, Blanks)
    ensures AllBlank(GapsText(gs, n))
  {
    if n > 0 { BlankFill(gs, n - 1); }
  }

  // ----- Texts as derivations: all the blanks, escapes and signs the grammar allows -----

  datatype Doc =
    | Word(word: Json)
    | Num(negative: bool, zero: bool, m: nat)
    | Str(lit: seq<Token>)
    | Arr(open: seq<Gap>, docs: Docs)
    | Obj(open: seq<Gap>, pairs: Pairs)

  /** Each element with the blanks around it. */
  datatype Docs = NoDoc | Doc(before: seq<Gap>, doc: Doc, after: seq<Gap>, next: Docs)

  datatype Pairs =
    | NoPair
    | Pair(before: seq<Gap>, name: seq<Token>, mid: seq<Gap>, gap: seq<Gap>, doc: Doc, after: seq<Gap>, next: Pairs)

  ghost predicate Valid(d: Doc) {
    match d
    case Word(v) => v.Null? || v.False? || v.True?
    case Num(negative, zero, m) => ValidNumeral(negative, zero, m)
    case Str(lit) => ValidTokens(lit)
    case Arr(_, docs) => ValidDocs(docs)
    case Obj(_, pairs) => ValidPairs(pairs)
  }

  ghost predicate ValidDocs(ds: Docs) {
    ds.Doc? ==> Valid(ds.doc) && ValidDocs(ds.next)
  }

  ghost predicate ValidPairs(ps: Pairs) {
    ps.Pair? ==> ValidTokens(ps.name) && Valid(ps.doc) && ValidPairs(ps.next)
  }

  /** Everything between the tokens of d is filled in that way. */
  ghost predicate Filled(d: Doc, f: Filling) {
    match d
    case Arr(open, docs) => Fills(open, f) && FilledDocs(docs, f)
    case Obj(open, pairs) => Fills(open, f) && FilledPairs(pairs, f)
    case _ => true
  }

  ghost predicate FilledDocs(ds: Docs, f: Filling) {
    ds.Doc? ==> Fills(ds.before, f) && Filled(ds.doc, f) && Fills(ds.after, f) && FilledDocs(ds.next, f)
  }

  ghost predicate FilledPairs(ps: Pairs, f: Filling) {
    ps.Pair? ==>
      && Fills(ps.before, f) && Fills(ps.mid, f) && Fills(ps.gap, f)
      && Filled(ps.doc, f) && Fills(ps.after, f) && FilledPairs(ps.next, f)
  }

  /** Numbers and literals are those of RFC 8259: no missing digits, no leading zero, no malformed escape. With gaps
      that fill both as blanks and as comments, which are its four blanks, the text is one of the RFC. */
  ghost predicate Standard(d: Doc) {
    match d
    case Word(_) => true
    case Num(_, zero, m) => zero <==> m == 0
    case Str(lit) => StandardLit(lit)
    case Arr(_, docs) => StandardDocs(docs)
    case Obj(_, pairs) => StandardPairs(pairs)
  }

  ghost predicate StandardDocs(ds: Docs) {
    ds.Doc? ==> Standard(ds.doc) && StandardDocs(ds.next)
  }

  ghost predicate StandardPairs(ps: Pairs) {
    ps.Pair? ==> StandardLit(ps.name) && Standard(ps.doc) && StandardPairs(ps.next)
  }

  ghost function Source(d: Doc): string
    requires Valid(d)
  {
    match d
    case Word(v) => Text(v, 0, false)
    case Num(negative, zero, m) => NumeralText(negative, zero, m)
    case Str(lit) => Literal(lit)
    case Arr(open, docs) => "[" + Fill(open) + DocsSource(docs) + "]"
    case Obj(open, pairs) => "{" + Fill(open) + PairsSource(pairs) + "}"
  }

  ghost function DocsSource(ds: Docs): string
    requires ValidDocs(ds)
  {
    if ds.NoDoc? then ""
    else Fill(ds.before) + Source(ds.doc) + Fill(ds.after) + (if ds.next.Doc? then "," + DocsSource(ds.next) else "")
  }

  ghost function PairsSource(ps: Pairs): string
    requires ValidPairs(ps)
  {
    if ps.NoPair? then ""
    else PairHead(ps) + Source(ps.doc) + Fill(ps.after) + (if ps.next.Pair? then "," + PairsSource(ps.next) else "")
  }

  ghost function PairHead(ps: Pairs): string
    requires ps.Pair? && ValidTokens(ps.name)
  {
    Fill(ps.before) + Literal(ps.name) + Fill(ps.mid) + ":" + Fill(ps.gap)
  }

  // ----- What a text denotes -----

  ghost function Denoted(d: Doc): Json
    requires Valid(d)
  {
    match d
    case Word(v) => v
    case Num(negative, _, m) => Number(Signed(negative, m))
    case Str(lit) => String(LitBytes(lit))
    case Arr(_, docs) => Array(DenotedItems(docs))
    case Obj(_, pairs) => Object(DenotedMembers(pairs))
  }

  ghost function DenotedItems(ds: Docs): Items
    requires ValidDocs(ds)
  {
    if ds.NoDoc? then NoItem else Item(Denoted(ds.doc), DenotedItems(ds.next))
  }

  ghost function DenotedMembers(ps: Pairs): Members
    requires ValidPairs(ps)
  {
    if ps.NoPair? then NoMember
    else Member(LitBytes(ps.name), Denoted(ps.doc), DenotedMembers(ps.next))
  }

  // ----- Delimiters -----

  lemma FillSkipped(gs: seq<Gap>, text: string, i: nat)
    requires Fills(gs, Blanks) && Occurs(Fill(gs), text, i)
    ensures Skipped(text, i) == Skipped(text, i + |Fill(gs)|)
    ensures Fill(gs) != "" ==> IsBlank(At(text, i))
  {
    hide Skipped, Fills, GapsText, Occurs;
    BlankFill(gs, |gs|);
    SkipBlanks(Fill(gs), text, i);
    if Fill(gs) != "" { OccursAt(Fill(gs), text, i, 0); }
  }

  lemma NoFill()
    ensures Fill([]) == "" && Fills([], Blanks) && Fills([], Comments)
  {}

  /** What follows blanks and a mark. */
  lemma BlanksThenMark(gs: seq<Gap>, text: string, i: nat)
    requires Fills(gs, Blanks) && Occurs(Fill(gs), text, i) && !IsBlank(At(text, i + |Fill(gs)|))
    ensures Skipped(text, i) == i + |Fill(gs)|
    ensures !Continues(At(text, i + |Fill(gs)|)) ==> !Continues(At(text, i))
  {
    hide Skipped, Fills, GapsText, Fill;
    FillSkipped(gs, text, i);
    SkipNothing(text, i + |Fill(gs)|);
  }

  /** No value starts with a blank, the terminator or a closing bracket. */
  lemma SourceStarts(d: Doc, text: string, i: nat)
    requires Valid(d) && Occurs(Source(d), text, i)
    ensures !IsBlank(At(text, i)) && At(text, i) != ']'
  {
    hide Occurs, Fills, ValidDocs, ValidPairs, ValidTokens, LiteralText, ParsedNumber, InStep, Unescape,
         DocsSource, PairsSource;
    if d.Num? { NumeralStarts(d.negative, d.zero, d.m); }
    OccursAt(Source(d), text, i, 0);
  }

  lemma NumeralStarts(negative: bool, zero: bool, m: nat)
    requires negative || zero || m > 0
    ensures var s := NumeralText(negative, zero, m); s != "" && (s[0] == '-' || IsDigit(s[0]))
  {
    OfNatDigits(m, 0);
  }

  // ----- The parser reads every text -----

  lemma {:induction false} SourceReads(d: Doc, text: string, i: nat)
    requires Valid(d) && Filled(d, Blanks) && Occurs(Source(d), text, i) && !Continues(At(text, i + |Source(d)|))
    ensures ParsedValue(text, i) == Parsed(Denoted(d), i + |Source(d)|)
    decreases d, 1
  {
    hide ParsedString, ParsedNumber, ParsedArray, ParsedObject, Literal, LitBytes, NumeralText, Fills,
         ValidTokens, ValidNumeral, At, Fill, GapsText;
    match d
    case Word(v) => WordReads(v, text, i);
    case Num(negative, zero, m) =>
      NumeralReads(negative, zero, m, text, i);
      NumberStart(text, i);
    case Str(lit) =>
      LitReads(lit, text, i);
      NotKeyword(text, i);
    case Arr(open, docs) =>
      ArrReads(open, docs, text, i);
      NotKeyword(text, i);
    case Obj(open, pairs) =>
      ObjReads(open, pairs, text, i);
      NotKeyword(text, i);
  }

  lemma WordReads(v: Json, text: string, i: nat)
    requires (v.Null? || v.False? || v.True?) && Occurs(Text(v, 0, false), text, i)
    ensures ParsedValue(text, i) == Parsed(v, i + |Text(v, 0, false)|)
  {
    hide Occurs;
    Keywords(text, i);
  }

  lemma NumberStart(text: string, i: nat)
    requires At(text, i) == '-' || IsDigit(At(text, i))
    ensures At(text, i) != '\"'
    ensures !Occurs("null", text, i) && !Occurs("false", text, i) && !Occurs("true", text, i)
  {
    NotKeyword(text, i);
  }

  /** The parts of a bracketed text. */
  lemma Bracketed(left: string, open: string, body: string, right: string, text: string, i: nat)
    requires |left| == 1 && |right| == 1 && Occurs(left + open + body + right, text, i)
    ensures At(text, i) == left[0] && Occurs(open, text, i + 1) && Occurs(body, text, i + 1 + |open|)
    ensures At(text, i + 1 + |open| + |body|) == right[0]
  {
    hide Occurs;
    OccursSplit(left + open + body, right, text, i);
    OccursSplit(left + open, body, text, i);
    OccursSplit(left, open, text, i);
    OccursAt(left, text, i, 0);
    OccursAt(right, text, i + 1 + |open| + |body|, 0);
  }

  lemma {:induction false} ArrReads(open: seq<Gap>, docs: Docs, text: string, i: nat)
    requires Fills(open, Blanks) && ValidDocs(docs) && FilledDocs(docs, Blanks)
    requires Occurs("[" + Fill(open) + DocsSource(docs) + "]", text, i)
    ensures At(text, i) == '['
    ensures ParsedArray(text, i) == Parsed(Array(DenotedItems(docs)), i + |Fill(open)| + |DocsSource(docs)| + 2)
    decreases docs, 2
  {
    hide Skipped, Occurs, ParsedItems, Fills, DocsSource, Fill, GapsText;
    var body := DocsSource(docs);
    Bracketed("[", Fill(open), body, "]", text, i);
    var j := i + 1 + |Fill(open)|;
    FillSkipped(open, text, i + 1);
    if docs.NoDoc? {
      NoDocsSource();
      SkipNothing(text, j);
    } else {
      DocsStart(docs, text, j);
      SkipTwice(text, j);
      DocsRead(docs, text, j);
    }
  }

  lemma FourParts(a: string, b: string, c: string, d: string, text: string, i: nat)
    requires Occurs(a + b + c + d, text, i)
    ensures Occurs(a, text, i) && Occurs(b, text, i + |a|) && Occurs(c, text, i + |a| + |b|)
    ensures Occurs(d, text, i + |a| + |b| + |c|)
  {
    hide Occurs;
    OccursSplit(a + b + c, d, text, i);
    OccursSplit(a + b, c, text, i);
    OccursSplit(a, b, text, i);
  }

  lemma CommaThen(rest: string, text: string, i: nat)
    requires Occurs("," + rest, text, i)
    ensures At(text, i) == ',' && Occurs(rest, text, i + 1)
  {
    hide Occurs;
    OccursSplit(",", rest, text, i);
    OccursAt(",", text, i, 0);
  }

  lemma DocsParts(ds: Docs, text: string, i: nat)
    requires ds.Doc? && ValidDocs(ds) && Occurs(DocsSource(ds), text, i)
    ensures Occurs(Fill(ds.before), text, i)
    ensures var j := i + |Fill(ds.before)|;
            var e := j + |Source(ds.doc)|;
            var k := e + |Fill(ds.after)|;
            && Occurs(Source(ds.doc), text, j) && Occurs(Fill(ds.after), text, e)
            && (ds.next.NoDoc? ==> k == i + |DocsSource(ds)|)
            && (ds.next.Doc? ==> At(text, k) == ',' && Occurs(DocsSource(ds.next), text, k + 1)
                                 && k + 1 + |DocsSource(ds.next)| == i + |DocsSource(ds)|)
  {
    hide Occurs, Source, Valid, Fill, Fills, GapsText;
    var body := Source(ds.doc);
    var more := if ds.next.Doc? then "," + DocsSource(ds.next) else "";
    FourParts(Fill(ds.before), body, Fill(ds.after), more, text, i);
    if ds.next.Doc? { CommaThen(DocsSource(ds.next), text, i + |Fill(ds.before)| + |body| + |Fill(ds.after)|); }
  }

  lemma DocsStart(ds: Docs, text: string, i: nat)
    requires ds.Doc? && ValidDocs(ds) && FilledDocs(ds, Blanks) && Occurs(DocsSource(ds), text, i)
    ensures Skipped(text, i) == i + |Fill(ds.before)| && At(text, Skipped(text, i)) != ']'
  {
    hide Skipped, Occurs, Source, DocsSource, Fills, Fill, GapsText;
    DocsParts(ds, text, i);
    SourceStarts(ds.doc, text, i + |Fill(ds.before)|);
    BlanksThenMark(ds.before, text, i);
  }

  lemma {:induction false} DocsRead(ds: Docs, text: string, i: nat)
    requires ds.Doc? && ValidDocs(ds) && FilledDocs(ds, Blanks) && Occurs(DocsSource(ds), text, i)
    requires At(text, i + |DocsSource(ds)|) == ']'
    ensures ParsedItems(text, Skipped(text, i)) == Parsed(DenotedItems(ds), i + |DocsSource(ds)| + 1)
    decreases ds, 1
  {
    hide Skipped, Occurs, Source, DocsSource, Fills, ParsedValue, Fill, GapsText;
    DocsParts(ds, text, i);
    DocsStart(ds, text, i);
    var j := i + |Fill(ds.before)|;
    var e := j + |Source(ds.doc)|;
    var k := e + |Fill(ds.after)|;
    BlanksThenMark(ds.after, text, e);
    SourceReads(ds.doc, text, j);
    if ds.next.Doc? { DocsRead(ds.next, text, k + 1); }
  }

  lemma {:induction false} ObjReads(open: seq<Gap>, pairs: Pairs, text: string, i: nat)
    requires Fills(open, Blanks) && ValidPairs(pairs) && FilledPairs(pairs, Blanks)
    requires Occurs("{" + Fill(open) + PairsSource(pairs) + "}", text, i)
    ensures At(text, i) == '{'
    ensures ParsedObject(text, i) == Parsed(Object(DenotedMembers(pairs)), i + |Fill(open)| + |PairsSource(pairs)| + 2)
    decreases pairs, 2
  {
    hide Skipped, Occurs, ParsedMembers, Fills, ParsedString, PairsSource, Literal, LitBytes, PairHead,
         Fill, GapsText;
    var body := PairsSource(pairs);
    Bracketed("{", Fill(open), body, "}", text, i);
    var j := i + 1 + |Fill(open)|;
    FillSkipped(open, text, i + 1);
    if pairs.NoPair? {
      NoPairsSource();
      SkipNothing(text, j);
    } else {
      PairsStart(pairs, text, j);
      HeadRead(pairs, text, j);
      SkipTwice(text, j);
      PairsRead(pairs, text, j);
    }
  }

  lemma NoPairsSource()
    ensures PairsSource(NoPair) == ""
  {}

  lemma NoDocsSource()
    ensures DocsSource(NoDoc) == ""
  {}

  lemma PairsParts(ps: Pairs, text: string, i: nat)
    requires ps.Pair? && ValidPairs(ps) && Occurs(PairsSource(ps), text, i)
    ensures Occurs(PairHead(ps), text, i)
    ensures var j := i + |PairHead(ps)|;
            var e := j + |Source(ps.doc)|;
            var k := e + |Fill(ps.after)|;
            && Occurs(Source(ps.doc), text, j) && Occurs(Fill(ps.after), text, e)
            && (ps.next.NoPair? ==> k == i + |PairsSource(ps)|)
            && (ps.next.Pair? ==> At(text, k) == ',' && Occurs(PairsSource(ps.next), text, k + 1)
                                  && k + 1 + |PairsSource(ps.next)| == i + |PairsSource(ps)|)
  {
    hide Occurs, Source, PairHead, Valid, ValidTokens, Fill, Fills, GapsText;
    var head, body := PairHead(ps), Source(ps.doc);
    var more := if ps.next.Pair? then "," + PairsSource(ps.next) else "";
    FourParts(head, body, Fill(ps.after), more, text, i);
    if ps.next.Pair? { CommaThen(PairsSource(ps.next), text, i + |head| + |body| + |Fill(ps.after)|); }
  }

  lemma HeadParts(ps: Pairs, text: string, i: nat)
    requires ps.Pair? && ValidTokens(ps.name) && Occurs(PairHead(ps), text, i)
    ensures Occurs(Fill(ps.before), text, i)
    ensures var q := i + |Fill(ps.before)|;
            var e := q + |Literal(ps.name)|;
            var k := e + |Fill(ps.mid)|;
            && Occurs(Literal(ps.name), text, q) && At(text, q) == '\"' && Occurs(Fill(ps.mid), text, e)
            && At(text, k) == ':' && Occurs(Fill(ps.gap), text, k + 1)
  {
    hide Occurs, ValidTokens, Literal, Fill, Fills, GapsText;
    var quoted := Literal(ps.name);
    LitStarts(ps.name);
    OccursSplit(Fill(ps.before) + quoted + Fill(ps.mid) + ":", Fill(ps.gap), text, i);
    OccursSplit(Fill(ps.before) + quoted + Fill(ps.mid), ":", text, i);
    OccursSplit(Fill(ps.before) + quoted, Fill(ps.mid), text, i);
    OccursSplit(Fill(ps.before), quoted, text, i);
    OccursAt(quoted, text, i + |Fill(ps.before)|, 0);
    OccursAt(":", text, i + |Fill(ps.before)| + |quoted| + |Fill(ps.mid)|, 0);
  }

  /** Name and colon of a member, and where its value starts. */
  lemma HeadRead(ps: Pairs, text: string, i: nat)
    requires ps.Pair? && ValidTokens(ps.name) && Occurs(PairHead(ps), text, i)
    requires Fills(ps.before, Blanks) && Fills(ps.mid, Blanks) && Fills(ps.gap, Blanks)
    requires !IsBlank(At(text, i + |PairHead(ps)|))
    ensures Skipped(text, i) == i + |Fill(ps.before)| && At(text, Skipped(text, i)) == '\"'
    ensures var m := i + |Fill(ps.before)| + |Literal(ps.name)|;
            && ParsedString(text, i + |Fill(ps.before)|) == Parsed(LitBytes(ps.name), m)
            && Skipped(text, m) == m + |Fill(ps.mid)| && At(text, m + |Fill(ps.mid)|) == ':'
            && Skipped(text, m + |Fill(ps.mid)| + 1) == i + |PairHead(ps)|
  {
    hide Skipped, Occurs, Fills, Literal, LitBytes, ValidTokens, ParsedString, Fill, GapsText;
    HeadParts(ps, text, i);
    var m := i + |Fill(ps.before)| + |Literal(ps.name)|;
    BlanksThenMark(ps.before, text, i);
    LitReads(ps.name, text, i + |Fill(ps.before)|);
    BlanksThenMark(ps.mid, text, m);
    BlanksThenMark(ps.gap, text, m + |Fill(ps.mid)| + 1);
  }

  lemma PairsStart(ps: Pairs, text: string, i: nat)
    requires ps.Pair? && ValidPairs(ps) && FilledPairs(ps, Blanks) && Occurs(PairsSource(ps), text, i)
    ensures ValidTokens(ps.name) && Occurs(PairHead(ps), text, i)
    ensures Fills(ps.before, Blanks) && Fills(ps.mid, Blanks) && Fills(ps.gap, Blanks)
    ensures !IsBlank(At(text, i + |PairHead(ps)|))
  {
    hide Occurs, Source, PairsSource, Fills, ValidTokens, PairHead, IsBlank, Fill, GapsText;
    PairsParts(ps, text, i);
    SourceStarts(ps.doc, text, i + |PairHead(ps)|);
  }

  lemma PairsTail(ps: Pairs, text: string, i: nat)
    requires ps.Pair? && ValidPairs(ps) && FilledPairs(ps, Blanks) && Occurs(PairsSource(ps), text, i)
    requires At(text, i + |PairsSource(ps)|) == '}'
    ensures var j := i + |PairHead(ps)|;
            var e := j + |Source(ps.doc)|;
            Occurs(Source(ps.doc), text, j) && !Continues(At(text, e)) && Skipped(text, e) == e + |Fill(ps.after)|
  {
    hide Skipped, Occurs, Source, PairsSource, Fills, PairHead, Fill, GapsText;
    PairsParts(ps, text, i);
    BlanksThenMark(ps.after, text, i + |PairHead(ps)| + |Source(ps.doc)|);
  }

  lemma {:induction false} PairsRead(ps: Pairs, text: string, i: nat)
    requires ps.Pair? && ValidPairs(ps) && FilledPairs(ps, Blanks) && Occurs(PairsSource(ps), text, i)
    requires At(text, i + |PairsSource(ps)|) == '}'
    ensures ParsedMembers(text, Skipped(text, i)) == Parsed(DenotedMembers(ps), i + |PairsSource(ps)| + 1)
    decreases ps, 1
  {
    hide Skipped, Occurs, Source, PairsSource, Fills, Literal, ValidTokens, ParsedValue, ParsedString,
         PairHead, LitBytes, Denoted, Valid, Fill, GapsText;
    PairsParts(ps, text, i);
    PairsStart(ps, text, i);
    HeadRead(ps, text, i);
    PairsTail(ps, text, i);
    var j := i + |PairHead(ps)|;
    var k := j + |Source(ps.doc)| + |Fill(ps.after)|;
    SourceReads(ps.doc, text, j);
    if ps.next.Pair? { PairsRead(ps.next, text, k + 1); }
  }

  /** A whole text with blanks around it parses to the value it denotes and, if asked for, to its end. */
  lemma TextReads(before: seq<Gap>, d: Doc, after: seq<Gap>, requireEnd: bool)
    requires Fills(before, Blanks) && Valid(d) && Filled(d, Blanks) && Fills(after, Blanks)
    ensures var text := Fill(before) + Source(d) + Fill(after);
            ParsedText(text, requireEnd) ==
            Parsed(Denoted(d), if requireEnd then |text| else |Fill(before)| + |Source(d)|)
  {
    hide Skipped, Source, Denoted, Fills, Fill, ParsedValue, Occurs, Valid, Filled;
    var text, i := Fill(before) + Source(d) + Fill(after), |Fill(before)|;
    WholeText(Fill(before), Source(d), Fill(after));
    SourceStarts(d, text, i);
    BlanksThenMark(before, text, 0);
    BlanksThenMark(after, text, i + |Source(d)|);
    SourceReads(d, text, i);
  }
}
