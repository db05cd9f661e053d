/**
 Every text a corpus result stanza can have, as syntax with its own space at each token, and the proof
 that the parser reads each of them as what it denotes.
 */
module CorpusPrinter {
  import opened Basics
  import opened Whitespace
  import opened CorpusParser

  // ----- Syntax -----

  /** A character of a quoted text: as it is, or after a backslash. */
  datatype Letter = Plain(c: char) | Escaped(c: char)

  /** Every way a stanza can spell a cell. */
  datatype Syntax =
    | NullWord
    | BoolWord(b: bool)
    | FloatWord(word: string)
    | StringLit(text: seq<Letter>, quote: char)
    | BytesLit(text: seq<Letter>, quote: char)
    | TypedLit(kind: Typed, gap: string, text: seq<Letter>, quote: char)
    | TypedBare(kind: Typed, gap: string, token: string)
    | Number(token: string)
    | Struct(slots: seq<Slot>, close: string)

  /** A cell with the space before its comma, which the first cell does not print, and before itself. */
  datatype Slot = Slot(comma: string, before: string, cell: Syntax)

  /** A row, with the space before its comma, before it, and before its closing brace. */
  datatype Line = Line(comma: string, before: string, slots: seq<Slot>, close: string)

  /** A whole stanza; `order` is the space before the order mark, if there is one. */
  datatype Stanza = Stanza(typ: string, open: string, order: Option<string>, lines: seq<Line>, close: string)

  predicate AllSkipped(g: string) {
    forall i | 0 <= i < |g| :: g[i] in {' ', '\t', '\n', '\r'}
  }

  predicate Unended(tok: string) {
    forall i | 0 <= i < |tok| :: tok[i] !in {',', '}', ']', ' ', '\n', '\t'}
  }

  predicate Fits(text: seq<Letter>, q: char) {
    forall i | 0 <= i < |text| && text[i].Plain? :: text[i].c != q && text[i].c != '\\'
  }

  predicate IsTypedQuote(q: char) {
    q == '\"' || q == '\''
  }

  predicate NumberToken(tok: string) {
    tok != "" && Unended(tok) && (IsDigit(tok[0]) || tok[0] == '-') && !("-inf" <= tok)
  }

  predicate TypedToken(tok: string) {
    Unended(tok) && (tok != "" ==> !IsSkipped(tok[0]) && !IsTypedQuote(tok[0]))
  }

  /** What each spelling must observe to be read as meant. */
  predicate WellFormed(c: Syntax)
    decreases c, 1
  {
    match c
    case NullWord => true
    case BoolWord(_) => true
    case FloatWord(word) => word in {"nan", "inf", "-inf"}
    case StringLit(text, q) => q in {'\"', '\'', '`'} && Fits(text, q)
    case BytesLit(text, q) => IsTypedQuote(q) && Fits(text, q)
    case TypedLit(_, gap, text, q) => AllSkipped(gap) && IsTypedQuote(q) && Fits(text, q)
    case TypedBare(_, gap, tok) => AllSkipped(gap) && TypedToken(tok)
    case Number(tok) => NumberToken(tok)
    case Struct(slots, close) => AllWellFormed(slots) && AllSkipped(close)
  }

  predicate AllWellFormed(slots: seq<Slot>)
    decreases slots, 0
  {
    slots == [] ||
    (&& AllSkipped(slots[0].comma) && AllSkipped(slots[0].before)
     && WellFormed(slots[0].cell) && AllWellFormed(slots[1..]))
  }

  predicate LinesWellFormed(lines: seq<Line>) {
    forall i | 0 <= i < |lines| ::
      && AllSkipped(lines[i].comma) && AllSkipped(lines[i].before)
      && AllWellFormed(lines[i].slots) && AllSkipped(lines[i].close)
  }

  predicate StanzaWellFormed(st: Stanza) {
    && Balanced(st.typ, 1) && AllSkipped(st.open) && (st.order.Some? ==> AllSkipped(st.order.value))
    && LinesWellFormed(st.lines) && AllSkipped(st.close)
  }

  /** Angle brackets that close no more than they open, at every point. */
  predicate Balanced(t: string, depth: nat) {
    if t == "" then depth == 1
    else if t[0] == '<' then Balanced(t[1..], depth + 1)
    else if t[0] == '>' then depth > 1 && Balanced(t[1..], depth - 1)
    else Balanced(t[1..], depth)
  }

  // ----- Meaning -----

  function Spelt(text: seq<Letter>): string {
    if text == [] then "" else [text[0].c] + Spelt(text[1..])
  }

  /** The word before a typed literal. */
  function Opening(ty: Typed): string {
    match ty
    case DateLit => "DATE "
    case TimestampLit => "TIMESTAMP "
    case TimeLit => "TIME "
    case DatetimeLit => "DATETIME "
  }

  /** The same word as the cell keeps it. */
  function Mark(ty: Typed): string {
    match ty
    case DateLit => "DATE:"
    case TimestampLit => "TIMESTAMP:"
    case TimeLit => "TIME:"
    case DatetimeLit => "DATETIME:"
  }

  lemma WordsAgree(ty: Typed)
    ensures Opening(ty) == Prefix(ty) && Mark(ty) == Tag(ty)
  {
  }

  function Denotes(c: Syntax): Cell
    decreases c, 1
  {
    match c
    case NullWord => Nil
    case BoolWord(b) => Flag(b)
    case FloatWord(word) => Text(word)
    case StringLit(text, _) => Text(Spelt(text))
    case BytesLit(text, _) => Text("b:" + Spelt(text))
    case TypedLit(ty, _, text, _) => Text(Mark(ty) + Spelt(text))
    case TypedBare(ty, _, tok) => Text(Mark(ty) + Trim(tok))
    case Number(tok) => Text(Trim(tok))
    case Struct(slots, _) => Nested(DenotesAll(slots))
  }

  function DenotesAll(slots: seq<Slot>): seq<Cell>
    decreases slots, 0
  {
    if slots == [] then [] else [Denotes(slots[0].cell)] + DenotesAll(slots[1..])
  }

  function DenotesLines(lines: seq<Line>): seq<seq<Cell>> {
    if lines == [] then [] else [DenotesAll(lines[0].slots)] + DenotesLines(lines[1..])
  }

  function Meaning(st: Stanza): Expected {
    Expected(st.order.Some?, DenotesLines(st.lines))
  }

  // ----- Printing -----

  function PrintLetters(text: seq<Letter>): string {
    if text == [] then "" else PrintLetter(text[0]) + PrintLetters(text[1..])
  }

  function PrintLetter(l: Letter): string {
    if l.Escaped? then ['\\', l.c] else [l.c]
  }

  function Quote(text: seq<Letter>, q: char): string {
    [q] + (PrintLetters(text) + [q])
  }

  /** What stands before a cell or a row. */
  function Lead(first: bool, comma: string, before: string): string {
    if first then before else comma + ("," + before)
  }

  function Print(c: Syntax): string
    decreases c, 1
  {
    match c
    case NullWord => "NULL"
    case BoolWord(b) => if b then "true" else "false"
    case FloatWord(word) => word
    case StringLit(text, q) => Quote(text, q)
    case BytesLit(text, q) => "b" + Quote(text, q)
    case TypedLit(ty, gap, text, q) => Opening(ty) + (gap + Quote(text, q))
    case TypedBare(ty, gap, tok) => Opening(ty) + (gap + tok)
    case Number(tok) => tok
    case Struct(slots, close) => "{" + PrintSlots(slots, close, true)
  }

  function PrintSlots(slots: seq<Slot>, close: string, first: bool): string
    decreases slots, 0
  {
    if slots == [] then close + "}"
    else Lead(first, slots[0].comma, slots[0].before) + (Print(slots[0].cell) + PrintSlots(slots[1..], close, false))
  }

  function PrintLines(lines: seq<Line>, first: bool): string {
    if lines == [] then ""
    else
      var line := lines[0];
      Lead(first, line.comma, line.before) +
      ("{" + (PrintSlots(line.slots, line.close, true) + PrintLines(lines[1..], false)))
  }

  function PrintOrder(order: Option<string>): string {
    if order.Some? then order.value + "known order:" else ""
  }

  function PrintStanza(st: Stanza): string {
    "ARRAY<" + (st.typ + (">" + (st.open + ("[" + PrintListing(st)))))
  }

  function PrintListing(st: Stanza): string {
    PrintOrder(st.order) + (PrintLines(st.lines, true) + (st.close + "]"))
  }

  // ----- Space -----

  lemma {:induction false} SkipGap(g: string, u: string)
    requires AllSkipped(g)
    ensures Skip(g + u) == Skip(u)
  {
    if g == "" {
      assert g + u == u;
    } else {
      assert (g + u)[1..] == g[1..] + u;
      SkipGap(g[1..], u);
    }
  }

  lemma Assoc(a: string, b: string, c: string)
    ensures (a + b) + c == a + (b + c)
  {
  }

  /** A word after space is taken, and what follows is left. */
  lemma TakesWord(gap: string, word: string, rest: string)
    requires AllSkipped(gap) && word != "" && !IsSkipped(word[0])
    ensures Take(gap + (word + rest), word) == Some(rest)
    ensures Take(word + rest, word) == Some(rest)
    ensures Skip(gap + (word + rest)) == Skip(word + rest) == word + rest
    ensures (word + rest)[0] == word[0]
  {
    SkipGap(gap, word + rest);
    assert (word + rest)[|word|..] == rest;
  }

  /** A word is not taken where another character comes first. */
  lemma TakesNot(t: string, word: string)
    requires word != "" && Skip(t) != "" && Skip(t)[0] != word[0]
    ensures Take(t, word) == None
  {
  }

  /** Before a cell or row: no closing brace, the comma if one is due, and then the body. */
  lemma LeadReads(first: bool, comma: string, before: string, body: string)
    requires AllSkipped(comma) && AllSkipped(before) && body != "" && !IsSkipped(body[0]) && body[0] != '}'
    ensures var t := Lead(first, comma, before) + body;
            && Take(t, "}") == None
            && Skip(before + body) == body
            && (first ==> t == before + body)
            && (!first ==> Take(t, ",") == Some(before + body) && Skip(t)[0] == ',')
  {
    var t := Lead(first, comma, before) + body;
    SkipGap(before, body);
    if !first {
      Assoc(comma, "," + before, body);
      Assoc(",", before, body);
      TakesWord(comma, ",", before + body);
    }
    TakesNot(t, "}");
  }

  /** After space, something comes that ends a bare token. */
  predicate Closed(rest: string) {
    Skip(rest) != "" && EndsToken(Skip(rest)[0])
  }

  lemma {:induction false} TokenInGap(rest: string)
    requires Closed(rest)
    ensures AllSkipped(rest[..TokenLength(rest)])
  {
    if !EndsToken(rest[0]) {
      assert IsSkipped(rest[0]);
      TokenInGap(rest[1..]);
      assert rest[..TokenLength(rest)] == [rest[0]] + rest[1..][..TokenLength(rest[1..])];
    }
  }

  lemma {:induction false} TokenExtends(tok: string, rest: string)
    requires Unended(tok)
    ensures TokenLength(tok + rest) == |tok| + TokenLength(rest)
  {
    if tok == "" {
      assert tok + rest == rest;
    } else {
      assert (tok + rest)[1..] == tok[1..] + rest;
      TokenExtends(tok[1..], rest);
    }
  }

  lemma Spliced(tok: string, gap: string, after: string)
    ensures var t := tok + (gap + after); var n := |tok| + |gap|;
            t[..n] == tok + gap && t[n..] == after
  {
  }

  /** Space after a token is trimmed with the token's own. */
  lemma TrimExtends(tok: string, gap: string)
    requires AllSkipped(gap)
    ensures Trim(tok + gap) == Trim(tok)
  {
    var w, w' := TrimShape(tok);
    assert tok + gap == w + Trim(tok) + (w' + gap);
    TrimPadded(w, Trim(tok), w' + gap);
  }

  /** A bare token reads back trimmed, though a carriage return after it is swallowed and trimmed off. */
  lemma BareReads(tok: string, rest: string)
    requires Unended(tok) && Closed(rest)
    ensures ReadBare(tok + rest).value == Trim(tok)
    ensures Skip(ReadBare(tok + rest).rest) == Skip(rest)
  {
    var n := TokenLength(rest);
    var gap, after := rest[..n], rest[n..];
    TokenInGap(rest);
    TokenExtends(tok, rest);
    Spliced(tok, gap, after);
    assert rest == gap + after;
    TrimExtends(tok, gap);
    SkipGap(gap, after);
  }

  lemma {:induction false} QuotedReads(text: seq<Letter>, q: char, rest: string)
    requires q != '\\' && Fits(text, q)
    ensures ReadQuoted(PrintLetters(text) + ([q] + rest), q) == Some(Parsed(Spelt(text), rest))
  {
    var t := PrintLetters(text) + ([q] + rest);
    if text == [] {
      assert t[0] == q && t[1..] == rest;
    } else {
      QuotedReads(text[1..], q, rest);
      LetterReads(text[0], PrintLetters(text[1..]) + ([q] + rest), q);
      Assoc(PrintLetter(text[0]), PrintLetters(text[1..]), [q] + rest);
    }
  }

  lemma LetterReads(l: Letter, tail: string, q: char)
    requires q != '\\' && (l.Plain? ==> l.c != q && l.c != '\\') && (l.Escaped? || tail != "")
    ensures ReadQuoted(PrintLetter(l) + tail, q) == Before(l.c, ReadQuoted(tail, q))
  {
    var t := PrintLetter(l) + tail;
    assert l.Escaped? ==> t[0] == '\\' && t[1] == l.c && t[2..] == tail;
    assert l.Plain? ==> t[0] == l.c && t[1..] == tail;
  }

  lemma QuoteReads(text: seq<Letter>, q: char, rest: string)
    requires q != '\\' && Fits(text, q)
    ensures (Quote(text, q) + rest)[0] == q
    ensures ReadQuoted((Quote(text, q) + rest)[1..], q) == Some(Parsed(Spelt(text), rest))
  {
    QuotedReads(text, q, rest);
    assert (Quote(text, q) + rest)[1..] == PrintLetters(text) + ([q] + rest);
  }

  // ----- Scalars -----

  lemma WordReads(c: Syntax, rest: string)
    requires WellFormed(c) && (c.NullWord? || c.BoolWord? || c.FloatWord?)
    ensures Keyword(Print(c) + rest) == Some(Parsed(Denotes(c), rest))
  {
    var word := Print(c);
    assert (word + rest)[|word|..] == rest;
    assert (word + rest)[0] == word[0];
    assert word <= word + rest;
  }

  /** No keyword starts with this character. */
  lemma NotKeyword(u: string)
    requires u != "" && u[0] !in {'N', 't', 'f', 'n', 'i', '-'}
    ensures Keyword(u) == None
  {
  }

  lemma StringReads(text: seq<Letter>, q: char, rest: string)
    requires IsStringQuote(q) && Fits(text, q)
    ensures Scalar(Quote(text, q) + rest) == Ok(Parsed(Text(Spelt(text)), rest))
  {
    QuoteReads(text, q, rest);
    NotKeyword(Quote(text, q) + rest);
    assert "" + Spelt(text) == Spelt(text);
  }

  lemma BytesReads(text: seq<Letter>, q: char, rest: string)
    requires IsTypedQuote(q) && Fits(text, q)
    ensures Scalar(("b" + Quote(text, q)) + rest) == Ok(Parsed(Text("b:" + Spelt(text)), rest))
  {
    var quoted := Quote(text, q) + rest;
    QuoteReads(text, q, rest);
    Assoc("b", Quote(text, q), rest);
    var u := "b" + quoted;
    assert u[0] == 'b' && u[1] == q && u[2..] == quoted[1..];
    NotKeyword(u);
    assert u[..2] == "b\"" || u[..2] == "b'";
  }

  lemma PrefixFirst(ty: Typed, tail: string)
    ensures (Prefix(ty) + tail)[0] in {'D', 'T'} && (Prefix(ty) + tail)[|Prefix(ty)|..] == tail
    ensures Prefix(ty) <= Prefix(ty) + tail
    ensures TypedAt(Prefix(ty) + tail) == Some(ty)
  {
    var u := Prefix(ty) + tail;
    assert u[0] == Prefix(ty)[0] && u[1] == Prefix(ty)[1] && u[4] == Prefix(ty)[4];
  }

  lemma PrefixReads(ty: Typed, tail: string)
    ensures Scalar(Prefix(ty) + tail) == TypedBody(tail, Tag(ty))
  {
    var u := Prefix(ty) + tail;
    PrefixFirst(ty, tail);
    NotKeyword(u);
  }

  lemma TypedQuoteReads(tag: string, gap: string, text: seq<Letter>, q: char, rest: string)
    requires AllSkipped(gap) && IsTypedQuote(q) && Fits(text, q)
    ensures TypedBody((gap + Quote(text, q)) + rest, tag) == Ok(Parsed(Text(tag + Spelt(text)), rest))
  {
    QuoteReads(text, q, rest);
    Assoc(gap, Quote(text, q), rest);
    SkipGap(gap, Quote(text, q) + rest);
  }

  lemma TypedBareReads(tag: string, gap: string, tok: string, rest: string) returns (rest': string)
    requires AllSkipped(gap) && TypedToken(tok) && Closed(rest)
    ensures TypedBody((gap + tok) + rest, tag) == Ok(Parsed(Text(tag + Trim(tok)), rest')) && Skip(rest') == Skip(rest)
  {
    Assoc(gap, tok, rest);
    SkipGap(gap, tok + rest);
    if tok == "" {
      assert tok + rest == rest && "" + Skip(rest) == Skip(rest);
      SkipTwice(rest);
      BareReads("", Skip(rest));
      rest' := ReadBare(Skip(rest)).rest;
    } else {
      assert (tok + rest)[0] == tok[0];
      BareReads(tok, rest);
      rest' := ReadBare(tok + rest).rest;
    }
  }

  lemma NumberReads(tok: string, rest: string) returns (rest': string)
    requires NumberToken(tok) && Closed(rest)
    ensures Scalar(tok + rest) == Ok(Parsed(Text(Trim(tok)), rest')) && Skip(rest') == Skip(rest)
  {
    NumberUnkeyed(tok, rest);
    BareReads(tok, rest);
    assert "" + Trim(tok) == Trim(tok);
    rest' := ReadBare(tok + rest).rest;
  }

  lemma NumberUnkeyed(tok: string, rest: string)
    requires NumberToken(tok) && Closed(rest)
    ensures Scalar(tok + rest) == Tagged("", Some(ReadBare(tok + rest)))
  {
    assert (tok + rest)[0] == tok[0];
    NotMinusInf(tok, rest);
  }

  /** A number token is no infinity, whatever follows it. */
  lemma NotMinusInf(tok: string, rest: string)
    requires NumberToken(tok) && Closed(rest)
    ensures Keyword(tok + rest) == None && TypedAt(tok + rest) == None
  {
    var u := tok + rest;
    assert u[0] == tok[0];
    assert rest[0] !in {'-', 'i', 'n', 'f'};
    assert |tok| < 4 ==> u[|tok|] == rest[0];
    assert |tok| >= 4 ==> u[..4] == tok[..4];
  }

  lemma ScalarReads(c: Syntax, rest: string) returns (rest': string)
    requires WellFormed(c) && !c.Struct? && Closed(rest)
    ensures Scalar(Print(c) + rest) == Ok(Parsed(Denotes(c), rest')) && Skip(rest') == Skip(rest)
  {
    rest' := rest;
    match c
    case StringLit(text, q) => StringReads(text, q, rest);
    case BytesLit(text, q) => BytesReads(text, q, rest);
    case TypedLit(ty, gap, text, q) =>
      WordsAgree(ty);
      TypedQuoteReads(Tag(ty), gap, text, q, rest);
      Assoc(Prefix(ty), gap + Quote(text, q), rest);
      PrefixReads(ty, (gap + Quote(text, q)) + rest);
    case TypedBare(ty, gap, tok) =>
      WordsAgree(ty);
      rest' := TypedBareReads(Tag(ty), gap, tok, rest);
      Assoc(Prefix(ty), gap + tok, rest);
      PrefixReads(ty, (gap + tok) + rest);
    case Number(tok) => rest' := NumberReads(tok, rest);
    case _ => WordReads(c, rest);
  }

  lemma PrintStarts(c: Syntax)
    requires WellFormed(c)
    ensures Print(c) != "" && Starts(Print(c)[0], c.Struct?)
  {
    match c
    case StringLit(text, q) => FirstOf([q], PrintLetters(text) + [q], false);
    case BytesLit(text, q) => FirstOf("b", Quote(text, q), false);
    case TypedLit(ty, gap, text, q) => FirstOf(Opening(ty), gap + Quote(text, q), false);
    case TypedBare(ty, gap, tok) => FirstOf(Opening(ty), gap + tok, false);
    case Struct(slots, close) => FirstOf("{", PrintSlots(slots, close, true), true);
    case _ =>
  }

  /** A character a value can start with: a brace for a row only. */
  predicate Starts(c: char, row: bool) {
    !IsSkipped(c) && c !in {'}', ']', ','} && (c == '{' <==> row)
  }

  lemma FirstOf(a: string, b: string, row: bool)
    requires a != "" && Starts(a[0], row)
    ensures a + b != "" && Starts((a + b)[0], row)
  {
  }

  // ----- Rows -----

  lemma SlotsClosed(slots: seq<Slot>, close: string, rest: string)
    requires AllWellFormed(slots) && AllSkipped(close)
    ensures Closed(PrintSlots(slots, close, false) + rest)
  {
    if slots == [] {
      Assoc(close, "}", rest);
      TakesWord(close, "}", rest);
    } else {
      var slot := slots[0];
      var tail := slot.before + (Print(slot.cell) + PrintSlots(slots[1..], close, false));
      assert PrintSlots(slots, close, false) + rest == slot.comma + ("," + (tail + rest));
      TakesWord(slot.comma, ",", tail + rest);
    }
  }

  /** Only what comes after space matters to the grammar. */
  lemma CellsSkip(t: string, t': string, first: bool)
    requires Skip(t) == Skip(t')
    ensures Cells(t, first) == Cells(t', first)
  {
    if first && Take(t, "}").None? { assert Value(t) == Value(t'); }
  }

  /** A printed value, followed by anything that closes it, reads back as what it denotes. */
  lemma {:induction false} ValueReads(c: Syntax, rest: string) returns (rest': string)
    requires WellFormed(c) && Closed(rest)
    ensures Value(Print(c) + rest) == Ok(Parsed(Denotes(c), rest')) && Skip(rest') == Skip(rest)
    decreases c, 1
  {
    PrintStarts(c);
    var t := Print(c) + rest;
    assert t[0] == Print(c)[0] && Skip(t) == t;
    if c.Struct? {
      Assoc("{", PrintSlots(c.slots, c.close, true), rest);
      RowReads(c.slots, c.close, rest);
      rest' := rest;
    } else {
      rest' := ScalarReads(c, rest);
    }
  }

  lemma {:induction false} RowReads(slots: seq<Slot>, close: string, rest: string)
    requires AllWellFormed(slots) && AllSkipped(close)
    ensures Row("{" + (PrintSlots(slots, close, true) + rest)) == Ok(Parsed(DenotesAll(slots), rest))
    decreases slots, 1
  {
    TakesWord("", "{", PrintSlots(slots, close, true) + rest);
    CellsRead(slots, close, true, rest);
  }

  lemma {:induction false} CellsRead(slots: seq<Slot>, close: string, first: bool, rest: string)
    requires AllWellFormed(slots) && AllSkipped(close)
    ensures Cells(PrintSlots(slots, close, first) + rest, first) == Ok(Parsed(DenotesAll(slots), rest))
    decreases slots, 0
  {
    if slots == [] {
      Assoc(close, "}", rest);
      TakesWord(close, "}", rest);
    } else {
      var slot := slots[0];
      var more := PrintSlots(slots[1..], close, false) + rest;
      SlotsClosed(slots[1..], close, rest);
      var rest' := ValueReads(slot.cell, more);
      CellsRead(slots[1..], close, false, rest);
      CellsSkip(rest', more, false);
      SlotReads(slots, close, first, rest, rest');
    }
  }

  /** One step of the cell loop. */
  lemma SlotReads(slots: seq<Slot>, close: string, first: bool, rest: string, rest': string)
    requires AllWellFormed(slots) && slots != []
    requires var more := PrintSlots(slots[1..], close, false) + rest;
             && Value(Print(slots[0].cell) + more) == Ok(Parsed(Denotes(slots[0].cell), rest'))
             && Cells(rest', false) == Ok(Parsed(DenotesAll(slots[1..]), rest))
    ensures Cells(PrintSlots(slots, close, first) + rest, first) == Ok(Parsed(DenotesAll(slots), rest))
  {
    var slot := slots[0];
    var value, tail := Print(slot.cell), PrintSlots(slots[1..], close, false);
    var body := value + (tail + rest);
    var lead := Lead(first, slot.comma, slot.before);
    PrintStarts(slot.cell);
    assert body[0] == value[0];
    LeadReads(first, slot.comma, slot.before, body);
    Assoc(value, tail, rest);
    Assoc(lead, value + tail, rest);
    ValueSkips(slot.before + body);
  }

  // ----- Whole stanzas -----

  lemma {:induction false} BalancedSkips(t: string, depth: nat, rest: string)
    requires Balanced(t, depth)
    ensures SkipType(t + (">" + rest), depth) == Some(">" + rest)
    decreases |t|
  {
    if t == "" {
      assert t + (">" + rest) == ">" + rest;
    } else {
      assert (t + (">" + rest))[1..] == t[1..] + (">" + rest);
      BalancedSkips(t[1..], if t[0] == '<' then depth + 1 else if t[0] == '>' then depth - 1 else depth, rest);
    }
  }

  lemma {:induction false} LinesRead(lines: seq<Line>, end: string)
    requires LinesWellFormed(lines) && lines != [] && StopsRows(end)
    ensures MoreRows(PrintLines(lines, true) + end) == Ok(Parsed(DenotesLines(lines), end))
    decreases |lines|
  {
    var line, rest := lines[0], lines[1..];
    var after := PrintLines(rest, false) + end;
    RowReads(line.slots, line.close, after);
    LineStarts(line, PrintLines(rest, false), end);
    if rest == [] {
      assert after == end && DenotesLines(lines) == [DenotesAll(line.slots)];
    } else {
      LinesRead(rest, end);
      CommaLines(rest, end);
    }
  }

  /** The row at the head of a list of lines. */
  lemma LineStarts(line: Line, more: string, end: string)
    requires AllSkipped(line.before)
    ensures var row := "{" + (PrintSlots(line.slots, line.close, true) + (more + end));
            Row((line.before + ("{" + (PrintSlots(line.slots, line.close, true) + more))) + end) == Row(row)
  {
    var slots := PrintSlots(line.slots, line.close, true);
    Assoc(line.before, "{" + (slots + more), end);
    Assoc("{", slots + more, end);
    Assoc(slots, more, end);
    TakesWord(line.before, "{", slots + (more + end));
  }

  /** Lines after the first are announced by their comma. */
  lemma CommaLines(lines: seq<Line>, end: string)
    requires LinesWellFormed(lines) && lines != []
    ensures var t := PrintLines(lines, false) + end;
            !StopsRows(t) && Take(t, ",") == Some(PrintLines(lines, true) + end)
  {
    var line := lines[0];
    var body := "{" + (PrintSlots(line.slots, line.close, true) + PrintLines(lines[1..], false));
    Assoc(line.comma, "," + line.before, body);
    Assoc(",", line.before, body);
    Assoc(line.comma, "," + (line.before + body), end);
    Assoc(",", line.before + body, end);
    TakesWord(line.comma, ",", (line.before + body) + end);
  }

  lemma RowsBlockReads(lines: seq<Line>, close: string)
    requires LinesWellFormed(lines) && AllSkipped(close)
    ensures Rows(PrintLines(lines, true) + (close + "]")) ==
            Ok(Parsed(DenotesLines(lines), if lines == [] then "]" else close + "]"))
    ensures Take(PrintLines(lines, true) + (close + "]"), "known order:") == None
  {
    var end := close + "]";
    var t := PrintLines(lines, true) + end;
    assert end == close + ("]" + "");
    TakesWord(close, "]", "");
    if lines == [] {
      assert t == end && "]" + "" == "]";
    } else {
      var line := lines[0];
      var body := "{" + (PrintSlots(line.slots, line.close, true) + PrintLines(lines[1..], false));
      Assoc(line.before, body, end);
      SkipGap(line.before, body + end);
      assert (body + end)[0] == '{';
      LinesRead(lines, end);
      RowSkips(t);
    }
  }

  lemma ListingReads(st: Stanza)
    requires StanzaWellFormed(st)
    ensures Listing(PrintListing(st)) == Ok(Parsed(Meaning(st), ""))
  {
    var block := PrintLines(st.lines, true) + (st.close + "]");
    RowsBlockReads(st.lines, st.close);
    OrderReads(st.order, block);
    assert st.close + "]" == st.close + ("]" + "") && "]" == "]" + "";
    TakesWord(st.close, "]", "");
  }

  lemma OrderReads(order: Option<string>, block: string)
    requires (order.Some? ==> AllSkipped(order.value)) && Take(block, "known order:") == None
    ensures Take(PrintOrder(order) + block, "known order:") == (if order.Some? then Some(block) else None)
    ensures order.None? ==> PrintOrder(order) + block == block
  {
    if order.Some? {
      Assoc(order.value, "known order:", block);
      TakesWord(order.value, "known order:", block);
    } else {
      assert PrintOrder(order) + block == block;
    }
  }

  lemma TopReads(st: Stanza)
    requires StanzaWellFormed(st)
    ensures TopArray(PrintStanza(st)) == Ok(Parsed(Meaning(st), ""))
  {
    var listing := PrintListing(st);
    var after := st.open + ("[" + listing);
    TakesWord("", "ARRAY<", st.typ + (">" + after));
    BalancedSkips(st.typ, 1, after);
    TakesWord("", ">", after);
    TakesWord(st.open, "[", listing);
    ListingReads(st);
    StagesRead(PrintStanza(st), st.typ + (">" + after), ">" + after, after, listing);
  }

  /** The stages of the top-level parse, put together. */
  lemma StagesRead(s: string, a: string, b: string, c: string, d: string)
    requires Take(s, "ARRAY<") == Some(a) && SkipType(a, 1) == Some(b)
    requires Take(b, ">") == Some(c) && Take(c, "[") == Some(d)
    ensures TopArray(s) == Listing(d)
  {
  }

  lemma StanzaEnds(st: Stanza)
    ensures var s := PrintStanza(st); s != "" && s[0] == 'A' && s[|s| - 1] == ']'
  {
    var end := st.close + "]";
    assert end[|end| - 1] == ']';
  }

  /**
   The parser inverts the printer: any rows of any nesting, in any mix of spellings, with any space
   at each token, after any balanced type, come back with their order flag.
   */
  lemma ParserInvertsPrinter(w: string, st: Stanza, w': string)
    requires AllSpace(w) && AllSpace(w') && StanzaWellFormed(st)
    ensures ParseExpected(w + PrintStanza(st) + w') == Ok(Meaning(st))
  {
    StanzaEnds(st);
    TopReads(st);
    Unwrapped(w, PrintStanza(st), w', Meaning(st));
  }

  lemma Unwrapped(w: string, s: string, w': string, e: Expected)
    requires AllSpace(w) && AllSpace(w') && s != "" && s[0] == 'A' && s[|s| - 1] == ']'
    requires TopArray(s) == Ok(Parsed(e, ""))
    ensures ParseExpected(w + s + w') == Ok(e)
  {
    TrimPadded(w, s, w');
  }

  /** Space after a comma alone, as corpus files are laid out. */
  lemma SpaceAfterComma(a: Syntax, b: Syntax)
    requires WellFormed(a) && WellFormed(b)
    ensures var row := Struct([Slot("", "", a), Slot("", " ", b)], "");
            WellFormed(row) && Print(row) == "{" + (Print(a) + (", " + (Print(b) + "}")))
  {
    var x, y := Slot("", "", a), Slot("", " ", b);
    assert [x, y][1..] == [y] && [y][1..] == [];
    assert AllWellFormed([]) && AllWellFormed([y]) && AllWellFormed([x, y]);
    assert PrintSlots([], "", false) == "}";
    assert PrintSlots([y], "", false) == ", " + (Print(b) + "}") by {
      assert Lead(false, "", " ") == ", ";
    }
    assert PrintSlots([x, y], "", true) == Print(a) + (", " + (Print(b) + "}"));
  }
}
