/**
 The converse: every text the corpus parser accepts is the print of a well-formed stanza that denotes
 the result, so the parser reads exactly the printed texts (conformance/googlesqlcorpus/expected.go).
 */
module CorpusSpelling {
  import opened Basics
  import opened Whitespace
  import opened CorpusParser
  import opened CorpusPrinter

  // ----- Tokens -----

  lemma {:induction false} SkipSplits(t: string) returns (gap: string)
    ensures AllSkipped(gap) && t == gap + Skip(t)
  {
    if t != "" && IsSkipped(t[0]) {
      var more := SkipSplits(t[1..]);
      gap := [t[0]] + more;
      assert t == [t[0]] + t[1..];
    } else {
      gap := "";
    }
  }

  lemma TakeSplits(t: string, word: string) returns (gap: string)
    requires Take(t, word).Some?
    ensures AllSkipped(gap) && t == gap + (word + Take(t, word).value)
  {
    gap := SkipSplits(t);
    assert Skip(t) == word + Skip(t)[|word|..];
  }

  lemma LetterPrint(l: Letter, more: seq<Letter>, rest: string)
    ensures PrintLetters([l] + more) + rest ==
            PrintLetter(l) + (PrintLetters(more) + rest)
    ensures Spelt([l] + more) == [l.c] + Spelt(more)
  {
    assert ([l] + more)[1..] == more;
    Assoc(PrintLetter(l), PrintLetters(more), rest);
  }

  lemma LetterSpelled(t: string, l: Letter, more: seq<Letter>, rest: string)
    requires PrintLetter(l) <= t && t[|PrintLetter(l)|..] == PrintLetters(more) + rest
    ensures t == PrintLetters([l] + more) + rest && Spelt([l] + more) == [l.c] + Spelt(more)
  {
    LetterPrint(l, more, rest);
    CutAt(t, |PrintLetter(l)|);
  }

  lemma {:induction false} QuotedSpelled(t: string, q: char) returns (text: seq<Letter>)
    requires q != '\\' && ReadQuoted(t, q).Some?
    ensures Fits(text, q) && Spelt(text) == ReadQuoted(t, q).value.value
    ensures t == PrintLetters(text) + ([q] + ReadQuoted(t, q).value.rest)
  {
    if t[0] == '\\' && |t| > 1 {
      var more := QuotedSpelled(t[2..], q);
      text := [Escaped(t[1])] + more;
      LetterSpelled(t, Escaped(t[1]), more, [q] + ReadQuoted(t, q).value.rest);
    } else if t[0] == q {
      text := [];
      assert t == [q] + t[1..];
    } else {
      var more := QuotedSpelled(t[1..], q);
      text := [Plain(t[0])] + more;
      LetterSpelled(t, Plain(t[0]), more, [q] + ReadQuoted(t, q).value.rest);
    }
  }

  lemma QuoteSpelled(v: string, q: char) returns (text: seq<Letter>)
    requires q != '\\' && v != "" && v[0] == q && ReadQuoted(v[1..], q).Some?
    ensures Fits(text, q) && Spelt(text) == ReadQuoted(v[1..], q).value.value
    ensures v == Quote(text, q) + ReadQuoted(v[1..], q).value.rest
  {
    text := QuotedSpelled(v[1..], q);
    var rest := ReadQuoted(v[1..], q).value.rest;
    assert v == [q] + v[1..];
    Enclosed([q], PrintLetters(text), [q], rest);
  }

  lemma Enclosed(a: string, b: string, c: string, rest: string)
    ensures (a + (b + c)) + rest == a + (b + (c + rest))
  {
    Assoc(a, b + c, rest);
    Assoc(b, c, rest);
  }

  lemma BareSpelled(v: string)
    ensures var tok := v[..TokenLength(v)];
            Unended(tok) && v == tok + ReadBare(v).rest && ReadBare(v).value == Trim(tok)
  {
    CutAt(v, TokenLength(v));
  }

  lemma CutAt(v: string, n: nat)
    requires n <= |v|
    ensures v == v[..n] + v[n..]
  {
  }

  // ----- Scalars -----

  lemma KeywordSpelled(u: string) returns (c: Syntax)
    requires Keyword(u).Some?
    ensures WellFormed(c) && Denotes(c) == Keyword(u).value.value && u == Print(c) + Keyword(u).value.rest
  {
    c := if "NULL" <= u then NullWord
         else if "true" <= u then BoolWord(true)
         else if "false" <= u then BoolWord(false)
         else if "nan" <= u then FloatWord("nan")
         else if "-inf" <= u then FloatWord("-inf")
         else FloatWord("inf");
  }

  lemma TypedSpelled(ty: Typed, t: string) returns (c: Syntax)
    requires TypedBody(t, Tag(ty)).Ok?
    ensures WellFormed(c) && Denotes(c) == TypedBody(t, Tag(ty)).value.value
    ensures Prefix(ty) + t == Print(c) + TypedBody(t, Tag(ty)).value.rest
  {
    var gap := SkipSplits(t);
    var v := Skip(t);
    var rest := TypedBody(t, Tag(ty)).value.rest;
    WordsAgree(ty);
    if v != "" && IsTypedQuote(v[0]) {
      var text := QuoteSpelled(v, v[0]);
      c := TypedLit(ty, gap, text, v[0]);
      Assoc(gap, Quote(text, v[0]), rest);
      Assoc(Prefix(ty), gap + Quote(text, v[0]), rest);
    } else {
      var tok := v[..TokenLength(v)];
      BareSpelled(v);
      c := TypedBare(ty, gap, tok);
      Assoc(gap, tok, rest);
      Assoc(Prefix(ty), gap + tok, rest);
    }
  }

  lemma NumberSpelled(u: string) returns (tok: string)
    requires u != "" && (IsDigit(u[0]) || u[0] == '-') && !("-inf" <= u)
    ensures NumberToken(tok) && u == tok + ReadBare(u).rest && ReadBare(u).value == Trim(tok)
  {
    tok := u[..TokenLength(u)];
    BareSpelled(u);
    assert TokenLength(u) > 0;
    assert tok <= u;
  }

  lemma BytesSpelled(u: string) returns (c: Syntax)
    requires |u| > 1 && u[0] == 'b' && IsTypedQuote(u[1]) && ReadQuoted(u[2..], u[1]).Some?
    ensures WellFormed(c) && Denotes(c) == Text("b:" + ReadQuoted(u[2..], u[1]).value.value)
    ensures u == Print(c) + ReadQuoted(u[2..], u[1]).value.rest
  {
    assert u[2..] == u[1..][1..] && u == "b" + u[1..];
    var text := QuoteSpelled(u[1..], u[1]);
    c := BytesLit(text, u[1]);
    Assoc("b", Quote(text, u[1]), ReadQuoted(u[2..], u[1]).value.rest);
  }

  lemma Untagged(s: string)
    ensures "" + s == s
  {
  }

  lemma StringSpelled(u: string) returns (c: Syntax)
    requires u != "" && IsStringQuote(u[0]) && ReadQuoted(u[1..], u[0]).Some?
    ensures WellFormed(c) && Denotes(c) == Text("" + ReadQuoted(u[1..], u[0]).value.value)
    ensures u == Print(c) + ReadQuoted(u[1..], u[0]).value.rest
  {
    var text := QuoteSpelled(u, u[0]);
    c := StringLit(text, u[0]);
    Untagged(Spelt(text));
  }

  lemma UnkeyedSpelled(u: string) returns (c: Syntax)
    requires Keyword(u).None? && Unkeyed(u).Ok?
    ensures WellFormed(c) && Denotes(c) == Unkeyed(u).value.value && u == Print(c) + Unkeyed(u).value.rest
  {
    if "b\"" <= u || "b'" <= u {
      c := BytesSpelled(u);
    } else if u != "" && IsStringQuote(u[0]) {
      c := StringSpelled(u);
    } else if TypedAt(u).Some? {
      var ty := TypedAt(u).value;
      assert u == Prefix(ty) + u[|Prefix(ty)|..];
      c := TypedSpelled(ty, u[|Prefix(ty)|..]);
    } else {
      var tok := NumberSpelled(u);
      c := Number(tok);
      Untagged(Trim(tok));
    }
  }

  lemma ScalarSpelled(u: string) returns (c: Syntax)
    requires Scalar(u).Ok?
    ensures WellFormed(c) && Denotes(c) == Scalar(u).value.value && u == Print(c) + Scalar(u).value.rest
  {
    if Keyword(u).Some? { c := KeywordSpelled(u); } else { c := UnkeyedSpelled(u); }
  }

  // ----- Values and rows -----

  lemma {:induction false} ValueSpelled(t: string) returns (gap: string, c: Syntax)
    requires Value(t).Ok?
    ensures AllSkipped(gap) && WellFormed(c) && Denotes(c) == Value(t).value.value
    ensures t == gap + (Print(c) + Value(t).value.rest)
    decreases |t|, 1
  {
    var u := Skip(t);
    gap := SkipSplits(t);
    if u != "" && u[0] == '{' {
      var g, slots, close := RowSpelled(u);
      c := Struct(slots, close);
      StructPrint(g, u, slots, close, Row(u).value.rest);
    } else {
      c := ScalarSpelled(u);
    }
  }

  lemma NoGap(g: string, u: string)
    requires AllSkipped(g) && u != "" && !IsSkipped(u[0]) && g <= u
    ensures g == ""
  {
  }

  lemma StructPrint(g: string, u: string, slots: seq<Slot>, close: string, rest: string)
    requires AllSkipped(g) && u != "" && u[0] == '{' && u == g + ("{" + (PrintSlots(slots, close, true) + rest))
    ensures u == Print(Struct(slots, close)) + rest
  {
    NoGap(g, u);
    Assoc("{", PrintSlots(slots, close, true), rest);
  }

  lemma {:induction false} RowSpelled(t: string) returns (gap: string, slots: seq<Slot>, close: string)
    requires Row(t).Ok?
    ensures AllSkipped(gap) && AllWellFormed(slots) && AllSkipped(close) && DenotesAll(slots) == Row(t).value.value
    ensures t == gap + ("{" + (PrintSlots(slots, close, true) + Row(t).value.rest))
    decreases |t|, 0
  {
    gap := TakeSplits(t, "{");
    slots, close := CellsSpelled(Take(t, "{").value, true);
  }

  lemma {:induction false} CellsSpelled(t: string, first: bool) returns (slots: seq<Slot>, close: string)
    requires Cells(t, first).Ok?
    ensures AllWellFormed(slots) && AllSkipped(close) && DenotesAll(slots) == Cells(t, first).value.value
    ensures t == PrintSlots(slots, close, first) + Cells(t, first).value.rest
    decreases |t|, 2
  {
    if Take(t, "}").Some? {
      close := TakeSplits(t, "}");
      slots := [];
      Assoc(close, "}", Take(t, "}").value);
    } else {
      var comma, u := "", t;
      if !first {
        comma := TakeSplits(t, ",");
        u := Take(t, ",").value;
      }
      var before, cell := ValueSpelled(u);
      var more;
      more, close := CellsSpelled(Value(u).value.rest, false);
      slots := [Slot(comma, before, cell)] + more;
      SlotSpelled(slots, close, first, t, u, Value(u).value.rest, Cells(t, first).value.rest);
    }
  }

  /** One step of the cell loop, read backwards. */
  lemma SlotSpelled(slots: seq<Slot>, close: string, first: bool, t: string, u: string, after: string, rest: string)
    requires slots != []
    requires u == slots[0].before + (Print(slots[0].cell) + after)
    requires t == if first then u else slots[0].comma + ("," + u)
    requires after == PrintSlots(slots[1..], close, false) + rest
    ensures t == PrintSlots(slots, close, first) + rest
  {
    var slot := slots[0];
    var value, tail := Print(slot.cell), PrintSlots(slots[1..], close, false);
    Assoc(value, tail, rest);
    Assoc(slot.before, value + tail, rest);
    if !first {
      Assoc(",", slot.before, value + tail);
      Assoc(slot.comma, "," + slot.before, value + tail);
      Assoc(",", slot.before + (value + tail), rest);
      Assoc(slot.comma, "," + (slot.before + (value + tail)), rest);
    }
  }

  // ----- Stanzas -----

  lemma {:induction false} LinesSpelled(t: string) returns (lines: seq<Line>)
    requires MoreRows(t).Ok?
    ensures lines != [] && LinesWellFormed(lines) && DenotesLines(lines) == MoreRows(t).value.value
    ensures t == PrintLines(lines, true) + MoreRows(t).value.rest
    decreases |t|
  {
    var before, slots, close := RowSpelled(t);
    var line := Line("", before, slots, close);
    var after, rest := Row(t).value.rest, MoreRows(t).value.rest;
    var more := [];
    NoLines(rest);
    if !StopsRows(after) {
      more := LinesSpelled(Take(after, ",").value);
      more := FurtherLines(after, more, rest);
    }
    lines := [line] + more;
    LinePrint(line, more, rest);
  }

  lemma NoLines(rest: string)
    ensures PrintLines([], false) + rest == rest
  {
  }

  /** The lines after a comma, with the comma's space put on the first of them. */
  lemma FurtherLines(after: string, more: seq<Line>, rest: string) returns (more': seq<Line>)
    requires Take(after, ",") == Some(PrintLines(more, true) + rest) && more != [] && LinesWellFormed(more)
    ensures LinesWellFormed(more') && DenotesLines(more') == DenotesLines(more)
    ensures after == PrintLines(more', false) + rest
  {
    var comma := TakeSplits(after, ",");
    CommaPrint(more, comma, rest);
    more' := more[0 := more[0].(comma := comma)];
  }

  lemma LinePrint(line: Line, more: seq<Line>, rest: string)
    ensures PrintLines([line] + more, true) + rest ==
            line.before + ("{" + (PrintSlots(line.slots, line.close, true) + (PrintLines(more, false) + rest)))
    ensures DenotesLines([line] + more) == [DenotesAll(line.slots)] + DenotesLines(more)
  {
    assert ([line] + more)[1..] == more;
    var row, tail := PrintSlots(line.slots, line.close, true), PrintLines(more, false);
    Assoc(row, tail, rest);
    Assoc("{", row + tail, rest);
    Assoc(line.before, "{" + (row + tail), rest);
  }

  /** Giving the first line a comma prints it in front. */
  lemma CommaPrint(lines: seq<Line>, comma: string, rest: string)
    requires lines != []
    ensures var lines' := lines[0 := lines[0].(comma := comma)];
            && PrintLines(lines', false) + rest == comma + ("," + (PrintLines(lines, true) + rest))
            && DenotesLines(lines') == DenotesLines(lines)
  {
    var lines' := lines[0 := lines[0].(comma := comma)];
    assert lines'[1..] == lines[1..];
    var line := lines[0];
    var body := "{" + (PrintSlots(line.slots, line.close, true) + PrintLines(lines[1..], false));
    Assoc(",", line.before, body);
    Assoc(comma, "," + line.before, body);
    Assoc(",", line.before + body, rest);
    Assoc(comma, "," + (line.before + body), rest);
  }

  lemma {:induction false} TypeSpelled(t: string, depth: nat) returns (typ: string)
    requires depth > 0 && SkipType(t, depth).Some?
    ensures Balanced(typ, depth) && t == typ + SkipType(t, depth).value
    ensures SkipType(t, depth).value != "" && SkipType(t, depth).value[0] == '>'
    decreases |t|
  {
    if t[0] == '>' && depth == 1 {
      typ := "";
    } else {
      var d := if t[0] == '<' then depth + 1 else if t[0] == '>' then depth - 1 else depth;
      var more := TypeSpelled(t[1..], d);
      typ := [t[0]] + more;
      HeadedBy(t, more, SkipType(t, depth).value);
    }
  }

  lemma HeadedBy(t: string, more: string, rest: string)
    requires t != "" && t[1..] == more + rest
    ensures t == ([t[0]] + more) + rest && ([t[0]] + more)[1..] == more
  {
    Assoc([t[0]], more, rest);
    assert t == [t[0]] + t[1..];
  }

  lemma ListingSpelled(d: string) returns (order: Option<string>, lines: seq<Line>, close: string)
    requires Listing(d).Ok?
    ensures (order.Some? ==> AllSkipped(order.value)) && LinesWellFormed(lines) && AllSkipped(close)
    ensures Listing(d).value.value == Expected(order.Some?, DenotesLines(lines))
    ensures d == PrintOrder(order) + (PrintLines(lines, true) + (close + ("]" + Listing(d).value.rest)))
  {
    order := None;
    var block := d;
    if Take(d, "known order:").Some? {
      var gap := TakeSplits(d, "known order:");
      block := Take(d, "known order:").value;
      order := Some(gap);
      Assoc(gap, "known order:", block);
    }
    lines, close := BlockSpelled(block);
  }

  lemma BlockSpelled(block: string) returns (lines: seq<Line>, close: string)
    requires Rows(block).Ok? && Take(Rows(block).value.rest, "]").Some?
    ensures LinesWellFormed(lines) && AllSkipped(close) && DenotesLines(lines) == Rows(block).value.value
    ensures block == PrintLines(lines, true) + (close + ("]" + Take(Rows(block).value.rest, "]").value))
  {
    var u := Skip(block);
    if u != "" && u[0] == ']' {
      lines := [];
      close := SkipSplits(block);
      SkipTwice(block);
      assert u == "]" + u[1..];
    } else {
      RowSkips(block);
      lines := LinesSpelled(block);
      close := TakeSplits(MoreRows(block).value.rest, "]");
    }
  }

  lemma TopSpelled(s: string) returns (gap: string, st: Stanza)
    requires TopArray(s).Ok?
    ensures AllSkipped(gap) && StanzaWellFormed(st) && TopArray(s).value.value == Meaning(st)
    ensures s == gap + (PrintStanza(st) + TopArray(s).value.rest)
  {
    gap := TakeSplits(s, "ARRAY<");
    var typ, open, d := HeadSpelled(Take(s, "ARRAY<").value);
    var order, lines, close := ListingSpelled(d);
    st := Stanza(typ, open, order, lines, close);
    StanzaPrint(st, Listing(d).value.rest);
  }

  /** From the element type to the opening bracket. */
  function Head(a: string): Option<string> {
    match SkipType(a, 1)
    case None => None
    case Some(b) => match Take(b, ">") case None => None case Some(c) => Take(c, "[")
  }

  lemma HeadSpelled(a: string) returns (typ: string, open: string, d: string)
    requires Head(a).Some?
    ensures Head(a) == Some(d) && Balanced(typ, 1) && AllSkipped(open) && a == typ + (">" + (open + ("[" + d)))
  {
    typ := TypeSpelled(a, 1);
    var b := SkipType(a, 1).value;
    var g := TakeSplits(b, ">");
    NoGap(g, b);
    open := TakeSplits(Take(b, ">").value, "[");
    d := Head(a).value;
  }

  /** A printed stanza and what follows it, regrouped. */
  lemma StanzaPrint(st: Stanza, rest: string)
    ensures PrintStanza(st) + rest ==
            "ARRAY<" + (st.typ + (">" + (st.open + ("[" +
              (PrintOrder(st.order) + (PrintLines(st.lines, true) + (st.close + ("]" + rest))))))))
  {
    var lines, listing := PrintLines(st.lines, true), PrintListing(st);
    assert listing + rest == PrintOrder(st.order) + (lines + (st.close + ("]" + rest))) by {
      Assoc(st.close, "]", rest);
      Assoc(lines, st.close + "]", rest);
      Assoc(PrintOrder(st.order), lines + (st.close + "]"), rest);
    }
    Assoc("[", listing, rest);
    Assoc(st.open, "[" + listing, rest);
    Assoc(">", st.open + ("[" + listing), rest);
    Assoc(st.typ, ">" + (st.open + ("[" + listing)), rest);
    Assoc("ARRAY<", st.typ + (">" + (st.open + ("[" + listing))), rest);
  }

  /** `raw` is the stanza's print between white space. */
  predicate SpelledAs(raw: string, w: string, st: Stanza, w': string) {
    AllSpace(w) && AllSpace(w') && StanzaWellFormed(st) && raw == w + PrintStanza(st) + w'
  }

  /** Every accepted text is the print of a stanza that denotes the result. */
  lemma AcceptedIsPrinted(raw: string) returns (w: string, st: Stanza, w': string)
    requires ParseExpected(raw).Ok?
    ensures SpelledAs(raw, w, st, w') && ParseExpected(raw).value == Meaning(st)
  {
    var s := Trim(raw);
    w, w' := TrimShape(raw);
    var gap;
    gap, st := TopSpelled(s);
    TightExact(s, gap, PrintStanza(st), TopArray(s).value.rest);
  }

  /** A tight text has no space around its only token. */
  lemma TightExact(s: string, gap: string, text: string, rest: string)
    requires Tight(s) && AllSkipped(gap) && text != "" && Trim(rest) == "" && s == gap + (text + rest)
    ensures s == text
  {
    var u, u' := TrimShape(rest);
    assert AllSpace(rest);
    SpaceEnds(gap + text, rest);
    SpaceStarts(gap, text + rest);
    Assoc(gap, text, rest);
  }

  lemma SpaceEnds(x: string, y: string)
    requires AllSpace(y)
    ensures y != "" ==> !Tight(x + y)
  {
    if y != "" { assert (x + y)[|x + y| - 1] == y[|y| - 1]; }
  }

  lemma SpaceStarts(x: string, y: string)
    requires AllSkipped(x)
    ensures x != "" ==> !Tight(x + y)
  {
    if x != "" { assert (x + y)[0] == x[0]; }
  }

  /** The parser accepts exactly the printed texts, with exactly their meaning. */
  lemma ParserExact(raw: string, e: Expected)
    ensures ParseExpected(raw) == Ok(e) <==> exists w, st, w' :: SpelledAs(raw, w, st, w') && Meaning(st) == e
  {
    if ParseExpected(raw).Ok? {
      var w, st, w' := AcceptedIsPrinted(raw);
      assert SpelledAs(raw, w, st, w');
    }
    if w, st, w' :| SpelledAs(raw, w, st, w') && Meaning(st) == e { ParserInvertsPrinter(w, st, w'); }
  }

  /** So no text can be read in two ways. */
  lemma PrintDeterminesMeaning(raw: string, w: string, st: Stanza, w': string, u: string, st': Stanza, u': string)
    requires SpelledAs(raw, w, st, w') && SpelledAs(raw, u, st', u')
    ensures Meaning(st) == Meaning(st')
  {
    ParserInvertsPrinter(w, st, w');
    ParserInvertsPrinter(u, st', u');
  }
}
