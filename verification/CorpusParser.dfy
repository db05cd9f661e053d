/** The recursive-descent parser of corpus result stanzas (conformance/googlesqlcorpus/expected.go). */
module CorpusParser {
  import opened Basics
  import opened Whitespace

  /** A parsed cell: nil, a boolean, a string, or a nested row. */
  datatype Cell = Nil | Flag(b: bool) | Text(s: string) | Nested(cells: seq<Cell>)

  datatype Parsed<T> = Parsed(value: T, rest: string)

  datatype Expected = Expected(ordered: bool, rows: seq<seq<Cell>>)

  // ----- Tokens, as functions on the text still to be read -----

  predicate IsSkipped(c: char) {
    c in {' ', '\t', '\n', '\r'}
  }

  function Skip(t: string): (u: string)
    ensures |u| <= |t| && (u == "" || !IsSkipped(u[0]))
  {
    if t != "" && IsSkipped(t[0]) then Skip(t[1..]) else t
  }

  /** Skips space, then takes the token if it is next. */
  function Take(t: string, tok: string): Option<string> {
    if tok <= Skip(t) then Some(Skip(t)[|tok|..]) else None
  }

  /** Reads up to the closing quote; a backslash makes the next character literal. */
  function ReadQuoted(t: string, quote: char): Option<Parsed<string>> {
    if t == "" then None
    else if t[0] == '\\' && |t| > 1 then Before(t[1], ReadQuoted(t[2..], quote))
    else if t[0] == quote then Some(Parsed("", t[1..]))
    else Before(t[0], ReadQuoted(t[1..], quote))
  }

  function Before(c: char, r: Option<Parsed<string>>): Option<Parsed<string>> {
    match r
    case None => None
    case Some(p) => Some(p.(value := [c] + p.value))
  }

  predicate EndsToken(c: char) {
    c in {',', '}', ']', ' ', '\n', '\t'}
  }

  function TokenLength(t: string): (n: nat)
    ensures n <= |t| && (forall i | 0 <= i < n :: !EndsToken(t[i])) && (n < |t| ==> EndsToken(t[n]))
  {
    if t == "" || EndsToken(t[0]) then 0 else 1 + TokenLength(t[1..])
  }

  function ReadBare(t: string): Parsed<string> {
    var n := TokenLength(t);
    Parsed(Trim(t[..n]), t[n..])
  }

  // ----- The grammar -----

  datatype Typed = DateLit | TimestampLit | TimeLit | DatetimeLit

  function Prefix(ty: Typed): string {
    match ty
    case DateLit => "DATE "
    case TimestampLit => "TIMESTAMP "
    case TimeLit => "TIME "
    case DatetimeLit => "DATETIME "
  }

  function Tag(ty: Typed): string {
    match ty
    case DateLit => "DATE:"
    case TimestampLit => "TIMESTAMP:"
    case TimeLit => "TIME:"
    case DatetimeLit => "DATETIME:"
  }

  /** The typed-literal prefix at the start of `u`, if any. */
  function TypedAt(u: string): Option<Typed> {
    if Prefix(DateLit) <= u then Some(DateLit)
    else if Prefix(TimestampLit) <= u then Some(TimestampLit)
    else if Prefix(TimeLit) <= u then Some(TimeLit)
    else if Prefix(DatetimeLit) <= u then Some(DatetimeLit)
    else None
  }

  function Tagged(tag: string, r: Option<Parsed<string>>): Result<Parsed<Cell>> {
    match r
    case None => Err(InvalidArgument)
    case Some(p) => Ok(Parsed(Text(tag + p.value), p.rest))
  }

  predicate IsStringQuote(c: char) {
    c in {'\"', '\'', '`'}
  }

  /** What follows a typed prefix: a quoted or a bare token. */
  function TypedBody(t: string, tag: string): Result<Parsed<Cell>> {
    var v := Skip(t);
    if v != "" && (v[0] == '\"' || v[0] == '\'') then Tagged(tag, ReadQuoted(v[1..], v[0]))
    else Tagged(tag, Some(ReadBare(v)))
  }

  /** The keyword at the start of `u`, if any. */
  function Keyword(u: string): Option<Parsed<Cell>> {
    if "NULL" <= u then Some(Parsed(Nil, u[4..]))
    else if "true" <= u then Some(Parsed(Flag(true), u[4..]))
    else if "false" <= u then Some(Parsed(Flag(false), u[5..]))
    else if "nan" <= u then Some(Parsed(Text("nan"), u[3..]))
    else if "-inf" <= u then Some(Parsed(Text("-inf"), u[4..]))
    else if "inf" <= u then Some(Parsed(Text("inf"), u[3..]))
    else None
  }

  /** The quoted, typed and bare shapes. */
  function Unkeyed(u: string): Result<Parsed<Cell>> {
    if "b\"" <= u || "b'" <= u then Tagged("b:", ReadQuoted(u[2..], u[1]))
    else if u != "" && IsStringQuote(u[0]) then Tagged("", ReadQuoted(u[1..], u[0]))
    else if TypedAt(u).Some? then TypedBody(u[|Prefix(TypedAt(u).value)|..], Tag(TypedAt(u).value))
    else if u != "" && (IsDigit(u[0]) || u[0] == '-') then Tagged("", Some(ReadBare(u)))
    else Err(InvalidArgument)
  }

  /** A value that is no nested row, at the first character after space. */
  function Scalar(u: string): Result<Parsed<Cell>> {
    match Keyword(u)
    case Some(p) => Ok(p)
    case None => Unkeyed(u)
  }

  lemma {:induction false} QuotedAdvances(t: string, quote: char)
    ensures match ReadQuoted(t, quote) case None => true case Some(p) => |p.rest| < |t|
  {
    if t == "" {
    } else if t[0] == '\\' && |t| > 1 {
      QuotedAdvances(t[2..], quote);
    } else if t[0] != quote {
      QuotedAdvances(t[1..], quote);
    }
  }

  lemma TypedAdvances(t: string, tag: string)
    ensures match TypedBody(t, tag) case Err(_) => true case Ok(p) => |p.rest| <= |t|
  {
    var v := Skip(t);
    if v != "" { QuotedAdvances(v[1..], v[0]); }
  }

  /** Every scalar takes at least one character. */
  lemma ScalarAdvances(u: string)
    ensures match Scalar(u) case Err(_) => true case Ok(p) => |p.rest| < |u|
  {
    if |u| >= 2 { QuotedAdvances(u[2..], u[1]); }
    if u != "" { QuotedAdvances(u[1..], u[0]); }
    if TypedAt(u).Some? { TypedAdvances(u[|Prefix(TypedAt(u).value)|..], Tag(TypedAt(u).value)); }
  }

  function Value(t: string): (r: Result<Parsed<Cell>>)
    ensures r.Ok? ==> |r.value.rest| < |t|
    decreases |t|, 1
  {
    var u := Skip(t);
    if u != "" && u[0] == '{' then
      match Row(u)
      case Err(code) => Err(code)
      case Ok(p) => Ok(Parsed(Nested(p.value), p.rest))
    else
      ScalarAdvances(u);
      Scalar(u)
  }

  function Row(t: string): (r: Result<Parsed<seq<Cell>>>)
    ensures r.Ok? ==> |r.value.rest| < |t|
    decreases |t|, 0
  {
    match Take(t, "{")
    case None => Err(InvalidArgument)
    case Some(u) => Cells(u, true)
  }

  /** The cells up to the closing brace; all but the first are preceded by a comma. */
  function Cells(t: string, first: bool): (r: Result<Parsed<seq<Cell>>>)
    ensures r.Ok? ==> |r.value.rest| < |t|
    decreases |t|, 2
  {
    match Take(t, "}")
    case Some(rest) => Ok(Parsed([], rest))
    case None =>
      match (if first then Some(t) else Take(t, ","))
      case None => Err(InvalidArgument)
      case Some(u) =>
        match Value(u)
        case Err(code) => Err(code)
        case Ok(v) =>
          match Cells(v.rest, false)
          case Err(code) => Err(code)
          case Ok(more) => Ok(Parsed([v.value] + more.value, more.rest))
  }

  predicate StopsRows(t: string) {
    var u := Skip(t);
    u == "" || u[0] == ']' || u[0] == 0 as char
  }

  /** At least one row, then rows preceded by commas. */
  function MoreRows(t: string): (r: Result<Parsed<seq<seq<Cell>>>>)
    ensures r.Ok? ==> |r.value.rest| < |t|
    decreases |t|
  {
    match Row(t)
    case Err(code) => Err(code)
    case Ok(row) =>
      if StopsRows(row.rest) then Ok(Parsed([row.value], row.rest))
      else match Take(row.rest, ",")
           case None => Err(InvalidArgument)
           case Some(u) =>
             match MoreRows(u)
             case Err(code) => Err(code)
             case Ok(more) => Ok(Parsed([row.value] + more.value, more.rest))
  }

  function Rows(t: string): Result<Parsed<seq<seq<Cell>>>> {
    var u := Skip(t);
    if u != "" && u[0] == ']' then Ok(Parsed([], u)) else MoreRows(u)
  }

  /** Everything from the angle bracket that closes the outer ARRAY, or nothing. */
  function SkipType(t: string, depth: nat): Option<string> {
    if t == "" then None
    else if t[0] == '<' then SkipType(t[1..], depth + 1)
    else if t[0] != '>' then SkipType(t[1..], depth)
    else if depth <= 1 then Some(t)
    else SkipType(t[1..], depth - 1)
  }

  /** What stands after the opening bracket. */
  function Listing(d: string): Result<Parsed<Expected>> {
    var order := Take(d, "known order:");
    match Rows(if order.Some? then order.value else d)
    case Err(code) => Err(code)
    case Ok(rows) =>
      match Take(rows.rest, "]")
      case None => Err(InvalidArgument)
      case Some(e) => Ok(Parsed(Expected(order.Some?, rows.value), e))
  }

  function TopArray(t: string): Result<Parsed<Expected>> {
    match Take(t, "ARRAY<")
    case None => Err(InvalidArgument)
    case Some(a) =>
      match SkipType(a, 1)
      case None => Err(InvalidArgument)
      case Some(b) =>
        match Take(b, ">")
        case None => Err(InvalidArgument)
        case Some(c) =>
          match Take(c, "[")
          case None => Err(InvalidArgument)
          case Some(d) => Listing(d)
  }

  function ParseExpected(raw: string): Result<Expected> {
    var s := Trim(raw);
    if s == "" then Err(InvalidArgument)
    else match TopArray(s)
         case Err(code) => Err(code)
         case Ok(p) => if Trim(p.rest) != "" then Err(InvalidArgument) else Ok(p.value)
  }

  /** What a quoted text still owes once `done` is read. */
  function After(done: string, r: Option<Parsed<string>>): Option<Parsed<string>> {
    match r
    case None => None
    case Some(p) => Some(p.(value := done + p.value))
  }

  lemma AfterStep(done: string, c: char, r: Option<Parsed<string>>)
    ensures After(done, Before(c, r)) == After(done + [c], r)
  {
    if r.Some? { assert done + ([c] + r.value.value) == (done + [c]) + r.value.value; }
  }

  lemma AfterNothing(r: Option<Parsed<string>>)
    ensures After("", r) == r
  {
    if r.Some? { assert "" + r.value.value == r.value.value; }
  }

  /** The token between two positions, the second being where it ends. */
  lemma TokenIs(s: string, start: nat, end: nat)
    requires start <= end <= |s| && forall k | start <= k < end :: !EndsToken(s[k])
    requires end < |s| ==> EndsToken(s[end])
    ensures ReadBare(s[start..]) == Parsed(Trim(s[start..end]), s[end..])
  {
    var left := s[start..];
    assert forall k | 0 <= k < |left| :: left[k] == s[start + k];
    TokenEnds(left, end - start);
    assert left[..end - start] == s[start..end] && left[end - start..] == s[end..];
  }

  lemma TokenEnds(t: string, n: nat)
    requires n <= |t| && (forall i | 0 <= i < n :: !EndsToken(t[i])) && (n < |t| ==> EndsToken(t[n]))
    ensures ReadBare(t) == Parsed(Trim(t[..n]), t[n..])
  {
    assert TokenLength(t) == n;
  }

  // ----- The parser object -----

  /** What a loop that has read `done` still owes. */
  function Onto<T>(done: seq<T>, r: Result<Parsed<seq<T>>>): Result<Parsed<seq<T>>> {
    match r
    case Err(code) => Err(code)
    case Ok(p) => Ok(p.(value := done + p.value))
  }

  lemma OntoStep<T>(done: seq<T>, x: T, r: Result<Parsed<seq<T>>>)
    ensures Onto(done, Onto([x], r)) == Onto(done + [x], r)
  {
    if r.Ok? { assert done + ([x] + r.value.value) == (done + [x]) + r.value.value; }
  }

  lemma OntoNothing<T>(r: Result<Parsed<seq<T>>>)
    ensures Onto([], r) == r
  {
    if r.Ok? { assert [] + r.value.value == r.value.value; }
  }

  class ExpectedParser {
    const s: string
    var pos: nat

    ghost predicate Valid()
      reads this
    {
      pos <= |s|
    }

    ghost function Left(): string
      requires Valid()
      reads this
    {
      s[pos..]
    }

    constructor (raw: string)
      ensures Valid() && s == raw && Left() == raw
    {
      s, pos := raw, 0;
    }

    method SkipSpace()
      requires Valid()
      modifies this
      ensures Valid() && old(pos) <= pos && Left() == Skip(old(Left()))
    {
      while pos < |s| && IsSkipped(s[pos])
        invariant Valid() && old(pos) <= pos && Skip(Left()) == Skip(old(Left()))
      {
        assert s[pos..][1..] == s[pos + 1..];
        pos := pos + 1;
      }
    }

    method Peek() returns (c: char)
      requires Valid()
      ensures c == if Left() == "" then 0 as char else Left()[0]
    {
      c := if pos >= |s| then 0 as char else s[pos];
    }

    method Consume(tok: string) returns (ok: bool)
      requires Valid()
      modifies this
      ensures Valid() && old(pos) <= pos
      ensures match Take(old(Left()), tok)
              case Some(rest) => ok && Left() == rest && (tok != "" ==> old(pos) < pos)
              case None => !ok && Left() == Skip(old(Left()))
    {
      SkipSpace();
      if !(tok <= s[pos..]) { return false; }
      assert s[pos..][|tok|..] == s[pos + |tok|..];
      pos := pos + |tok|;
      ok := true;
    }

    method ReadQuotedText(quote: char) returns (r: Option<string>)
      requires Valid()
      modifies this
      ensures Valid() && old(pos) <= pos
      ensures match ReadQuoted(old(Left()), quote)
              case Some(p) => r == Some(p.value) && Left() == p.rest
              case None => r == None
    {
      var b := "";
      ghost var whole := ReadQuoted(Left(), quote);
      AfterNothing(whole);
      while pos < |s|
        invariant Valid() && old(pos) <= pos
        invariant whole == After(b, ReadQuoted(Left(), quote))
      {
        var c := s[pos];
        ghost var left := Left();
        assert left[1..] == s[pos + 1..];
        pos := pos + 1;
        if c == '\\' && pos < |s| {
          assert left[2..] == s[pos + 1..];
          AfterStep(b, s[pos], ReadQuoted(left[2..], quote));
          b := b + [s[pos]];
          pos := pos + 1;
        } else if c == quote {
          assert b + "" == b;
          return Some(b);
        } else {
          AfterStep(b, c, ReadQuoted(left[1..], quote));
          b := b + [c];
        }
      }
      r := None;
    }

    method ReadBareToken() returns (tok: string)
      requires Valid()
      modifies this
      ensures Valid() && old(pos) <= pos && Parsed(tok, Left()) == ReadBare(old(Left()))
    {
      var start := pos;
      while pos < |s| && !EndsToken(s[pos])
        invariant Valid() && start <= pos
        invariant forall k | start <= k < pos :: !EndsToken(s[k])
      {
        pos := pos + 1;
      }
      TokenIs(s, start, pos);
      tok := TrimSpaces(s[start..pos]);
    }

    /** The prefix has been seen at the start of what is left. */
    method ParseTypedLiteral(prefix: string, tag: string) returns (r: Result<Cell>)
      requires Valid() && prefix <= Left()
      modifies this
      ensures Valid() && old(pos) <= pos
      ensures Yields(TypedBody(old(Left())[|prefix|..], tag), r, Left())
    {
      assert Left()[|prefix|..] == s[pos + |prefix|..];
      pos := pos + |prefix|;
      r := ParseTypedBody(tag);
    }

    method ParseTypedBody(tag: string) returns (r: Result<Cell>)
      requires Valid()
      modifies this
      ensures Valid() && old(pos) <= pos
      ensures Yields(TypedBody(old(Left()), tag), r, Left())
    {
      SkipSpace();
      var c := Peek();
      if c == '\"' || c == '\'' {
        assert Left()[1..] == s[pos + 1..];
        pos := pos + 1;
        var t := ReadQuotedText(c);
        return if t.None? then Err(InvalidArgument) else Ok(Text(tag + t.value));
      }
      var t := ReadBareToken();
      r := Ok(Text(tag + t));
    }

    method ParseScalar() returns (r: Result<Cell>)
      requires Valid() && Left() == Skip(Left())
      modifies this
      ensures Valid() && old(pos) <= pos
      ensures Yields(Scalar(old(Left())), r, Left())
    {
      var word := ConsumeWord();
      if word.Some? { return Ok(word.value); }
      word := ConsumeNonFinite();
      if word.Some? { return Ok(word.value); }
      r := ParseQuotedOrBare();
    }

    method ConsumeWord() returns (r: Option<Cell>)
      requires Valid() && Left() == Skip(Left())
      modifies this
      ensures Valid() && old(pos) <= pos
      ensures r.Some? ==> Keyword(old(Left())) == Some(Parsed(r.value, Left()))
      ensures r.None? ==> Left() == old(Left()) && !("NULL" <= Left()) && !("true" <= Left()) && !("false" <= Left())
    {
      var ok := Consume("NULL");
      if ok { return Some(Nil); }
      ok := Consume("true");
      if ok { return Some(Flag(true)); }
      ok := Consume("false");
      if ok { return Some(Flag(false)); }
      r := None;
    }

    method ConsumeNonFinite() returns (r: Option<Cell>)
      requires Valid() && Left() == Skip(Left())
      requires !("NULL" <= Left()) && !("true" <= Left()) && !("false" <= Left())
      modifies this
      ensures Valid() && old(pos) <= pos
      ensures r.Some? ==> Keyword(old(Left())) == Some(Parsed(r.value, Left()))
      ensures r.None? ==> Left() == old(Left()) && Keyword(Left()).None?
    {
      var ok := Consume("nan");
      if ok { return Some(Text("nan")); }
      ok := Consume("-inf");
      if ok { return Some(Text("-inf")); }
      ok := Consume("inf");
      if ok { return Some(Text("inf")); }
      r := None;
    }

    /** The remaining scalar shapes, once no keyword is next. */
    method ParseQuotedOrBare() returns (r: Result<Cell>)
      requires Valid() && Left() == Skip(Left())
      modifies this
      ensures Valid() && old(pos) <= pos
      ensures Yields(Unkeyed(old(Left())), r, Left())
    {
      ghost var u := Left();
      var bytes := "b\"" <= s[pos..] || "b'" <= s[pos..];
      if bytes {
        var quote := s[pos + 1];
        assert u[2..] == s[pos + 2..];
        pos := pos + 2;
        var t := ReadQuotedText(quote);
        return if t.None? then Err(InvalidArgument) else Ok(Text("b:" + t.value));
      }
      var c := Peek();
      if IsStringQuote(c) {
        assert u[1..] == s[pos + 1..];
        pos := pos + 1;
        var t := ReadQuotedText(c);
        return if t.None? then Err(InvalidArgument) else Ok(Text("" + t.value));
      }
      var ty := TypedAt(s[pos..]);
      if ty.Some? { r := ParseTypedLiteral(Prefix(ty.value), Tag(ty.value)); return; }
      if IsDigit(c) || c == '-' {
        var t := ReadBareToken();
        return Ok(Text("" + t));
      }
      r := Err(InvalidArgument);
    }

    method ParseValue() returns (r: Result<Cell>)
      requires Valid()
      modifies this
      ensures Valid() && old(pos) <= pos
      ensures Yields(Value(old(Left())), r, Left())
      decreases |s| - pos, 1
    {
      SkipSpace();
      var c := Peek();
      if c == '{' {
        var row := ParseRow();
        return if row.Err? then Err(row.code) else Ok(Nested(row.value));
      }
      r := ParseScalar();
    }

    method ParseRow() returns (r: Result<seq<Cell>>)
      requires Valid()
      modifies this
      ensures Valid() && old(pos) <= pos
      ensures Yields(Row(old(Left())), r, Left())
      decreases |s| - pos, 0
    {
      var ok := Consume("{");
      if !ok { return Err(InvalidArgument); }
      var cells: seq<Cell> := [];
      ghost var whole := Cells(Left(), true);
      OntoNothing(whole);
      while true
        invariant Valid() && old(pos) < pos
        invariant whole == Onto(cells, Cells(Left(), cells == []))
        decreases |s| - pos
      {
        ghost var left := Left();
        ok := Consume("}");
        if ok {
          assert cells + [] == cells;
          return Ok(cells);
        }
        SkipTwice(left);
        if cells != [] {
          ok := Consume(",");
          if !ok { return Err(InvalidArgument); }
        }
        ghost var from := Left();
        var val := ParseValue();
        ValueSkips(if cells == [] then left else from);
        if val.Err? { return Err(InvalidArgument); }
        OntoStep(cells, val.value, Cells(Left(), false));
        cells := cells + [val.value];
      }
    }

    method ParseRows() returns (r: Result<seq<seq<Cell>>>)
      requires Valid()
      modifies this
      ensures Valid() && old(pos) <= pos
      ensures match Rows(old(Left()))
              case Err(_) => r.Err?
              case Ok(p) => r == Ok(p.value) && Skip(Left()) == Skip(p.rest)
    {
      SkipSpace();
      var c := Peek();
      if c == ']' { return Ok([]); }
      var rows: seq<seq<Cell>> := [];
      ghost var whole := MoreRows(Left());
      OntoNothing(whole);
      while true
        invariant Valid() && old(pos) <= pos
        invariant whole == Onto(rows, MoreRows(Left()))
        decreases |s| - pos
      {
        var row, more := NextRow();
        if row.Err? { return Err(InvalidArgument); }
        if !more { return Ok(rows + [row.value]); }
        OntoStep(rows, row.value, MoreRows(Left()));
        rows := rows + [row.value];
      }
    }

    /** One row, and the comma after it if more are to come. */
    method NextRow() returns (row: Result<seq<Cell>>, more: bool)
      requires Valid()
      modifies this
      ensures Valid() && old(pos) <= pos && (more ==> old(pos) < pos)
      ensures match Row(old(Left()))
              case Err(_) => row.Err?
              case Ok(p) =>
                if StopsRows(p.rest) then row == Ok(p.value) && !more && Skip(Left()) == Skip(p.rest)
                else if Take(p.rest, ",").None? then row.Err?
                else row == Ok(p.value) && more && Left() == Take(p.rest, ",").value
    {
      ghost var left := Left();
      SkipSpace();
      RowSkips(left);
      row := ParseRow();
      more := false;
      if row.Err? { return; }
      ghost var after := Left();
      SkipSpace();
      SkipTwice(after);
      var c := Peek();
      if c == ']' || c == 0 as char { return; }
      more := Consume(",");
      if !more { row := Err(InvalidArgument); }
    }

    method SkipTypeExpr() returns (ok: bool)
      requires Valid()
      modifies this
      ensures Valid() && old(pos) <= pos
      ensures match SkipType(old(Left()), 1)
              case None => !ok
              case Some(rest) => ok && Left() == rest
    {
      var depth := 1;
      ghost var whole := SkipType(Left(), 1);
      while pos < |s| && depth > 0
        invariant Valid() && old(pos) <= pos && depth >= 0
        invariant if depth > 0 then whole == SkipType(Left(), depth) else whole == Some(Left())
        decreases |s| - pos, depth
      {
        assert s[pos..][1..] == s[pos + 1..];
        if s[pos] == '<' {
          depth := depth + 1;
          pos := pos + 1;
        } else if s[pos] == '>' {
          depth := depth - 1;
          if depth > 0 { pos := pos + 1; }
        } else {
          pos := pos + 1;
        }
      }
      ok := depth == 0;
    }

    method ParseTopArray() returns (r: Result<Expected>)
      requires Valid()
      modifies this
      ensures Valid() && old(pos) <= pos
      ensures Yields(TopArray(old(Left())), r, Left())
    {
      var ok := Consume("ARRAY<");
      if !ok { return Err(InvalidArgument); }
      ok := SkipTypeExpr();
      if !ok { return Err(InvalidArgument); }
      ok := Consume(">");
      if !ok { return Err(InvalidArgument); }
      ok := Consume("[");
      if !ok { return Err(InvalidArgument); }
      r := ParseListing();
    }

    method ParseListing() returns (r: Result<Expected>)
      requires Valid()
      modifies this
      ensures Valid() && old(pos) <= pos
      ensures Yields(Listing(old(Left())), r, Left())
    {
      ghost var inside := Left();
      var ordered := Consume("known order:");
      SkipTwice(inside);
      var rows := ParseRows();
      if rows.Err? { return Err(InvalidArgument); }
      var ok := Consume("]");
      if !ok { return Err(InvalidArgument); }
      r := Ok(Expected(ordered, rows.value));
    }
  }

  /** A method's outcome against the grammar: the same value and the same text left, or both fail. */
  ghost predicate Yields<T>(spec: Result<Parsed<T>>, r: Result<T>, left: string) {
    match spec
    case Err(_) => r.Err?
    case Ok(p) => r == Ok(p.value) && left == p.rest
  }

  lemma SkipTwice(t: string)
    ensures Skip(Skip(t)) == Skip(t)
  {
  }

  lemma ValueSkips(t: string)
    ensures Value(Skip(t)) == Value(t)
  {
    SkipTwice(t);
  }

  lemma RowSkips(t: string)
    ensures Row(Skip(t)) == Row(t) && MoreRows(Skip(t)) == MoreRows(t)
  {
    SkipTwice(t);
  }

  method ParseStanza(raw: string) returns (r: Result<Expected>)
    ensures match ParseExpected(raw)
            case Err(_) => r.Err?
            case Ok(e) => r == Ok(e)
  {
    var s := TrimSpaces(raw);
    if s == "" { return Err(InvalidArgument); }
    var p := new ExpectedParser(s);
    r := p.ParseTopArray();
    if r.Err? { return; }
    var trailing := TrimSpaces(p.s[p.pos..]);
    if trailing != "" { r := Err(InvalidArgument); }
  }
}
