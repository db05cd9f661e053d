/** The `<column> = <literal>` parser of the Storage Read API (backend/storage/row_restriction.cc). */
module RowRestriction {
  import opened Basics
  import opened Schema
  import opened Whitespace

  // ----- The first top-level equals sign -----

  datatype Scan = Outside | Inside(delim: char)

  predicate IsQuote(c: char) {
    c == '\'' || c == '\"'
  }

  /** One character of the plain quote automaton: a delimiter closes, any quote outside opens. */
  function Advance(st: Scan, c: char): Scan {
    match st
    case Outside => if IsQuote(c) then Inside(c) else Outside
    case Inside(d) => if c == d then Outside else st
  }

  function ScanFrom(st: Scan, s: string): Scan
    decreases |s|
  {
    if s == "" then st else ScanFrom(Advance(st, s[0]), s[1..])
  }

  lemma {:induction false} ScanConcat(st: Scan, a: string, b: string)
    ensures ScanFrom(st, a + b) == ScanFrom(ScanFrom(st, a), b)
    decreases |a|
  {
    if a == "" {
      assert a + b == b;
    } else {
      assert (a + b)[1..] == a[1..] + b;
      ScanConcat(Advance(st, a[0]), a[1..], b);
    }
  }

  lemma ScanSnoc(s: string, i: nat)
    requires i < |s|
    ensures ScanFrom(Outside, s[..i + 1]) == Advance(ScanFrom(Outside, s[..i]), s[i])
  {
    assert s[..i + 1] == s[..i] + [s[i]];
    ScanConcat(Outside, s[..i], [s[i]]);
    assert [s[i]][1..] == "";
  }

  /** An equals sign outside every string literal. */
  predicate TopEquals(s: string, i: nat) {
    i < |s| && s[i] == '=' && ScanFrom(Outside, s[..i]).Outside?
  }

  predicate FirstTopEquals(s: string, i: nat) {
    TopEquals(s, i) && forall k | 0 <= k < i :: !TopEquals(s, k)
  }

  /** Where the restriction splits: the first top-level equals sign, when text stands on both sides of it. */
  predicate SplitsAt(s: string, i: nat) {
    FirstTopEquals(s, i) && 0 < i && i + 1 < |s|
  }

  /**
   The scan of the source, with its look-ahead over doubled delimiters, finds what the plain automaton
   finds: a doubled delimiter is a close followed by an open.
   */
  method SplitOnTopLevelEquals(s: string) returns (r: Option<nat>)
    ensures r.Some? ==> SplitsAt(s, r.value)
    ensures r.None? ==> forall i: nat :: !SplitsAt(s, i)
  {
    var st := Outside;
    var i := 0;
    while i < |s|
      invariant 0 <= i <= |s|
      invariant st == ScanFrom(Outside, s[..i]) && (st.Inside? ==> IsQuote(st.delim))
      invariant forall k | 0 <= k < i :: !TopEquals(s, k)
    {
      var c := s[i];
      ScanSnoc(s, i);
      if st.Inside? {
        if c == st.delim {
          if i + 1 < |s| && s[i + 1] == st.delim {
            ScanSnoc(s, i + 1);
            i := i + 1;
          } else {
            st := Outside;
          }
        }
      } else if IsQuote(c) {
        st := Inside(c);
      } else if c == '=' {
        assert TopEquals(s, i);
        return if i == 0 || i + 1 == |s| then None else Some(i);
      }
      i := i + 1;
    }
    r := None;
  }

  // ----- Identifiers -----

  predicate IsAlpha(c: char) {
    'a' <= c <= 'z' || 'A' <= c <= 'Z'
  }

  predicate IsBareIdentifierChar(c: char) {
    IsAlpha(c) || IsDigit(c) || c == '_'
  }

  predicate IsBareName(name: string) {
    name != "" && (IsAlpha(name[0]) || name[0] == '_') && forall i | 0 <= i < |name| :: IsBareIdentifierChar(name[i])
  }

  /** Length of the longest prefix of identifier characters. */
  function BareLength(s: string): (k: nat)
    ensures k <= |s| && (forall i | 0 <= i < k :: IsBareIdentifierChar(s[i]))
    ensures k < |s| ==> !IsBareIdentifierChar(s[k])
  {
    if s == "" || !IsBareIdentifierChar(s[0]) then 0 else 1 + BareLength(s[1..])
  }

  function Identifier(text: string): Result<string> {
    var s := Trim(text);
    if s == "" then Err(InvalidArgument)
    else if s[0] == '`' then
      var close := 1 + Position(s[1..], '`');
      if close == |s| || Trim(s[close + 1..]) != "" then Err(InvalidArgument) else Ok(s[1..close])
    else if !IsAlpha(s[0]) && s[0] != '_' then Err(InvalidArgument)
    else if Trim(s[BareLength(s)..]) != "" then Err(InvalidArgument)
    else Ok(s[..BareLength(s)])
  }

  method ExtractIdentifier(text: string) returns (r: Result<string>)
    ensures r == Identifier(text)
  {
    var s := TrimSpaces(text);
    if s == "" { return Err(InvalidArgument); }
    if s[0] == '`' {
      var close := 1;
      while close < |s| && s[close] != '`'
        invariant 1 <= close <= |s|
        invariant forall k | 1 <= k < close :: s[k] != '`'
      {
        close := close + 1;
      }
      assert close == 1 + Position(s[1..], '`');
      if close == |s| { return Err(InvalidArgument); }
      var rest := TrimSpaces(s[close + 1..]);
      return if rest != "" then Err(InvalidArgument) else Ok(s[1..close]);
    }
    if !IsAlpha(s[0]) && s[0] != '_' { return Err(InvalidArgument); }
    var i := 0;
    while i < |s| && IsBareIdentifierChar(s[i])
      invariant 0 <= i <= |s|
      invariant forall k | 0 <= k < i :: IsBareIdentifierChar(s[k])
    {
      i := i + 1;
    }
    assert i == BareLength(s);
    var rest := TrimSpaces(s[i..]);
    return if rest != "" then Err(InvalidArgument) else Ok(s[..i]);
  }

  lemma BareIdentifier(w: string, name: string, w': string)
    requires AllSpace(w) && AllSpace(w') && IsBareName(name)
    ensures Identifier(w + name + w') == Ok(name)
  {
    TrimPadded(w, name, w');
    assert BareLength(name) == |name|;
    assert name[|name|..] == "" && name[..|name|] == name;
  }

  function Backticked(name: string): string {
    "`" + name + "`"
  }

  /** A backtick-quoted name reads back verbatim, and nothing but whitespace may follow it. */
  lemma BacktickIdentifier(w: string, name: string, rest: string)
    requires AllSpace(w) && '`' !in name
    ensures Identifier(w + Backticked(name) + rest) == if AllSpace(rest) then Ok(name) else Err(InvalidArgument)
  {
    if AllSpace(rest) { BacktickAlone(w, name, rest); } else { BacktickFollowed(w, name, rest); }
  }

  /** A quoted name and what comes after it, cut at the closing backtick. */
  lemma BacktickCut(name: string, after: string)
    requires '`' !in name
    ensures var s := Backticked(name) + after;
            && s[0] == '`' && Position(s[1..], '`') == |name|
            && s[1..|name| + 1] == name && s[|name| + 2..] == after
  {
    var t := (Backticked(name) + after)[1..];
    assert t[|name|] == '`' && forall i | 0 <= i < |name| :: t[i] == name[i];
  }

  lemma BacktickTight(name: string, after: string)
    requires after == "" || !IsSpace(after[|after| - 1])
    ensures Tight(Backticked(name) + after)
  {
    var s := Backticked(name) + after;
    assert s[0] == '`' && s[|s| - 1] == if after == "" then '`' else after[|after| - 1];
  }

  lemma TightIsTrimmed(s: string)
    requires Tight(s)
    ensures Trim(s) == s
  {
    assert "" + s + "" == s;
    TrimPadded("", s, "");
  }

  lemma BacktickTrimmed(name: string, after: string)
    requires '`' !in name && (after == "" || !IsSpace(after[|after| - 1]))
    ensures Tight(Backticked(name) + after)
    ensures Trim(Backticked(name) + after) == Backticked(name) + after
    ensures Identifier(Backticked(name) + after) == if Trim(after) != "" then Err(InvalidArgument) else Ok(name)
  {
    BacktickTight(name, after);
    TightIsTrimmed(Backticked(name) + after);
    BacktickCut(name, after);
    IdentifierAt(Backticked(name) + after, |name| + 1);
  }

  /** A trimmed text with a backtick at both ends of a name. */
  lemma IdentifierAt(s: string, close: nat)
    requires Trim(s) == s && 1 <= close < |s| && s[0] == '`' && Position(s[1..], '`') == close - 1
    ensures Identifier(s) == if Trim(s[close + 1..]) != "" then Err(InvalidArgument) else Ok(s[1..close])
  {
  }

  lemma IdentifierTrims(w: string, s: string, w': string)
    requires AllSpace(w) && AllSpace(w') && Tight(s) && Trim(s) == s
    ensures Identifier(w + s + w') == Identifier(s)
  {
    TrimPadded(w, s, w');
  }

  lemma BacktickAlone(w: string, name: string, rest: string)
    requires AllSpace(w) && '`' !in name && AllSpace(rest)
    ensures Identifier(w + Backticked(name) + rest) == Ok(name)
  {
    assert Backticked(name) + "" == Backticked(name);
    BacktickTrimmed(name, "");
    IdentifierTrims(w, Backticked(name), rest);
  }

  lemma BacktickFollowed(w: string, name: string, rest: string)
    requires AllSpace(w) && '`' !in name && !AllSpace(rest)
    ensures Identifier(w + Backticked(name) + rest) == Err(InvalidArgument)
  {
    var u, u' := TrimShape(rest);
    assert Trim(rest) == "" ==> rest == u + u';
    var after := u + Trim(rest);
    assert after[|after| - 1] == Trim(rest)[|Trim(rest)| - 1] && after == u + Trim(rest) + "";
    TrimPadded(u, Trim(rest), "");
    BacktickTrimmed(name, after);
    IdentifierTrims(w, Backticked(name) + after, u');
    Regroup(w, Backticked(name), u, Trim(rest), u');
  }

  lemma Regroup(w: string, name: string, u: string, tail: string, u': string)
    ensures w + name + (u + tail + u') == w + (name + (u + tail)) + u'
  {
  }

  // ----- String literals -----

  function Double(v: string, d: char): string {
    if v == "" then "" else (if v[0] == d then [d, d] else [v[0]]) + Double(v[1..], d)
  }

  /** The quoted form of a value: delimiters around it, embedded delimiters doubled. */
  function Quoted(v: string, d: char): string {
    [d] + Double(v, d) + [d]
  }

  function Undouble(body: string, d: char): Option<string> {
    if body == "" then Some("")
    else if body[0] != d then Prefixed(body[0], Undouble(body[1..], d))
    else if |body| < 2 || body[1] != d then None
    else Prefixed(d, Undouble(body[2..], d))
  }

  function Prefixed(c: char, rest: Option<string>): Option<string> {
    match rest case None => None case Some(v) => Some([c] + v)
  }

  function StringLiteral(s: string): Result<string> {
    if |s| < 2 || !IsQuote(s[0]) || s[|s| - 1] != s[0] then Err(InvalidArgument)
    else match Undouble(s[1..|s| - 1], s[0])
         case None => Err(InvalidArgument)
         case Some(v) => Ok(v)
  }

  /** What the loop has read so far completes what is left of the body. */
  ghost predicate Reads(acc: string, rest: Option<string>, whole: Option<string>) {
    whole == match rest case None => None case Some(v) => Some(acc + v)
  }

  lemma ReadsStep(acc: string, c: char, rest: Option<string>, whole: Option<string>)
    requires Reads(acc, Prefixed(c, rest), whole)
    ensures Reads(acc + [c], rest, whole)
  {
    if rest.Some? { assert acc + ([c] + rest.value) == (acc + [c]) + rest.value; }
  }

  lemma UndoubleStep(body: string, d: char, i: nat)
    requires i < |body|
    ensures Undouble(body[i..], d) ==
            if body[i] != d then Prefixed(body[i], Undouble(body[i + 1..], d))
            else if i + 1 < |body| && body[i + 1] == d then Prefixed(d, Undouble(body[i + 2..], d))
            else None
  {
    var left := body[i..];
    assert left[1..] == body[i + 1..] && (|left| >= 2 ==> left[1] == body[i + 1] && left[2..] == body[i + 2..]);
  }

  method ParseStringLiteral(s: string) returns (r: Result<string>)
    ensures r == StringLiteral(s)
  {
    if |s| < 2 || !IsQuote(s[0]) || s[|s| - 1] != s[0] { return Err(InvalidArgument); }
    var delim := s[0];
    var acc := "";
    ghost var body := s[1..|s| - 1];
    ghost var whole := Undouble(body, delim);
    assert body[0..] == body && (whole.Some? ==> "" + whole.value == whole.value);
    var i := 1;
    while i + 1 < |s|
      invariant 1 <= i <= |s| - 1
      invariant Reads(acc, Undouble(body[i - 1..], delim), whole)
    {
      UndoubleStep(body, delim, i - 1);
      if s[i] == delim {
        if !(i + 2 < |s| && s[i + 1] == delim) { return Err(InvalidArgument); }
        ReadsStep(acc, delim, Undouble(body[i + 1..], delim), whole);
        acc := acc + [delim];
        i := i + 2;
      } else {
        ReadsStep(acc, s[i], Undouble(body[i..], delim), whole);
        acc := acc + [s[i]];
        i := i + 1;
      }
    }
    assert body[i - 1..] == "" && acc + "" == acc;
    r := Ok(acc);
  }

  lemma {:induction false} UndoubleInverts(v: string, d: char)
    ensures Undouble(Double(v, d), d) == Some(v)
  {
    if v != "" {
      UndoubleInverts(v[1..], d);
      var body := Double(v, d);
      assert v[0] == d ==> body[2..] == Double(v[1..], d);
      assert v[0] != d ==> body[1..] == Double(v[1..], d);
      assert v == [v[0]] + v[1..];
    }
  }

  lemma {:induction false} UndoubleOnly(body: string, d: char)
    requires Undouble(body, d).Some?
    ensures body == Double(Undouble(body, d).value, d)
  {
    if body != "" {
      var v := Undouble(body, d).value;
      if body[0] == d {
        UndoubleOnly(body[2..], d);
        assert v[1..] == Undouble(body[2..], d).value;
        assert body == [d, d] + body[2..];
      } else {
        UndoubleOnly(body[1..], d);
        assert v[1..] == Undouble(body[1..], d).value;
        assert body == [body[0]] + body[1..];
      }
    }
  }

  /** Exactly the quoted forms are accepted, and each reads back as the value it quotes. */
  lemma StringLiteralExact(s: string, v: string)
    ensures StringLiteral(s) == Ok(v) <==> s == Quoted(v, '\'') || s == Quoted(v, '\"')
  {
    if StringLiteral(s) == Ok(v) { LiteralIsQuoted(s, v); }
    QuotedReads(v, '\'');
    QuotedReads(v, '\"');
  }

  lemma LiteralIsQuoted(s: string, v: string)
    requires StringLiteral(s) == Ok(v)
    ensures s != "" && IsQuote(s[0]) && s == Quoted(v, s[0])
  {
    UndoubleOnly(s[1..|s| - 1], s[0]);
    Delimited(s, s[0]);
  }

  lemma Delimited(s: string, d: char)
    requires |s| >= 2 && s[0] == d && s[|s| - 1] == d
    ensures s == [d] + s[1..|s| - 1] + [d]
  {
  }

  lemma QuotedReads(v: string, d: char)
    requires IsQuote(d)
    ensures StringLiteral(Quoted(v, d)) == Ok(v)
  {
    var s := Quoted(v, d);
    assert s[1..|s| - 1] == Double(v, d);
    UndoubleInverts(v, d);
  }

  // ----- The other literals -----

  function BoolLiteral(s: string): Result<bool> {
    if Lower(s) == "true" then Ok(true) else if Lower(s) == "false" then Ok(false) else Err(InvalidArgument)
  }

  /** An optional sign and decimal digits within 64 bits; a point or exponent is refused before. */
  function Int64Literal(s: string): Result<int> {
    if '.' in s || 'e' in s || 'E' in s then Err(InvalidArgument)
    else match ParseInt64(s)
         case None => Err(InvalidArgument)
         case Some(n) => Ok(n)
  }

  lemma Int64RoundTrip(n: int)
    requires IsInt64(n)
    ensures Int64Literal(if n < 0 then "-" + Decimal(-n) else Decimal(n)) == Ok(n)
  {
    if n < 0 {
      DecimalRoundTrip(-n);
      MinusParses(Decimal(-n), -n);
      NoPointOrExponent("-", Decimal(-n));
    } else {
      DecimalRoundTrip(n);
      DigitsParse(Decimal(n));
      NoPointOrExponent("", Decimal(n));
    }
  }

  lemma NoPointOrExponent(sign: string, digits: string)
    requires AllDigits(digits) && (sign == "" || sign == "-")
    ensures var s := sign + digits; '.' !in s && 'e' !in s && 'E' !in s && (sign == "" ==> s == digits)
  {
  }

  // ----- The whole restriction -----

  datatype Literal = IntValue(n: int) | BoolValue(b: bool) | StringValue(s: string)

  datatype EqualityPredicate = EqualityPredicate(column: string, index: nat, value: Literal)

  const BANNED: seq<string> :=
    [" AND ", " and ", " OR ", " or ", " NOT ", " not ", " IN ", " in ", " IS ", " is ",
     " LIKE ", " like ", " BETWEEN ", " between ", "<=", ">=", "!=", "<>", "<", ">"]

  predicate HasBanned(s: string) {
    exists i :: 0 <= i < |BANNED| && Contains(s, BANNED[i])
  }

  /** The typed literal for a column, or an error for a column that equality does not support. */
  function LiteralFor(column: Column, lit: string): Result<Literal> {
    if column.mode.Repeated? || lit == "" then Err(InvalidArgument)
    else match column.typ
         case Int64 => (match Int64Literal(lit) case Ok(n) => Ok(IntValue(n)) case Err(c) => Err(c))
         case Boolean => (match BoolLiteral(lit) case Ok(b) => Ok(BoolValue(b)) case Err(c) => Err(c))
         case String => (match StringLiteral(lit) case Ok(s) => Ok(StringValue(s)) case Err(c) => Err(c))
         case _ => Err(InvalidArgument)
  }

  /** The predicate read from a column part and a literal part. */
  function Assemble(lhs: string, rhs: string, schema: seq<Column>): Result<EqualityPredicate> {
    match Identifier(lhs)
    case Err(code) => Err(code)
    case Ok(name) =>
      var i := IndexOf(schema, name);
      IndexOfFirst(schema, name);
      if i < 0 then Err(InvalidArgument)
      else match LiteralFor(schema[i], Trim(rhs))
           case Err(code) => Err(code)
           case Ok(v) => Ok(EqualityPredicate(name, i, v))
  }

  /** The text splits into a column and a literal that make up `p`. */
  ghost predicate MadeOf(s: string, schema: seq<Column>, p: EqualityPredicate) {
    exists i: nat :: SplitsAt(s, i) && Assemble(s[..i], s[i + 1..], schema) == Ok(p)
  }

  /** `p` is what the restriction means; blank restrictions mean no predicate. */
  ghost predicate Means(text: string, schema: seq<Column>, p: Option<EqualityPredicate>) {
    var s := Trim(text);
    if s == "" then p == None
    else !HasBanned(s) && p.Some? && MadeOf(s, schema, p.value)
  }

  method ContainsBanned(s: string) returns (b: bool)
    ensures b == HasBanned(s)
  {
    var i := 0;
    while i < |BANNED|
      invariant 0 <= i <= |BANNED|
      invariant forall k | 0 <= k < i :: !Contains(s, BANNED[k])
    {
      if Contains(s, BANNED[i]) { return true; }
      i := i + 1;
    }
    b := false;
  }

  method FindColumn(schema: seq<Column>, name: string) returns (i: int)
    ensures i == IndexOf(schema, name)
  {
    IndexOfFirst(schema, name);
    i := 0;
    while i < |schema|
      invariant 0 <= i <= |schema|
      invariant forall k | 0 <= k < i :: schema[k].name != name
    {
      if schema[i].name == name { return; }
      i := i + 1;
    }
    i := -1;
  }

  method ParseLiteral(column: Column, lit: string) returns (value: Result<Literal>)
    ensures value == LiteralFor(column, lit)
  {
    if column.mode.Repeated? || column.typ.Array? || column.typ.Struct? || lit == "" { return Err(InvalidArgument); }
    match column.typ {
      case Int64 => value := match Int64Literal(lit) case Ok(n) => Ok(IntValue(n)) case Err(c) => Err(c);
      case Boolean => value := match BoolLiteral(lit) case Ok(b) => Ok(BoolValue(b)) case Err(c) => Err(c);
      case String =>
        var v := ParseStringLiteral(lit);
        value := match v case Ok(x) => Ok(StringValue(x)) case Err(c) => Err(c);
      case _ => value := Err(InvalidArgument);
    }
  }

  method ParseRowRestriction(text: string, schema: seq<Column>) returns (r: Result<Option<EqualityPredicate>>)
    ensures r.Ok? ==> Means(text, schema, r.value)
    ensures r.Err? ==> r.code == InvalidArgument && forall p :: !Means(text, schema, p)
  {
    var s := TrimSpaces(text);
    if s == "" { return Ok(None); }
    var banned := ContainsBanned(s);
    if banned { return Err(InvalidArgument); }
    var split := SplitOnTopLevelEquals(s);
    if split.None? { return Err(InvalidArgument); }
    var at := split.value;
    SplitUnique(s, at);
    var p := ParseParts(s[..at], s[at + 1..], schema);
    r := if p.Ok? then Ok(Some(p.value)) else Err(InvalidArgument);
  }

  method ParseParts(lhs: string, rhs: string, schema: seq<Column>) returns (r: Result<EqualityPredicate>)
    ensures if r.Ok? then r == Assemble(lhs, rhs, schema) else Assemble(lhs, rhs, schema).Err?
  {
    var name := ExtractIdentifier(lhs);
    if name.Err? { return Err(InvalidArgument); }
    var i := FindColumn(schema, name.value);
    IndexOfFirst(schema, name.value);
    if i < 0 { return Err(InvalidArgument); }
    var lit := TrimSpaces(rhs);
    var value := ParseLiteral(schema[i], lit);
    if value.Err? { return Err(InvalidArgument); }
    r := Ok(EqualityPredicate(name.value, i, value.value));
  }

  lemma SplitUnique(s: string, at: nat)
    requires SplitsAt(s, at)
    ensures forall i: nat | SplitsAt(s, i) :: i == at
  {
  }

  /** A restriction has at most one meaning. */
  lemma MeaningUnique(text: string, schema: seq<Column>, p: Option<EqualityPredicate>, q: Option<EqualityPredicate>)
    requires Means(text, schema, p) && Means(text, schema, q)
    ensures p == q
  {
    if Trim(text) != "" { MadeOfUnique(Trim(text), schema, p.value, q.value); }
  }

  lemma MadeOfUnique(s: string, schema: seq<Column>, p: EqualityPredicate, q: EqualityPredicate)
    requires MadeOf(s, schema, p) && MadeOf(s, schema, q)
    ensures p == q
  {
    var i: nat :| SplitsAt(s, i) && Assemble(s[..i], s[i + 1..], schema) == Ok(p);
    AssembledAt(s, schema, i, q);
  }

  lemma AssembledAt(s: string, schema: seq<Column>, at: nat, p: EqualityPredicate)
    requires SplitsAt(s, at) && MadeOf(s, schema, p)
    ensures Assemble(s[..at], s[at + 1..], schema) == Ok(p)
  {
    SplitUnique(s, at);
  }

  // ----- Exactness on strings -----

  lemma {:induction false} QuoteFreeScan(st: Scan, s: string)
    requires forall i | 0 <= i < |s| :: !IsQuote(s[i])
    requires st.Inside? ==> IsQuote(st.delim)
    ensures ScanFrom(st, s) == st
    decreases |s|
  {
    if s != "" { QuoteFreeScan(st, s[1..]); }
  }

  /** `lhs` is a column part, `rhs` what follows the equals sign. */
  function Equation(lhs: string, rhs: string): string {
    lhs + "=" + rhs
  }

  lemma EquationParts(lhs: string, rhs: string)
    ensures var core := Equation(lhs, rhs);
            core[..|lhs|] == lhs && core[|lhs|] == '=' && core[|lhs| + 1..] == rhs
  {
  }

  /** A text of whitespace, column part, equals sign and padded quoted value trims to its equation. */
  lemma TrimEquation(w: string, lhs: string, rhs: string, w': string)
    requires AllSpace(w) && AllSpace(w') && lhs != "" && !IsSpace(lhs[0]) && rhs != "" && !IsSpace(rhs[|rhs| - 1])
    ensures Trim(w + Equation(lhs, rhs) + w') == Equation(lhs, rhs)
  {
    TrimPadded(w, Equation(lhs, rhs), w');
  }

  predicate StringColumn(schema: seq<Column>, name: string) {
    HasName(schema, name) &&
    (IndexOfFirst(schema, name);
     var column := schema[IndexOf(schema, name)];
     column.typ.String? && !column.mode.Repeated?)
  }

  lemma AssembleString(lhs: string, name: string, w: string, v: string, d: char, schema: seq<Column>)
    requires Identifier(lhs) == Ok(name) && AllSpace(w) && IsQuote(d) && StringColumn(schema, name)
    ensures 0 <= IndexOf(schema, name)
    ensures Assemble(lhs, w + Quoted(v, d), schema) ==
            Ok(EqualityPredicate(name, IndexOf(schema, name), StringValue(v)))
  {
    IndexOfFirst(schema, name);
    assert w + Quoted(v, d) + "" == w + Quoted(v, d);
    TrimPadded(w, Quoted(v, d), "");
    QuotedReads(v, d);
  }

  /** A bare column name and a quoted value parse to exactly that value, unless a banned fragment occurs. */
  lemma BareStringRestriction(w: string, name: string, w1: string, w2: string, v: string, d: char, w3: string,
                              schema: seq<Column>)
    requires AllSpace(w) && AllSpace(w1) && AllSpace(w2) && AllSpace(w3)
    requires IsBareName(name) && IsQuote(d) && StringColumn(schema, name)
    ensures var core := Equation(name + w1, w2 + Quoted(v, d));
            && 0 <= IndexOf(schema, name)
            && (Means(w + core + w3, schema, Some(EqualityPredicate(name, IndexOf(schema, name), StringValue(v)))) <==>
                !HasBanned(core))
  {
    var lhs, rhs := name + w1, w2 + Quoted(v, d);
    var core := Equation(lhs, rhs);
    assert rhs[|rhs| - 1] == d;
    TrimEquation(w, lhs, rhs, w3);
    EquationParts(lhs, rhs);
    assert forall i | 0 <= i < |lhs| :: !IsQuote(lhs[i]) && lhs[i] != '=' && core[i] == lhs[i];
    QuoteFreeScan(Outside, lhs);
    assert SplitsAt(core, |lhs|);
    assert "" + name + w1 == lhs;
    BareIdentifier("", name, w1);
    AssembleString(lhs, name, w2, v, d, schema);
  }

  /** The quote scan passes over the name: it ends outside a literal and meets no equals sign on the way. */
  predicate ScanClear(name: string) {
    ScanFrom(Outside, name).Outside? && forall k | 0 <= k < |name| :: !TopEquals(name, k)
  }

  lemma BacktickScan(name: string, k: nat)
    requires k <= |name|
    ensures ScanFrom(Outside, "`" + name[..k]) == ScanFrom(Outside, name[..k])
  {
    ScanConcat(Outside, "`", name[..k]);
    QuoteFreeScan(Outside, "`");
  }

  lemma UnclosedBacktick(x: string)
    requires '`' !in x
    ensures Identifier("`" + x).Err?
  {
    var s := "`" + x;
    var w, w' := TrimShape(s);
    assert |w| > 0 ==> IsSpace(s[0]);
    var core := Trim(s);
    assert core != "" by { assert core == "" ==> s == w'; }
    assert forall i | 0 <= i < |core| :: core[i] == s[i];
    assert forall i | 0 <= i < |core[1..]| :: core[1..][i] == x[i];
    assert Position(core[1..], '`') == |core| - 1;
  }

  /** In the equation of a backtick-quoted name, positions inside the name are top-level as in the name itself. */
  lemma BacktickTop(name: string, w1: string, rhs: string, k: nat)
    requires k < |name|
    ensures var core := Equation(Backticked(name) + w1, rhs);
            k + 1 < |core| && (TopEquals(core, k + 1) <==> TopEquals(name, k))
  {
    var core := Equation(Backticked(name) + w1, rhs);
    assert core[..k + 1] == "`" + name[..k] && core[k + 1] == name[k];
    BacktickScan(name, k);
  }

  lemma BacktickScanLhs(name: string, w1: string)
    requires AllSpace(w1)
    ensures ScanFrom(Outside, Backticked(name) + w1) == ScanFrom(Outside, name)
  {
    assert Backticked(name) + w1 == ("`" + name[..|name|]) + ("`" + w1);
    ScanConcat(Outside, "`" + name[..|name|], "`" + w1);
    BacktickScan(name, |name|);
    assert name[..|name|] == name;
    ScanDelim(Outside, name);
    QuoteFreeScan(ScanFrom(Outside, name), "`" + w1);
  }

  lemma {:induction false} ScanDelim(st: Scan, s: string)
    requires st.Inside? ==> IsQuote(st.delim)
    ensures ScanFrom(st, s).Inside? ==> IsQuote(ScanFrom(st, s).delim)
    decreases |s|
  {
    if s != "" { ScanDelim(Advance(st, s[0]), s[1..]); }
  }

  /** Before the equals sign, the only top-level equals signs are those inside the backticks. */
  lemma BacktickSplit(name: string, w1: string, rhs: string, i: nat)
    requires AllSpace(w1) && rhs != ""
    ensures var lhs := Backticked(name) + w1;
            SplitsAt(Equation(lhs, rhs), i) ==>
              if ScanClear(name) then i == |lhs| else 0 < i <= |name| || i > |lhs|
    ensures ScanClear(name) ==> SplitsAt(Equation(Backticked(name) + w1, rhs), |Backticked(name) + w1|)
  {
    var lhs := Backticked(name) + w1;
    var core := Equation(lhs, rhs);
    EquationParts(lhs, rhs);
    BacktickScanLhs(name, w1);
    forall k | 0 <= k < |lhs| ensures TopEquals(core, k) <==> 1 <= k <= |name| && TopEquals(name, k - 1) {
      if 1 <= k <= |name| {
        BacktickTop(name, w1, rhs, k - 1);
      } else {
        assert core[k] == lhs[k] && (k > |name| + 1 ==> lhs[k] == w1[k - |name| - 2]);
      }
    }
    forall k | 0 <= k < |name| ensures TopEquals(name, k) ==> TopEquals(core, k + 1) {
      BacktickTop(name, w1, rhs, k);
    }
    assert TopEquals(core, |lhs|) <==> ScanFrom(Outside, name).Outside?;
  }

  /** Where the scan does not pass over the name, the column part it leaves is no identifier. */
  lemma BacktickRefused(name: string, w1: string, rhs: string, i: nat)
    requires AllSpace(w1) && rhs != "" && '`' !in name && !ScanClear(name)
    requires SplitsAt(Equation(Backticked(name) + w1, rhs), i)
    ensures Identifier(Equation(Backticked(name) + w1, rhs)[..i]).Err?
  {
    var core := Equation(Backticked(name) + w1, rhs);
    BacktickSplit(name, w1, rhs, i);
    if i <= |name| {
      assert core[..i] == "`" + name[..i - 1];
      UnclosedBacktick(name[..i - 1]);
    } else {
      var rest := core[|name| + 2..i];
      assert core[..i] == "" + Backticked(name) + rest;
      assert rest[|w1|] == '=';
      BacktickIdentifier("", name, rest);
    }
  }

  /**
   A backtick-quoted column name works exactly when the quote scan passes over it; otherwise the split
   falls inside the name or after the equals sign, and the restriction is refused.
   */
  lemma BacktickStringRestriction(w: string, name: string, w1: string, w2: string, v: string, d: char, w3: string,
                                  schema: seq<Column>)
    requires AllSpace(w) && AllSpace(w1) && AllSpace(w2) && AllSpace(w3)
    requires '`' !in name && IsQuote(d) && StringColumn(schema, name)
    ensures var core := Equation(Backticked(name) + w1, w2 + Quoted(v, d));
            && 0 <= IndexOf(schema, name)
            && (!HasBanned(core) && ScanClear(name) ==>
                Means(w + core + w3, schema, Some(EqualityPredicate(name, IndexOf(schema, name), StringValue(v)))))
            && (HasBanned(core) || !ScanClear(name) ==> forall p :: !Means(w + core + w3, schema, p))
  {
    var lhs, rhs := Backticked(name) + w1, w2 + Quoted(v, d);
    var core := Equation(lhs, rhs);
    assert rhs[|rhs| - 1] == d;
    TrimEquation(w, lhs, rhs, w3);
    EquationParts(lhs, rhs);
    BacktickSplit(name, w1, rhs, |lhs|);
    assert "" + Backticked(name) + w1 == lhs;
    BacktickIdentifier("", name, w1);
    AssembleString(lhs, name, w2, v, d, schema);
    if !ScanClear(name) {
      forall i: nat | SplitsAt(core, i) ensures Assemble(core[..i], core[i + 1..], schema).Err? {
        BacktickRefused(name, w1, rhs, i);
      }
    }
  }

  /** Any successful STRING parse names the first column of that name and re-encodes to the trimmed literal. */
  lemma StringMeaningReencodes(text: string, schema: seq<Column>, p: EqualityPredicate) returns (i: nat)
    requires Means(text, schema, Some(p)) && p.value.StringValue?
    ensures SplitsAt(Trim(text), i)
    ensures var lit := Trim(Trim(text)[i + 1..]);
            lit == Quoted(p.value.s, '\'') || lit == Quoted(p.value.s, '\"')
    ensures Identifier(Trim(text)[..i]) == Ok(p.column)
    ensures StringColumn(schema, p.column) && p.index == IndexOf(schema, p.column)
  {
    var s := Trim(text);
    i :| SplitsAt(s, i) && Assemble(s[..i], s[i + 1..], schema) == Ok(p);
    IndexOfFirst(schema, p.column);
    StringLiteralExact(Trim(s[i + 1..]), p.value.s);
  }
}
