/**
 Which texts spell which literal, and so which restrictions mean what, for every column type
 (backend/storage/row_restriction.cc).
 */
module RestrictionLiterals {
  import opened Basics
  import opened RowRestriction
  import opened Schema
  import opened Whitespace

  // ----- Spellings -----

  /** `lit` is decimal digits with an optional sign, and denotes `n`. */
  ghost predicate SpellsInt(lit: string, n: int) {
    exists digits: string :: SignedDigits(lit, digits, n)
  }

  predicate SignedDigits(lit: string, digits: string, n: int) {
    digits != "" && AllDigits(digits) &&
    (((lit == digits || lit == "+" + digits) && n == DecimalValue(digits)) ||
     (lit == "-" + digits && n == -(DecimalValue(digits) as int)))
  }

  predicate InRange(n: int) {
    -9223372036854775808 <= n <= 9223372036854775807
  }

  /** What a literal for the column may look like. */
  ghost predicate Spells(column: Column, lit: string, v: Literal) {
    !column.mode.Repeated? &&
    match column.typ
    case Int64 => v.IntValue? && InRange(v.n) && SpellsInt(lit, v.n)
    case Boolean => v.BoolValue? && Lower(lit) == if v.b then "true" else "false"
    case String => v.StringValue? && (lit == Quoted(v.s, '\'') || lit == Quoted(v.s, '\"'))
    case _ => false
  }

  lemma SignedParse(lit: string, digits: string, n: int)
    requires SignedDigits(lit, digits, n) && IsInt64(n)
    ensures Int64Literal(lit) == Ok(n)
  {
    if lit == digits {
      DigitsParse(digits);
      NoPoint("", digits);
      assert "" + digits == digits;
    } else if lit == "+" + digits {
      assert lit[1..] == digits;
      NoPoint("+", digits);
    } else {
      MinusParses(digits, -n);
      NoPoint("-", digits);
    }
  }

  lemma NoPoint(sign: string, digits: string)
    requires AllDigits(digits) && (sign == "" || sign == "-" || sign == "+")
    ensures var s := sign + digits; '.' !in s && 'e' !in s && 'E' !in s
  {
  }

  /** Exactly the signed digit texts within 64 bits are read, each as the number it denotes. */
  lemma Int64LiteralIff(lit: string, n: int)
    ensures Int64Literal(lit) == Ok(n) <==> InRange(n) && SpellsInt(lit, n)
  {
    if Int64Literal(lit) == Ok(n) {
      var digits := if lit[0] == '-' || lit[0] == '+' then lit[1..] else lit;
      assert lit == [lit[0]] + lit[1..];
      assert SignedDigits(lit, digits, n);
    }
    if digits: string :| IsInt64(n) && SignedDigits(lit, digits, n) { SignedParse(lit, digits, n); }
  }

  /** A column reads exactly the texts that spell a literal of its type. */
  lemma LiteralForIff(column: Column, lit: string, v: Literal)
    ensures LiteralFor(column, lit) == Ok(v) <==> Spells(column, lit, v)
  {
    if column.typ.Int64? && v.IntValue? { Int64LiteralIff(lit, v.n); }
    if column.typ.String? && v.StringValue? { StringLiteralExact(lit, v.s); }
    NotEmpty(lit, v);
  }

  lemma NotEmpty(lit: string, v: Literal)
    ensures v.IntValue? && SpellsInt(lit, v.n) ==> lit != ""
    ensures Lower("") != "true" && Lower("") != "false" && |"true"| == 4 && |"false"| == 5
    ensures v.StringValue? ==> Quoted(v.s, '\'') != "" && Quoted(v.s, '\"') != ""
  {
  }

  /** A spelling neither starts nor ends with space. */
  lemma SpelledTight(column: Column, lit: string, v: Literal)
    requires Spells(column, lit, v)
    ensures Tight(lit)
  {
    if column.typ.Int64? {
      var digits: string :| SignedDigits(lit, digits, v.n);
      assert lit[|lit| - 1] == digits[|digits| - 1] && IsDigit(digits[|digits| - 1]);
    } else if column.typ.Boolean? {
      WordTight(lit, if v.b then "true" else "false");
    }
  }

  lemma WordTight(lit: string, word: string)
    requires Lower(lit) == word && (word == "true" || word == "false")
    ensures Tight(lit)
  {
    assert Lower(lit)[0] == LowerChar(lit[0]) && Lower(lit)[|lit| - 1] == LowerChar(lit[|lit| - 1]);
    assert word[0] in {'t', 'f'} && word[|word| - 1] == 'e';
  }

  // ----- Restrictions -----

  /** The column a name picks out is the first one called so. */
  predicate Picks(schema: seq<Column>, name: string, i: nat) {
    i < |schema| && schema[i].name == name && forall j | 0 <= j < i :: schema[j].name != name
  }

  lemma PicksIff(schema: seq<Column>, name: string, i: nat)
    ensures Picks(schema, name, i) <==> IndexOf(schema, name) == i
  {
    IndexOfFirst(schema, name);
    if Picks(schema, name, i) { assert HasName(schema, name); }
  }

  lemma AssembleIff(lhs: string, rhs: string, schema: seq<Column>, p: EqualityPredicate)
    ensures Assemble(lhs, rhs, schema) == Ok(p) <==>
            && Identifier(lhs) == Ok(p.column) && Picks(schema, p.column, p.index)
            && Spells(schema[p.index], Trim(rhs), p.value)
  {
    PicksIff(schema, p.column, p.index);
    IndexOfFirst(schema, p.column);
    if Identifier(lhs) == Ok(p.column) && Picks(schema, p.column, p.index) {
      LiteralForIff(schema[p.index], Trim(rhs), p.value);
    }
  }

  /**
   A restriction means `p` exactly when it has no banned fragment and its first top-level equals sign
   stands between a spelling of `p`'s column and a spelling of `p`'s value for that column.
   */
  lemma MeansIff(text: string, schema: seq<Column>, p: EqualityPredicate)
    ensures Means(text, schema, Some(p)) <==>
            !HasBanned(Trim(text)) &&
            exists i: nat :: SplitsAt(Trim(text), i) && ReadsAs(Trim(text)[..i], Trim(text)[i + 1..], schema, p)
  {
    var s := Trim(text);
    forall i: nat | SplitsAt(s, i)
      ensures Assemble(s[..i], s[i + 1..], schema) == Ok(p) <==> ReadsAs(s[..i], s[i + 1..], schema, p)
    {
      AssembleIff(s[..i], s[i + 1..], schema, p);
    }
  }

  ghost predicate ReadsAs(lhs: string, rhs: string, schema: seq<Column>, p: EqualityPredicate) {
    && Identifier(lhs) == Ok(p.column) && Picks(schema, p.column, p.index)
    && Spells(schema[p.index], Trim(rhs), p.value)
  }

  /** A bare column name and any spelling of a value mean that value, unless a banned fragment occurs. */
  lemma BareRestriction(w: string, name: string, w1: string, w2: string, lit: string, w3: string,
                        schema: seq<Column>, p: EqualityPredicate)
    requires AllSpace(w) && AllSpace(w1) && AllSpace(w2) && AllSpace(w3) && IsBareName(name)
    requires p.column == name && Picks(schema, name, p.index) && Spells(schema[p.index], lit, p.value)
    ensures var core := Equation(name + w1, w2 + lit);
            Means(w + core + w3, schema, Some(p)) <==> !HasBanned(core)
  {
    var lhs, rhs := name + w1, w2 + lit;
    var core := Equation(lhs, rhs);
    SpelledTight(schema[p.index], lit, p.value);
    assert rhs[|rhs| - 1] == lit[|lit| - 1];
    TrimEquation(w, lhs, rhs, w3);
    BareSplit(name, w1, rhs);
    assert "" + name + w1 == lhs;
    BareIdentifier("", name, w1);
    assert w2 + lit + "" == rhs;
    TrimPadded(w2, lit, "");
    EquationParts(lhs, rhs);
    assert ReadsAs(core[..|lhs|], core[|lhs| + 1..], schema, p);
    MeansIff(w + core + w3, schema, p);
  }

  lemma BareSplit(name: string, w1: string, rhs: string)
    requires IsBareName(name) && AllSpace(w1) && rhs != ""
    ensures SplitsAt(Equation(name + w1, rhs), |name + w1|)
  {
    var lhs := name + w1;
    var core := Equation(lhs, rhs);
    EquationParts(lhs, rhs);
    assert forall i | 0 <= i < |lhs| :: !IsQuote(lhs[i]) && lhs[i] != '=' && core[i] == lhs[i];
    QuoteFreeScan(Outside, lhs);
  }

  // ----- Columns and banned fragments -----

  /** A column part is a bare name, or any name without a backtick between backticks, with space around it. */
  lemma IdentifierIff(text: string, name: string)
    ensures Identifier(text) == Ok(name) <==>
            (IsWord(name) && Padded(text, name)) || ('`' !in name && Padded(text, "`" + name + "`"))
  {
    WordIff(name);
    if IsWord(name) && Padded(text, name) {
      var w, w' :| AllSpace(w) && AllSpace(w') && text == w + name + w';
      BareIdentifier(w, name, w');
    }
    if '`' !in name && Padded(text, Backticked(name)) {
      var w, w' :| AllSpace(w) && AllSpace(w') && text == w + Backticked(name) + w';
      BacktickIdentifier(w, name, w');
    }
    if Identifier(text) == Ok(name) { IdentifierShape(text, name); }
  }

  /** Letters, digits and underscores, with no digit in front. */
  predicate IsWord(name: string) {
    name != "" && !('0' <= name[0] <= '9') &&
    forall c | c in name :: 'a' <= c <= 'z' || 'A' <= c <= 'Z' || '0' <= c <= '9' || c == '_'
  }

  lemma WordIff(name: string)
    ensures IsWord(name) <==> IsBareName(name)
  {
    assert name != "" ==> name[0] in name;
    assert IsWord(name) ==> forall i | 0 <= i < |name| :: name[i] in name;
  }

  ghost predicate Padded(text: string, s: string) {
    exists w, w' :: AllSpace(w) && AllSpace(w') && text == w + s + w'
  }

  lemma IdentifierShape(text: string, name: string)
    requires Identifier(text) == Ok(name)
    ensures (IsBareName(name) && Padded(text, name)) || ('`' !in name && Padded(text, Backticked(name)))
  {
    var w, w' := TrimShape(text);
    var s := Trim(text);
    assert Padded(text, s);
    if s[0] == '`' {
      var close := 1 + Position(s[1..], '`');
      EndsTight(s, close + 1);
      assert s == Backticked(name) && forall i | 0 <= i < |name| :: name[i] == s[1..][i];
    } else {
      EndsTight(s, BareLength(s));
      assert s == name;
    }
  }

  lemma EndsTight(s: string, k: nat)
    requires k <= |s| && s != "" && !IsSpace(s[|s| - 1]) && Trim(s[k..]) == ""
    ensures k == |s|
  {
    if k < |s| {
      var w, w' := TrimShape(s[k..]);
    }
  }

  /** No equals sign inside a string literal is a split, and the scan comes out of the literal at its end. */
  lemma QuotedHidesEquals(v: string, d: char, k: nat)
    requires IsQuote(d)
    ensures ScanFrom(Outside, Quoted(v, d)) == Outside
    ensures !TopEquals(Quoted(v, d), k)
  {
    var s := Quoted(v, d);
    assert s[..|s|] == s;
    QuotedScan(v, d, |s| - 1);
    DoubledWhole(v, d);
    ScanSnoc(s, |s| - 1);
    if 1 <= k < |s| - 1 {
      QuotedScan(v, d, k);
      DoubledPart(v, d, k - 1);
    }
  }

  /** After the opening delimiter the scan is that of the doubled text. */
  lemma QuotedScan(v: string, d: char, k: nat)
    requires IsQuote(d) && 1 <= k < |Quoted(v, d)|
    ensures ScanFrom(Outside, Quoted(v, d)[..k]) == ScanFrom(Inside(d), Double(v, d)[..k - 1])
    ensures k < |Quoted(v, d)| - 1 ==> Quoted(v, d)[k] == Double(v, d)[k - 1]
    ensures k == |Quoted(v, d)| - 1 ==> Quoted(v, d)[k] == d && Double(v, d)[..k - 1] == Double(v, d)
  {
    var body := Double(v, d);
    assert Quoted(v, d)[..k] == [d] + body[..k - 1];
    assert ([d] + body[..k - 1])[1..] == body[..k - 1];
  }

  function DoubledChar(c: char, d: char): string {
    if c == d then [d, d] else [c]
  }

  lemma DoubledCons(v: string, d: char)
    requires v != ""
    ensures Double(v, d) == DoubledChar(v[0], d) + Double(v[1..], d)
  {
  }

  /** The scan is still inside after doubled text. */
  lemma {:induction false} DoubledWhole(v: string, d: char)
    requires IsQuote(d)
    ensures ScanFrom(Inside(d), Double(v, d)) == Inside(d)
  {
    if v != "" {
      DoubledCons(v, d);
      HeadScan(v[0], d);
      ScanConcat(Inside(d), DoubledChar(v[0], d), Double(v[1..], d));
      DoubledWhole(v[1..], d);
    }
  }

  /** Within doubled text it is inside but in the middle of a doubled delimiter. */
  lemma {:induction false} DoubledPart(v: string, d: char, k: nat)
    requires IsQuote(d) && k < |Double(v, d)|
    ensures ScanFrom(Inside(d), Double(v, d)[..k]) == Inside(d) || Double(v, d)[k] == d
    decreases |v|
  {
    DoubledCons(v, d);
    var first, rest := DoubledChar(v[0], d), Double(v[1..], d);
    if k >= |first| {
      PrefixAfter(first, rest, k);
      HeadScan(v[0], d);
      ScanConcat(Inside(d), first, rest[..k - |first|]);
      DoubledPart(v[1..], d, k - |first|);
    }
  }

  lemma PrefixAfter(a: string, b: string, k: nat)
    requires |a| <= k < |a + b|
    ensures (a + b)[..k] == a + b[..k - |a|] && (a + b)[k] == b[k - |a|]
  {
  }

  lemma HeadScan(c: char, d: char)
    requires IsQuote(d)
    ensures ScanFrom(Inside(d), DoubledChar(c, d)) == Inside(d)
  {
    assert [d, d][1..] == [d] && [d][1..] == "" && [c][1..] == "";
    assert ScanFrom(Inside(d), [d, d]) == ScanFrom(Outside, [d]) && ScanFrom(Outside, [d]) == ScanFrom(Inside(d), "");
  }

  const CONNECTIVES := ["AND", "OR", "NOT", "IN", "IS", "LIKE", "BETWEEN"]

  predicate HasConnective(s: string) {
    exists k | k in CONNECTIVES :: Contains(s, " " + k + " ") || Contains(s, " " + Lower(k) + " ")
  }

  const FOLDED := ["and", "or", "not", "in", "is", "like", "between"]

  lemma ConnectivesFold(k: nat)
    requires k < |CONNECTIVES|
    ensures Lower(CONNECTIVES[k]) == FOLDED[k]
  {
    assert Lower("AND") == "and" && Lower("OR") == "or" && Lower("NOT") == "not" && Lower("IN") == "in";
    assert Lower("IS") == "is" && Lower("LIKE") == "like" && Lower("BETWEEN") == "between";
  }

  lemma Spaced(k: nat)
    requires k < |CONNECTIVES|
    ensures BANNED[2 * k] == " " + CONNECTIVES[k] + " "
  {
  }

  lemma SpacedFolded(k: nat)
    requires k < |FOLDED|
    ensures BANNED[2 * k + 1] == " " + FOLDED[k] + " "
  {
  }

  lemma ContainsChar(s: string, c: char)
    ensures Contains(s, [c]) <==> c in s
  {
    if c in s {
      var i :| 0 <= i < |s| && s[i] == c;
      assert s[i..i + 1] == [c];
      assert OccursAt(s, [c], i);
    }
    if i :| 0 <= i <= |s| && OccursAt(s, [c], i) { assert s[i..i + 1][0] == s[i]; }
  }

  lemma HoldsOperator(s: string, i: nat)
    requires 14 <= i < |BANNED| && Contains(s, BANNED[i])
    ensures '<' in s || '>' in s || Contains(s, "!=")
  {
    var at :| 0 <= at <= |s| && OccursAt(s, BANNED[i], at);
    assert s[at] == BANNED[i][0];
  }

  /** A text is refused for a spaced connective, a less or greater sign anywhere, or an unequal sign. */
  lemma BannedIff(s: string)
    ensures HasBanned(s) <==> HasConnective(s) || '<' in s || '>' in s || Contains(s, "!=")
  {
    if HasBanned(s) {
      var i: nat :| i < |BANNED| && Contains(s, BANNED[i]);
      if i < 14 {
        Spaced(i / 2);
        SpacedFolded(i / 2);
        ConnectivesFold(i / 2);
        assert CONNECTIVES[i / 2] in CONNECTIVES && (i == 2 * (i / 2) || i == 2 * (i / 2) + 1);
      } else {
        HoldsOperator(s, i);
      }
    }
    if HasConnective(s) {
      var c :| c in CONNECTIVES && (Contains(s, " " + c + " ") || Contains(s, " " + Lower(c) + " "));
      var k :| 0 <= k < |CONNECTIVES| && CONNECTIVES[k] == c;
      Spaced(k);
      SpacedFolded(k);
      ConnectivesFold(k);
    }
    ContainsChar(s, '<');
    ContainsChar(s, '>');
    assert BANNED[18] == ['<'] && BANNED[19] == ['>'] && BANNED[16] == "!=";
  }
}
