/**
 The converse of the ordered comparison: when equal canonical lines mean matching rows
 (conformance/runner/diff.go, conformance/runner/diff_scalars.go).
 */
module DiffConverse {
  import opened Basics
  import opened DiffEngine
  import opened Whitespace

  // ----- Where it fails -----

  lemma TypesOf()
    ensures Classify("STRING") == TextType && Classify("INT64") == NumericType
  {
    assert Trim("STRING") == "STRING" && Upper("STRING")[0] == 'S' && |Upper("STRING")| == 6;
    assert Trim("INT64") == "INT64" && Upper("INT64") == "INT64";
  }

  lemma OneColumn(lib: Lib, name: string, typ: string, e: Any, a: Any)
    requires CanonicalCell(lib, e, typ) == CanonicalCell(lib, a, typ)
    ensures var schema := [Field(name, typ, "NULLABLE")]; UnorderedPasses(lib, schema, [map[name := e]], [[a]])
  {
    var schema, row := [Field(name, typ, "NULLABLE")], map[name := e];
    assert StrayKeys(row, schema) == {} by { assert schema[0].name == name; }
    assert ExpectedPairs(lib, row, schema) == ActualPairs(lib, [a], schema);
    assert ExpectedLines(lib, schema, [row]) == ActualLines(lib, schema, [[a]]);
  }

  /** The text `<NULL>` passes for NULL in an unordered comparison. */
  lemma NullTextPassesUnordered(lib: Lib)
    ensures var schema, e, a := [Field("c", "STRING", "NULLABLE")], map["c" := StrV("<NULL>")], [Nil];
            UnorderedPasses(lib, schema, [e], [a]) && !RowMatches(lib, e, a, schema)
  {
    var schema, e, a := [Field("c", "STRING", "NULLABLE")], map["c" := StrV("<NULL>")], [Nil];
    TypesOf();
    OneColumn(lib, "c", "STRING", StrV("<NULL>"), Nil);
    assert !ColumnMatches(lib, e, a, schema[0], 0);
  }

  /** A text that is no number passes on both sides of a numeric column, though it equals nothing. */
  lemma UnreadableTextPassesUnordered(lib: Lib)
    requires lib.ratOfText("abc").None?
    ensures var schema, e, a := [Field("c", "INT64", "NULLABLE")], map["c" := StrV("abc")], [StrV("abc")];
            UnorderedPasses(lib, schema, [e], [a]) && !RowMatches(lib, e, a, schema)
  {
    var schema, e, a := [Field("c", "INT64", "NULLABLE")], map["c" := StrV("abc")], [StrV("abc")];
    TypesOf();
    OneColumn(lib, "c", "INT64", StrV("abc"), StrV("abc"));
    assert Trim("abc") == "abc";
    assert ToRat(lib, StrV("abc")).None?;
    NotRepeated();
    assert !ColumnMatches(lib, e, a, schema[0], 0);
  }

  lemma NotRepeated()
    ensures !IsRepeated("NULLABLE")
  {
    assert Trim("NULLABLE") == "NULLABLE" && Lower("NULLABLE")[0] == 'n' && "repeated"[0] == 'r';
  }

  /** The separator within a cell lets two different rows share a line. */
  lemma SeparatorPassesUnordered(lib: Lib)
    ensures var schema := [Field("a", "STRING", "NULLABLE"), Field("b", "STRING", "NULLABLE")];
            var e, a := map["a" := StrV("x, b=y"), "b" := StrV("z")], [StrV("x"), StrV("y, b=z")];
            UnorderedPasses(lib, schema, [e], [a]) && !RowMatches(lib, e, a, schema)
  {
    var schema := [Field("a", "STRING", "NULLABLE"), Field("b", "STRING", "NULLABLE")];
    var e, a := map["a" := StrV("x, b=y"), "b" := StrV("z")], [StrV("x"), StrV("y, b=z")];
    TypesOf();
    NotRepeated();
    TwoTexts(lib, "a", "b", "x, b=y", "z", "x", "y, b=z");
    SharedLine();
    assert ExpectedLines(lib, schema, [e]) == ActualLines(lib, schema, [a]);
    assert |"x, b=y"| != |"x"|;
    assert !ColumnMatches(lib, e, a, schema[0], 0);
  }

  lemma TwoTexts(lib: Lib, p: string, q: string, x: string, y: string, x': string, y': string)
    requires p != q
    ensures var schema := [Field(p, "STRING", "NULLABLE"), Field(q, "STRING", "NULLABLE")];
            && ExpectedPairs(lib, map[p := StrV(x), q := StrV(y)], schema) == [Pair(p, x), Pair(q, y)]
            && ActualPairs(lib, [StrV(x'), StrV(y')], schema) == [Pair(p, x'), Pair(q, y')]
  {
    var schema := [Field(p, "STRING", "NULLABLE"), Field(q, "STRING", "NULLABLE")];
    var e := map[p := StrV(x), q := StrV(y)];
    TypesOf();
    assert StrayKeys(e, schema) == {} by { assert schema[0].name == p && schema[1].name == q; }
    assert ColumnPairs(lib, e, schema) == [Pair(p, x), Pair(q, y)];
  }

  lemma SharedLine()
    ensures Join([Pair("a", "x, b=y"), Pair("b", "z")]) == Join([Pair("a", "x"), Pair("b", "y, b=z")])
  {
    assert Pair("a", "x, b=y") == "a=x, b=y" && Pair("b", "z") == "b=z";
    assert Pair("a", "x") == "a=x" && Pair("b", "y, b=z") == "b=y, b=z";
    JoinTwo("a=x, b=y", "b=z");
    JoinTwo("a=x", "b=y, b=z");
    assert "a=x, b=y" + ", " + "b=z" == "a=x" + ", " + "b=y, b=z";
  }

  lemma JoinTwo(x: string, y: string)
    ensures Join([x, y]) == x + ", " + y
  {
    assert [x, y][1..] == [y];
  }

  /** A stray key named like an extra cell passes for it. */
  lemma StrayPassesUnordered(lib: Lib)
    ensures var schema, e := [Field("c", "STRING", "NULLABLE")], map["c" := StrV("x"), "col1" := StrV("y")];
            var a := [StrV("x"), StrV("y")];
            UnorderedPasses(lib, schema, [e], [a]) && !RowMatches(lib, e, a, schema)
  {
    var schema, e := [Field("c", "STRING", "NULLABLE")], map["c" := StrV("x"), "col1" := StrV("y")];
    var a := [StrV("x"), StrV("y")];
    assert Decimal(1) == "1" && "col" + "1" == "col1" && |"c"| != |"col1"|;
    StrayPairs(lib, "c", "col1", "x", "y");
    assert ExpectedLines(lib, schema, [e]) == ActualLines(lib, schema, [a]);
  }

  lemma StrayPairs(lib: Lib, p: string, q: string, x: string, y: string)
    requires p != q && q == "col" + Decimal(1)
    ensures var schema, e := [Field(p, "STRING", "NULLABLE")], map[p := StrV(x), q := StrV(y)];
            && ExpectedPairs(lib, e, schema) == [Pair(p, x), Pair(q, y)]
            && ActualPairs(lib, [StrV(x), StrV(y)], schema) == [Pair(p, x), Pair(q, y)]
  {
    var schema, e := [Field(p, "STRING", "NULLABLE")], map[p := StrV(x), q := StrV(y)];
    TypesOf();
    NoType();
    assert StrayKeys(e, schema) == {q} by { assert schema[0].name == p; }
    OneKey(q);
  }

  lemma NoType()
    ensures Classify("") == TextType
  {
    assert Trim("") == "" && Upper("") == "";
  }

  lemma OneKey(k: string)
    ensures SortedKeys({k}) == [k]
  {
    assert multiset([k]) == multiset({k});
    SortedListing([k], {k});
  }

  // ----- Texts of numbers -----

  lemma IntTextDetermines(n: int, m: int)
    requires IntText(n) == IntText(m)
    ensures n == m
  {
    var x, y := if n < 0 then -n else n, if m < 0 then -m else m;
    DecimalRoundTrip(x);
    DecimalRoundTrip(y);
    assert n < 0 ==> IntText(n)[0] == '-' && IntText(n)[1..] == Decimal(x);
    assert m < 0 ==> IntText(m)[0] == '-' && IntText(m)[1..] == Decimal(y);
    assert n >= 0 ==> IsDigit(IntText(n)[0]);
    assert m >= 0 ==> IsDigit(IntText(m)[0]);
  }

  lemma NoSlash(n: int)
    ensures '/' !in IntText(n)
  {
  }

  /** Different rationals are written differently. */
  lemma RatTextDetermines(r: Rat, r': Rat)
    requires RatText(r) == RatText(r')
    ensures r == r'
  {
    NoSlash(r.num);
    NoSlash(r'.num);
    RatTextSlash(r);
    RatTextSlash(r');
    if r.den == 1 {
      IntTextDetermines(r.num, r'.num);
    } else {
      CutUnique(IntText(r.num), Decimal(r.den), IntText(r'.num), Decimal(r'.den), '/');
      IntTextDetermines(r.num, r'.num);
      DecimalRoundTrip(r.den);
      DecimalRoundTrip(r'.den);
    }
  }

  lemma RatTextSlash(r: Rat)
    ensures r.den == 1 <==> '/' !in RatText(r)
    ensures r.den != 1 ==> RatText(r) == IntText(r.num) + ['/'] + Decimal(r.den)
  {
    NoSlash(r.num);
    if r.den != 1 { assert RatText(r)[|IntText(r.num)|] == '/'; }
  }

  // ----- Cells -----

  /** Distinct instants are written differently. */
  ghost predicate Faithful(lib: Lib) {
    forall t, t' | lib.timeText(t) == lib.timeText(t') :: t == t'
  }

  /** There are such libraries, whatever the rest of them does. */
  lemma FaithfulExists(lib: Lib)
    ensures Faithful(lib.(timeText := IntText))
  {
    var plain := lib.(timeText := IntText);
    forall t, t' | plain.timeText(t) == plain.timeText(t') ensures t == t' { IntTextDetermines(t, t'); }
  }

  /** The value can be read as the column's type. */
  predicate Readable(lib: Lib, v: Any, fieldType: string) {
    match Classify(fieldType)
    case NumericType => ToRat(lib, v).Some?
    case BoolType => ToBool(v).Some?
    case TimeType => ToTime(lib, v).Some?
    case FloatType => true
    case TextType => true
  }

  /** Both NULL, or both values of the column's type. */
  predicate Alike(lib: Lib, e: Any, a: Any, fieldType: string) {
    if e.Nil? || a.Nil? then e.Nil? && a.Nil? else Readable(lib, e, fieldType) && Readable(lib, a, fieldType)
  }

  /** Cells with one canonical text are equal exactly when they are alike. */
  lemma CanonicalDeterminesCellIff(lib: Lib, e: Any, a: Any, fieldType: string, mode: string)
    requires Faithful(lib) && !IsRepeated(mode) && !Classify(fieldType).FloatType?
    requires CanonicalCell(lib, e, fieldType) == CanonicalCell(lib, a, fieldType)
    ensures CellsEqual(lib, e, a, fieldType, mode) <==> Alike(lib, e, a, fieldType)
  {
    if !e.Nil? && !a.Nil? && Readable(lib, e, fieldType) && Readable(lib, a, fieldType) {
      match Classify(fieldType)
      case NumericType => RatTextDetermines(ToRat(lib, e).value, ToRat(lib, a).value);
      case BoolType => assert |"true"| != |"false"|;
      case _ =>
    }
  }

  // ----- Lines -----

  predicate SeparatorFree(text: string) {
    !Contains(text, ", ")
  }

  /** A text without the separator ends where the separator first comes. */
  lemma NoShorter(x: string, r: string, y: string, r': string)
    requires x + ", " + r == y + ", " + r'
    ensures |x| < |y| ==> Contains(y, ", ")
  {
    var s := x + ", " + r;
    assert s[|x|] == ',' && s[|x| + 1] == ' ' && s[|y|] == ',';
    if |x| + 1 < |y| {
      assert y[|x|] == s[|x|] && y[|x| + 1] == s[|x| + 1];
      assert y[|x|..|x| + 2] == ", ";
      assert OccursAt(y, ", ", |x|);
    }
  }

  lemma SeparatorCut(x: string, r: string, y: string, r': string)
    requires x + ", " + r == y + ", " + r' && SeparatorFree(x) && SeparatorFree(y)
    ensures x == y && r == r'
  {
    NoShorter(x, r, y, r');
    NoShorter(y, r', x, r);
    var s := x + ", " + r;
    assert s[..|x|] == x && s[..|y|] == y && s[|x| + 2..] == r && s[|y| + 2..] == r';
  }

  function Pairs(names: seq<string>, texts: seq<string>): seq<string>
    requires |names| == |texts|
  {
    seq(|names|, i requires 0 <= i < |names| => Pair(names[i], texts[i]))
  }

  /** One line under known names determines the texts. */
  lemma {:induction false} JoinDeterminesTexts(names: seq<string>, xs: seq<string>, ys: seq<string>)
    requires |names| == |xs| == |ys| && Join(Pairs(names, xs)) == Join(Pairs(names, ys))
    requires forall i | 0 <= i < |xs| :: SeparatorFree(xs[i]) && SeparatorFree(ys[i])
    ensures xs == ys
    decreases |names|
  {
    if |names| == 1 {
      assert Pair(names[0], xs[0]) + "" == Pair(names[0], ys[0]) + "";
      PairDetermines(names[0], xs[0], "", ys[0], "");
      assert xs[0] + "" == xs[0] && ys[0] + "" == ys[0];
      assert xs == [xs[0]] && ys == [ys[0]];
    } else if |names| > 1 {
      JoinHead(names, xs);
      JoinHead(names, ys);
      var more, more' := Join(Pairs(names[1..], xs[1..])), Join(Pairs(names[1..], ys[1..]));
      PairDetermines(names[0], xs[0], ", " + more, ys[0], ", " + more');
      assert xs[0] + ", " + more == xs[0] + (", " + more) && ys[0] + ", " + more' == ys[0] + (", " + more');
      SeparatorCut(xs[0], more, ys[0], more');
      JoinDeterminesTexts(names[1..], xs[1..], ys[1..]);
      assert xs == [xs[0]] + xs[1..] && ys == [ys[0]] + ys[1..];
    }
  }

  lemma PairDetermines(name: string, x: string, r: string, y: string, r': string)
    requires Pair(name, x) + r == Pair(name, y) + r'
    ensures x + r == y + r'
  {
    var n := |name| + 1;
    assert (Pair(name, x) + r)[n..] == x + r && (Pair(name, y) + r')[n..] == y + r';
  }

  lemma JoinHead(names: seq<string>, xs: seq<string>)
    requires |names| == |xs| > 1
    ensures Join(Pairs(names, xs)) == Pair(names[0], xs[0]) + (", " + Join(Pairs(names[1..], xs[1..])))
  {
    assert Pairs(names, xs)[1..] == Pairs(names[1..], xs[1..]);
  }

  /** Lines of pairs that hold no separator are equal only if the pairs are. */
  lemma {:induction false} JoinDeterminesPairs(xs: seq<string>, ys: seq<string>)
    requires Join(xs) == Join(ys) && AllFree(xs) && AllFree(ys)
    ensures xs == ys
  {
    JoinCuts(xs);
    JoinCuts(ys);
    if |xs| > 1 && |ys| > 1 {
      SeparatorCut(xs[0], Join(xs[1..]), ys[0], Join(ys[1..]));
      JoinDeterminesPairs(xs[1..], ys[1..]);
      assert xs == [xs[0]] + xs[1..] && ys == [ys[0]] + ys[1..];
    } else if |xs| == 1 && |ys| == 1 {
      assert xs == [xs[0]] && ys == [ys[0]];
    }
  }

  predicate AllFree(pairs: seq<string>) {
    forall i | 0 <= i < |pairs| :: pairs[i] != "" && SeparatorFree(pairs[i])
  }

  /** A line is empty, free of the separator or not, as there are none, one or more pairs. */
  lemma JoinCuts(xs: seq<string>)
    requires AllFree(xs)
    ensures Join(xs) == "" <==> xs == []
    ensures Contains(Join(xs), ", ") <==> |xs| > 1
    ensures |xs| == 1 ==> Join(xs) == xs[0]
    ensures |xs| > 1 ==> Join(xs) == xs[0] + ", " + Join(xs[1..])
  {
    if |xs| > 1 {
      var s := Join(xs);
      assert s[|xs[0]|..|xs[0]| + 2] == ", ";
      assert OccursAt(s, ", ", |xs[0]|);
    } else if xs == [] {
      assert forall i | 0 <= i <= 0 :: !OccursAt("", ", ", i);
    }
  }

  lemma {:induction false} SortedKeysCount(keys: set<string>)
    ensures |SortedKeys(keys)| == |keys|
  {
    if keys != {} { SortedKeysCount(keys - {SortedKeys(keys)[0]}); }
  }

  /**
   When no pair holds the separator, one line means the same pairs, so a row with stray keys shares a line only
   with a row that has as many cells beyond the schema.
   */
  lemma LineDeterminesPairs(lib: Lib, e: ExpectedRow, a: ActualRow, schema: seq<Field>)
    requires AllFree(ExpectedPairs(lib, e, schema)) && AllFree(ActualPairs(lib, a, schema))
    requires ExpectedLine(lib, schema, e) == ActualLine(lib, schema, a)
    ensures ExpectedPairs(lib, e, schema) == ActualPairs(lib, a, schema)
    ensures |a| == |schema| + |set k | k in e && !Enumerates(schema, k)|
  {
    var xs, ys := ExpectedPairs(lib, e, schema), ActualPairs(lib, a, schema);
    BracesDetermine(Join(xs), Join(ys));
    JoinDeterminesPairs(xs, ys);
    SortedKeysCount(StrayKeys(e, schema));
  }

  // ----- Rows -----

  function Names(schema: seq<Field>): seq<string> {
    seq(|schema|, i requires 0 <= i < |schema| => schema[i].name)
  }

  function ExpectedTexts(lib: Lib, e: ExpectedRow, schema: seq<Field>): seq<string> {
    seq(|schema|, i requires 0 <= i < |schema| =>
      if schema[i].name in e then CanonicalCell(lib, e[schema[i].name], schema[i].typ) else "<missing>")
  }

  function ActualTexts(lib: Lib, a: ActualRow, schema: seq<Field>): seq<string>
    requires |a| == |schema|
  {
    seq(|schema|, i requires 0 <= i < |schema| => CanonicalCell(lib, a[i], schema[i].typ))
  }

  /** No cell's text holds the separator. */
  ghost predicate TextsFree(lib: Lib, e: ExpectedRow, a: ActualRow, schema: seq<Field>) {
    && (forall i | 0 <= i < |schema| && schema[i].name in e ::
          SeparatorFree(CanonicalCell(lib, e[schema[i].name], schema[i].typ)))
    && (forall i | 0 <= i < |a| && i < |schema| :: SeparatorFree(CanonicalCell(lib, a[i], schema[i].typ)))
  }

  lemma MissingIsFree()
    ensures SeparatorFree("<missing>")
  {
    var m := "<missing>";
    forall i | 0 <= i <= |m| ensures !OccursAt(m, ", ", i) {
      if i + 2 <= |m| { assert m[i..i + 2][0] == m[i] && ", "[0] == ','; }
    }
  }

  lemma LinesAreTexts(lib: Lib, e: ExpectedRow, a: ActualRow, schema: seq<Field>)
    requires (forall k | k in e :: Enumerates(schema, k)) && |a| == |schema|
    ensures ExpectedLine(lib, schema, e) == "{" + Join(Pairs(Names(schema), ExpectedTexts(lib, e, schema))) + "}"
    ensures ActualLine(lib, schema, a) == "{" + Join(Pairs(Names(schema), ActualTexts(lib, a, schema))) + "}"
  {
    assert StrayKeys(e, schema) == {};
    assert ExpectedPairs(lib, e, schema) == ColumnPairs(lib, e, schema);
    assert ColumnPairs(lib, e, schema) == Pairs(Names(schema), ExpectedTexts(lib, e, schema));
    assert ActualPairs(lib, a, schema) == Pairs(Names(schema), ActualTexts(lib, a, schema));
  }

  lemma BracesDetermine(x: string, y: string)
    requires "{" + x + "}" == "{" + y + "}"
    ensures x == y
  {
    assert ("{" + x + "}")[1..|x| + 1] == x && ("{" + y + "}")[1..|y| + 1] == y;
  }

  /** Rows of the schema's width with one line have the same text in every column. */
  lemma LineDeterminesTexts(lib: Lib, e: ExpectedRow, a: ActualRow, schema: seq<Field>)
    requires (forall k | k in e :: Enumerates(schema, k)) && |a| == |schema| && TextsFree(lib, e, a, schema)
    requires ExpectedLine(lib, schema, e) == ActualLine(lib, schema, a)
    ensures ExpectedTexts(lib, e, schema) == ActualTexts(lib, a, schema)
  {
    var xs, ys := ExpectedTexts(lib, e, schema), ActualTexts(lib, a, schema);
    LinesAreTexts(lib, e, a, schema);
    BracesDetermine(Join(Pairs(Names(schema), xs)), Join(Pairs(Names(schema), ys)));
    MissingIsFree();
    JoinDeterminesTexts(Names(schema), xs, ys);
  }

  /** Column `i` is supplied on both sides, by NULL or by values of its type. */
  predicate ColumnAlike(lib: Lib, e: ExpectedRow, a: ActualRow, f: Field, i: nat) {
    f.name in e && i < |a| && Alike(lib, e[f.name], a[i], f.typ)
  }

  lemma ColumnIff(lib: Lib, e: ExpectedRow, a: ActualRow, f: Field, i: nat)
    requires Faithful(lib) && i < |a| && !Classify(f.typ).FloatType? && !IsRepeated(f.mode)
    requires CanonicalCell(lib, a[i], f.typ) ==
             if f.name in e then CanonicalCell(lib, e[f.name], f.typ) else "<missing>"
    ensures ColumnMatches(lib, e, a, f, i) <==> ColumnAlike(lib, e, a, f, i)
  {
    assert |"<missing>"| != |"<NULL>"|;
    if f.name in e { CanonicalDeterminesCellIff(lib, e[f.name], a[i], f.typ, f.mode); }
  }

  /** What a row must be for its line to mean it matches: as wide as the schema, nothing stray, every column alike. */
  ghost predicate RowAlike(lib: Lib, e: ExpectedRow, a: ActualRow, schema: seq<Field>) {
    && (forall k | k in e :: Enumerates(schema, k))
    && |a| == |schema|
    && forall i | 0 <= i < |schema| :: ColumnAlike(lib, e, a, schema[i], i)
  }

  /** Rows with one canonical line match exactly when they are alike, as long as no text holds the separator. */
  lemma LineDeterminesRowIff(lib: Lib, e: ExpectedRow, a: ActualRow, schema: seq<Field>)
    requires Faithful(lib) && ExactColumns(schema) && TextsFree(lib, e, a, schema)
    requires ExpectedLine(lib, schema, e) == ActualLine(lib, schema, a)
    ensures RowMatches(lib, e, a, schema) <==> RowAlike(lib, e, a, schema)
  {
    if RowMatches(lib, e, a, schema) { MatchingRowsLength(lib, e, a, schema); }
    if (forall k | k in e :: Enumerates(schema, k)) && |a| == |schema| {
      LineDeterminesTexts(lib, e, a, schema);
      forall i | 0 <= i < |schema|
        ensures ColumnMatches(lib, e, a, schema[i], i) <==> ColumnAlike(lib, e, a, schema[i], i)
      {
        assert ExpectedTexts(lib, e, schema)[i] == ActualTexts(lib, a, schema)[i];
        ColumnIff(lib, e, a, schema[i], i);
      }
    }
  }

  // ----- Row lists -----

  /** NULL, or a value of the column's type whose text is no marker and holds no separator. */
  predicate Proper(lib: Lib, v: Any, fieldType: string) {
    var text := CanonicalCell(lib, v, fieldType);
    SeparatorFree(text) &&
    (v.Nil? || (Readable(lib, v, fieldType) && text != "<NULL>" && text != "<missing>"))
  }

  /** Only columns of the schema, with proper cells. */
  ghost predicate ProperExpected(lib: Lib, e: ExpectedRow, schema: seq<Field>) {
    && (forall k | k in e :: Enumerates(schema, k))
    && (forall i | 0 <= i < |schema| && schema[i].name in e :: Proper(lib, e[schema[i].name], schema[i].typ))
  }

  /** One proper cell per column. */
  ghost predicate ProperActual(lib: Lib, a: ActualRow, schema: seq<Field>) {
    |a| == |schema| && forall i | 0 <= i < |schema| :: Proper(lib, a[i], schema[i].typ)
  }

  ghost predicate AllProper(lib: Lib, schema: seq<Field>, exp: seq<ExpectedRow>, act: seq<ActualRow>) {
    && (forall i | 0 <= i < |exp| :: ProperExpected(lib, exp[i], schema))
    && (forall i | 0 <= i < |act| :: ProperActual(lib, act[i], schema))
  }

  /** Proper rows with one canonical line match. */
  lemma ProperRowsMatch(lib: Lib, e: ExpectedRow, a: ActualRow, schema: seq<Field>)
    requires Faithful(lib) && ExactColumns(schema) && ProperExpected(lib, e, schema) && ProperActual(lib, a, schema)
    requires ExpectedLine(lib, schema, e) == ActualLine(lib, schema, a)
    ensures RowMatches(lib, e, a, schema)
  {
    LineDeterminesTexts(lib, e, a, schema);
    assert |"<missing>"| != |"<NULL>"|;
    forall i | 0 <= i < |schema| ensures ColumnAlike(lib, e, a, schema[i], i) {
      assert ExpectedTexts(lib, e, schema)[i] == ActualTexts(lib, a, schema)[i];
    }
    LineDeterminesRowIff(lib, e, a, schema);
  }

  /** Items whose renderings are some lines in any order can be put in the lines' order. */
  lemma {:induction false} Arrange<T>(lines: seq<string>, g: T -> string, items: seq<T>) returns (items': seq<T>)
    requires multiset(lines) == multiset(Mapped(g, items))
    ensures multiset(items') == multiset(items) && Mapped(g, items') == lines
    decreases |lines|
  {
    var ys := Mapped(g, items);
    MappedAt(g, items);
    if lines == [] {
      assert |multiset(ys)| == 0;
      items' := items;
    } else {
      assert lines[0] in multiset(ys);
      var j :| 0 <= j < |ys| && ys[j] == lines[0];
      var rest := items[..j] + items[j + 1..];
      SplitOff(lines, ys, j);
      MappedWithout(g, items, j);
      var more := Arrange(lines[1..], g, rest);
      items' := [items[j]] + more;
      PutFirst(g, items, j, more);
    }
  }

  lemma PutFirst<T>(g: T -> string, items: seq<T>, j: nat, more: seq<T>)
    requires j < |items| && multiset(more) == multiset(items[..j] + items[j + 1..])
    ensures multiset([items[j]] + more) == multiset(items)
    ensures Mapped(g, [items[j]] + more) == [g(items[j])] + Mapped(g, more)
  {
    assert ([items[j]] + more)[1..] == more;
    assert items == items[..j] + [items[j]] + items[j + 1..];
  }

  lemma MappedWithout<T>(g: T -> string, items: seq<T>, j: nat)
    requires j < |items|
    ensures |Mapped(g, items)| == |items|
    ensures Mapped(g, items[..j] + items[j + 1..]) == Mapped(g, items)[..j] + Mapped(g, items)[j + 1..]
  {
    var rest := items[..j] + items[j + 1..];
    MappedAt(g, items);
    MappedAt(g, rest);
    assert forall i | 0 <= i < |rest| :: rest[i] == items[if i < j then i else i + 1];
  }

  /** Line lists that agree as multisets pair up. */
  lemma PairUp(lib: Lib, schema: seq<Field>, exp: seq<ExpectedRow>, act: seq<ActualRow>) returns (act': seq<ActualRow>)
    requires UnorderedPasses(lib, schema, exp, act)
    ensures multiset(act') == multiset(act) && |act'| == |exp|
    ensures forall i | 0 <= i < |exp| :: ExpectedLine(lib, schema, exp[i]) == ActualLine(lib, schema, act'[i])
  {
    var xs := ExpectedLines(lib, schema, exp);
    ghost var g := (a: ActualRow) => ActualLine(lib, schema, a);
    MappedAt(g, act);
    assert Mapped(g, act) == ActualLines(lib, schema, act);
    act' := Arrange(xs, g, act);
    MappedAt(g, act');
    forall i | 0 <= i < |exp| ensures ExpectedLine(lib, schema, exp[i]) == ActualLine(lib, schema, act'[i]) {
      assert xs[i] == Mapped(g, act')[i];
    }
  }

  /** On proper rows an unordered pass is an ordered pass of some permutation. */
  lemma UnorderedImpliesOrdered(lib: Lib, schema: seq<Field>, exp: seq<ExpectedRow>, act: seq<ActualRow>)
    returns (act': seq<ActualRow>)
    requires Faithful(lib) && ExactColumns(schema) && AllProper(lib, schema, exp, act)
    requires UnorderedPasses(lib, schema, exp, act)
    ensures multiset(act') == multiset(act) && OrderedPasses(lib, schema, exp, act')
  {
    act' := PairUp(lib, schema, exp, act);
    forall i | 0 <= i < |exp| ensures RowMatches(lib, exp[i], act'[i], schema) {
      assert act'[i] in multiset(act);
      ProperRowsMatch(lib, exp[i], act'[i], schema);
    }
  }

  /** On proper rows that supply every column, the unordered comparison asks exactly for a permutation that matches. */
  lemma UnorderedIffPermuted(lib: Lib, schema: seq<Field>, exp: seq<ExpectedRow>, act: seq<ActualRow>)
    requires Faithful(lib) && ExactColumns(schema) && AllProper(lib, schema, exp, act)
    requires forall i, k | 0 <= i < |exp| && 0 <= k < |schema| :: schema[k].name in exp[i]
    ensures UnorderedPasses(lib, schema, exp, act) <==>
            exists act' :: multiset(act') == multiset(act) && OrderedPasses(lib, schema, exp, act')
  {
    if UnorderedPasses(lib, schema, exp, act) {
      var act' := UnorderedImpliesOrdered(lib, schema, exp, act);
      assert OrderedPasses(lib, schema, exp, act');
    }
    if act' :| multiset(act') == multiset(act) && OrderedPasses(lib, schema, exp, act') {
      forall i | 0 <= i < |exp| ensures SuppliesAll(exp[i], act'[i], schema) {
        assert act'[i] in multiset(act);
      }
      OrderedImpliesUnorderedIff(lib, schema, exp, act', exp, act);
    }
  }
}
