/**
 Row comparison of the conformance runner: typed cells, canonical lines and the multiset diff
 (conformance/runner/diff.go, conformance/runner/diff_scalars.go).
 */
module DiffEngine {
  import opened Basics
  import opened Whitespace

  // ----- The multiset diff -----

  /** A count map describes a multiset of lines. */
  ghost predicate Counts(m: map<string, nat>, lines: multiset<string>) {
    (forall k | k in m :: m[k] > 0 && lines[k] == m[k]) && (forall k | k in lines :: k in m)
  }

  function Count(m: map<string, nat>, k: string): nat {
    if k in m then m[k] else 0
  }

  lemma CountsAt(m: map<string, nat>, lines: multiset<string>, k: string)
    requires Counts(m, lines)
    ensures Count(m, k) == lines[k]
  {
  }

  method GroupLines(lines: seq<string>) returns (canon: map<string, nat>)
    ensures Counts(canon, multiset(lines))
  {
    canon := map[];
    var i := 0;
    while i < |lines|
      invariant 0 <= i <= |lines|
      invariant Counts(canon, multiset(lines[..i]))
    {
      assert lines[..i + 1] == lines[..i] + [lines[i]];
      CountsAt(canon, multiset(lines[..i]), lines[i]);
      canon := canon[lines[i] := Count(canon, lines[i]) + 1];
      i := i + 1;
    }
    assert lines[..i] == lines;
  }

  /** Equal sizes and equal counts on one side's keys mean equal multisets, and conversely. */
  method MultisetsEqual(a: map<string, nat>, b: map<string, nat>, ghost x: multiset<string>, ghost y: multiset<string>)
    returns (eq: bool)
    requires Counts(a, x) && Counts(b, y)
    ensures eq <==> x == y
  {
    assert x == y ==> a.Keys == b.Keys;
    if |a| != |b| { return false; }
    var todo := a.Keys;
    while todo != {}
      invariant todo <= a.Keys
      invariant forall k | k in a.Keys - todo :: Count(b, k) == a[k]
    {
      var k :| k in todo;
      if Count(b, k) != a[k] {
        CountsAt(b, y, k);
        return false;
      }
      todo := todo - {k};
    }
    assert a.Keys <= b.Keys;
    SubsetSameSize(a.Keys, b.Keys);
    forall k ensures x[k] == y[k] {
      CountsAt(a, x, k);
      CountsAt(b, y, k);
    }
    eq := true;
  }

  lemma SubsetSameSize<T>(a: set<T>, b: set<T>)
    requires a <= b && |a| == |b|
    ensures a == b
  {
    assert |b - a| == |b| - |a|;
  }

  /** The lines of `a` in excess of `b`, one copy each, in whatever order the keys come. */
  method Excess(a: map<string, nat>, b: map<string, nat>, ghost x: multiset<string>, ghost y: multiset<string>)
    returns (out: seq<string>)
    requires Counts(a, x) && Counts(b, y)
    ensures multiset(out) == x - y
  {
    out := [];
    var todo := a.Keys;
    while todo != {}
      invariant todo <= a.Keys
      invariant forall k :: multiset(out)[k] == if k in a.Keys - todo then (x - y)[k] else 0
    {
      var k :| k in todo;
      CountsAt(a, x, k);
      CountsAt(b, y, k);
      ghost var before := out;
      var n := 0;
      while n < a[k] - Count(b, k)
        invariant 0 <= n && (n == 0 || n <= a[k] - Count(b, k))
        invariant multiset(out) == multiset(before)[k := n]
      {
        out := out + [k];
        n := n + 1;
      }
      todo := todo - {k};
    }
  }

  /** Missing and extra lines account exactly for the difference, and share no line. */
  method DiffMultiset(exp: map<string, nat>, act: map<string, nat>,
                      ghost x: multiset<string>, ghost y: multiset<string>)
    returns (missing: seq<string>, extra: seq<string>)
    requires Counts(exp, x) && Counts(act, y)
    ensures x + multiset(extra) == y + multiset(missing)
    ensures multiset(missing) !! multiset(extra)
    ensures (missing == [] && extra == []) <==> x == y
  {
    missing := Excess(exp, act, x, y);
    extra := Excess(act, exp, y, x);
    NoneLeft(missing);
    NoneLeft(extra);
    EqualWhenNoExcess(x, y);
  }

  lemma NoneLeft(s: seq<string>)
    ensures s == [] <==> multiset(s) == multiset{}
  {
    if s != [] { assert s[0] in multiset(s); }
  }

  lemma EqualWhenNoExcess(x: multiset<string>, y: multiset<string>)
    ensures x - y == multiset{} && y - x == multiset{} <==> x == y
  {
    if x - y == multiset{} && y - x == multiset{} {
      forall k ensures x[k] == y[k] {
        assert (x - y)[k] == 0 && (y - x)[k] == 0;
      }
    }
  }

  // ----- Cells -----

  /** The integer types a decoder can produce; `Unsigned` is any of the unsigned ones. */
  datatype IntKind = Int | Int32 | Int64 | Unsigned

  datatype Fraction = Fraction(num: int, den: nat)

  predicate Divides(k: nat, n: int)
    requires k > 0
  {
    n % k == 0
  }

  /** Positive denominator, no common divisor. */
  predicate Lowest(f: Fraction) {
    f.den > 0 && forall k | 1 < k <= f.den :: !(Divides(k, f.num) && Divides(k, f.den))
  }

  /** A rational in lowest terms, so equal numbers are equal values. */
  type Rat = f: Fraction | Lowest(f) witness Fraction(0, 1)

  /** A decoded YAML or wire value; `wide` is a 64-bit float, `Other` stands for arrays and objects. */
  datatype Any =
    | Nil
    | BoolV(b: bool)
    | IntV(kind: IntKind, n: int)
    | FloatV(wide: bool, r: Rat)
    | StrV(s: string)
    | TimeV(instant: int, zone: int)
    | Other(json: string)

  /** Library conversions and renderings the runner relies on, and the two comparisons left abstract. */
  datatype Lib = Lib(
    ratOfText: string -> Option<Rat>,
    timeOfText: string -> Option<int>,
    timeOfFloat: Rat -> int,
    timeText: int -> string,
    timeJson: (int, int) -> string,
    floatText: (bool, Rat) -> string,
    floatEqual: (Any, Any) -> bool,
    floatCell: Any -> Option<string>,
    repeatedEqual: (Any, Any, string) -> bool)

  datatype TypeClass = NumericType | FloatType | BoolType | TimeType | TextType

  function Classify(fieldType: string): TypeClass {
    var t := Upper(Trim(fieldType));
    if t in {"INT64", "INTEGER", "NUMERIC", "BIGNUMERIC"} then NumericType
    else if t in {"FLOAT64", "FLOAT"} then FloatType
    else if t in {"BOOL", "BOOLEAN"} then BoolType
    else if t in {"TIMESTAMP", "DATE", "DATETIME", "TIME"} then TimeType
    else TextType
  }

  function ToRat(lib: Lib, v: Any): Option<Rat> {
    match v
    case IntV(_, n) => Some(Fraction(n, 1))
    case FloatV(_, r) => Some(r)
    case StrV(s) => if Trim(s) == "" then None else lib.ratOfText(Trim(s))
    case _ => None
  }

  function ToBool(v: Any): Option<bool> {
    match v
    case BoolV(b) => Some(b)
    case StrV(s) =>
      var t := Lower(Trim(s));
      if t in {"true", "t", "1"} then Some(true) else if t in {"false", "f", "0"} then Some(false) else None
    case IntV(kind, n) => if kind.Unsigned? then None else Some(n != 0)
    case _ => None
  }

  function ToTime(lib: Lib, v: Any): Option<int> {
    match v
    case TimeV(t, _) => Some(t)
    case StrV(s) => lib.timeOfText(s)
    case IntV(kind, n) => if kind.Int? || kind.Int64? then Some(n * 1_000_000_000) else None
    case FloatV(wide, r) => if wide then Some(lib.timeOfFloat(r)) else None
    case _ => None
  }

  function IntText(n: int): string {
    if n < 0 then "-" + Decimal(-n) else Decimal(n)
  }

  /** The numerator, and the denominator unless it is one. */
  function RatText(r: Rat): string {
    if r.den == 1 then IntText(r.num) else IntText(r.num) + "/" + Decimal(r.den)
  }

  function BoolText(b: bool): string {
    if b then "true" else "false"
  }

  function StringForm(lib: Lib, v: Any): string {
    match v
    case Nil => "<NULL>"
    case StrV(s) => s
    case BoolV(b) => BoolText(b)
    case IntV(_, n) => IntText(n)
    case FloatV(wide, r) => lib.floatText(wide, r)
    case TimeV(t, zone) => lib.timeJson(t, zone)
    case Other(json) => json
  }

  function CanonicalCell(lib: Lib, v: Any, fieldType: string): string {
    if v.Nil? then "<NULL>"
    else match Classify(fieldType)
         case NumericType => (match ToRat(lib, v) case Some(r) => RatText(r) case None => StringForm(lib, v))
         case FloatType => (match lib.floatCell(v) case Some(s) => s case None => StringForm(lib, v))
         case BoolType => (match ToBool(v) case Some(b) => BoolText(b) case None => StringForm(lib, v))
         case TimeType => (match ToTime(lib, v) case Some(t) => lib.timeText(t) case None => StringForm(lib, v))
         case TextType => StringForm(lib, v)
  }

  predicate SameSome<T(==)>(a: Option<T>, b: Option<T>) {
    a.Some? && a == b
  }

  predicate IsRepeated(mode: string) {
    Lower(Trim(mode)) == "repeated"
  }

  predicate CellsEqual(lib: Lib, e: Any, a: Any, fieldType: string, mode: string) {
    if e.Nil? || a.Nil? then e.Nil? && a.Nil?
    else if IsRepeated(mode) then lib.repeatedEqual(e, a, fieldType)
    else match Classify(fieldType)
         case NumericType => SameSome(ToRat(lib, e), ToRat(lib, a))
         case FloatType => lib.floatEqual(e, a)
         case BoolType => SameSome(ToBool(e), ToBool(a))
         case TimeType => SameSome(ToTime(lib, e), ToTime(lib, a))
         case TextType => StringForm(lib, e) == StringForm(lib, a)
  }

  // ----- Rows -----

  datatype Field = Field(name: string, typ: string, mode: string)

  type ExpectedRow = map<string, Any>
  type ActualRow = seq<Any>

  predicate Enumerates(schema: seq<Field>, name: string) {
    exists i :: 0 <= i < |schema| && schema[i].name == name
  }

  function ActualCell(a: ActualRow, i: nat): Any {
    if i < |a| then a[i] else Nil
  }

  /** Column `i` agrees: missing counts as NULL on either side. */
  predicate ColumnMatches(lib: Lib, e: ExpectedRow, a: ActualRow, f: Field, i: nat) {
    if f.name in e then CellsEqual(lib, e[f.name], ActualCell(a, i), f.typ, f.mode) else ActualCell(a, i).Nil?
  }

  predicate RowMatches(lib: Lib, e: ExpectedRow, a: ActualRow, schema: seq<Field>) {
    && (forall i | 0 <= i < |schema| :: ColumnMatches(lib, e, a, schema[i], i))
    && (forall k | k in e :: Enumerates(schema, k))
    && |a| <= |schema|
  }

  method RowMatchesTyped(lib: Lib, e: ExpectedRow, a: ActualRow, schema: seq<Field>) returns (r: bool)
    ensures r == RowMatches(lib, e, a, schema)
  {
    var i := 0;
    while i < |schema|
      invariant 0 <= i <= |schema|
      invariant forall k | 0 <= k < i :: ColumnMatches(lib, e, a, schema[k], k)
    {
      if !ColumnMatches(lib, e, a, schema[i], i) { return false; }
      i := i + 1;
    }
    var todo := e.Keys;
    while todo != {}
      invariant todo <= e.Keys
      invariant forall k | k in e.Keys - todo :: Enumerates(schema, k)
    {
      var k :| k in todo;
      if !Enumerates(schema, k) { return false; }
      todo := todo - {k};
    }
    r := |a| <= |schema|;
  }

  // ----- Canonical lines -----

  function Pair(name: string, cell: string): string {
    name + "=" + cell
  }

  function ColumnPairs(lib: Lib, e: ExpectedRow, schema: seq<Field>): seq<string> {
    seq(|schema|, i requires 0 <= i < |schema| =>
      var f := schema[i];
      Pair(f.name, if f.name in e then CanonicalCell(lib, e[f.name], f.typ) else "<missing>"))
  }

  function StrayKeys(e: ExpectedRow, schema: seq<Field>): set<string> {
    set k | k in e && !Enumerates(schema, k)
  }

  ghost predicate IsLeast(m: string, keys: set<string>) {
    m in keys && forall k | k in keys :: Leq(m, k)
  }

  lemma {:induction false} LeastExists(keys: set<string>)
    requires keys != {}
    ensures exists m :: IsLeast(m, keys)
  {
    var x :| x in keys;
    LeqReflexive(x);
    if keys == {x} {
      assert IsLeast(x, keys);
    } else {
      LeastExists(keys - {x});
      var m :| IsLeast(m, keys - {x});
      if Leq(x, m) {
        forall k | k in keys ensures Leq(x, k) { if k != x { LeqTransitive(x, m, k); } }
        assert IsLeast(x, keys);
      } else {
        LeqTotal(x, m);
        assert IsLeast(m, keys);
      }
    }
  }

  ghost function SortedKeys(keys: set<string>): seq<string> {
    if keys == {} then []
    else
      LeastExists(keys);
      var m :| IsLeast(m, keys);
      [m] + SortedKeys(keys - {m})
  }

  lemma LeastFirst(s: seq<string>, keys: set<string>, m: string)
    requires Sorted(s) && multiset(s) == multiset(keys) && IsLeast(m, keys)
    ensures s != [] && s[0] == m
  {
    assert m in multiset(s);
    var j :| 0 <= j < |s| && s[j] == m;
    assert s[0] in multiset(s);
    if j > 0 { LeqAntisymmetric(s[0], m); }
  }

  /** Any sorted listing of the keys is that listing. */
  lemma {:induction false} SortedListing(s: seq<string>, keys: set<string>)
    requires Sorted(s) && multiset(s) == multiset(keys)
    ensures s == SortedKeys(keys)
  {
    if keys == {} {
      assert |multiset(s)| == 0;
    } else {
      var m := SortedKeys(keys)[0];
      LeastFirst(s, keys, m);
      assert s == [m] + s[1..];
      assert multiset(keys - {m}) == multiset(keys) - multiset{m};
      assert Sorted(s[1..]) by { assert forall i | 0 <= i < |s| - 1 :: s[1..][i] == s[i + 1]; }
      SortedListing(s[1..], keys - {m});
    }
  }

  ghost function ExpectedPairs(lib: Lib, e: ExpectedRow, schema: seq<Field>): seq<string> {
    var stray := SortedKeys(StrayKeys(e, schema));
    ColumnPairs(lib, e, schema) +
    seq(|stray|, i requires 0 <= i < |stray| =>
      Pair(stray[i], if stray[i] in e then CanonicalCell(lib, e[stray[i]], "") else ""))
  }

  function ActualPairs(lib: Lib, a: ActualRow, schema: seq<Field>): seq<string> {
    seq(|a|, i requires 0 <= i < |a| => ActualPair(lib, a[i], i, schema))
  }

  /** Cells beyond the schema are named by position and have no type. */
  function ActualPair(lib: Lib, v: Any, i: nat, schema: seq<Field>): string {
    Pair(if i < |schema| then schema[i].name else "col" + Decimal(i),
         CanonicalCell(lib, v, if i < |schema| then schema[i].typ else ""))
  }

  function Join(pairs: seq<string>): string {
    if pairs == [] then "" else if |pairs| == 1 then pairs[0] else pairs[0] + ", " + Join(pairs[1..])
  }

  ghost function ExpectedLine(lib: Lib, schema: seq<Field>, e: ExpectedRow): string {
    "{" + Join(ExpectedPairs(lib, e, schema)) + "}"
  }

  ghost function ActualLine(lib: Lib, schema: seq<Field>, a: ActualRow): string {
    "{" + Join(ActualPairs(lib, a, schema)) + "}"
  }

  // ----- Ordered match and unordered match -----

  /** No FLOAT64 column and no REPEATED one: the columns whose equality is exact. */
  predicate ExactColumns(schema: seq<Field>) {
    forall i | 0 <= i < |schema| :: !Classify(schema[i].typ).FloatType? && !IsRepeated(schema[i].mode)
  }

  predicate SuppliesAll(e: ExpectedRow, a: ActualRow, schema: seq<Field>) {
    |a| >= |schema| && forall i | 0 <= i < |schema| :: schema[i].name in e
  }

  lemma EqualCellsCanonical(lib: Lib, e: Any, a: Any, fieldType: string, mode: string)
    requires CellsEqual(lib, e, a, fieldType, mode) && !IsRepeated(mode) && !Classify(fieldType).FloatType?
    ensures CanonicalCell(lib, e, fieldType) == CanonicalCell(lib, a, fieldType)
  {
  }

  lemma MissingIsLonger(name: string)
    ensures |Pair(name, "<missing>")| > |Pair(name, "<NULL>")|
  {
  }

  /** Rows that match cell by cell have the same canonical pairs exactly when both supply every column. */
  lemma MatchingRowsCanonicalIff(lib: Lib, e: ExpectedRow, a: ActualRow, schema: seq<Field>)
    requires RowMatches(lib, e, a, schema) && ExactColumns(schema)
    ensures ExpectedPairs(lib, e, schema) == ActualPairs(lib, a, schema) <==> SuppliesAll(e, a, schema)
  {
    assert StrayKeys(e, schema) == {};
    var x, y := ExpectedPairs(lib, e, schema), ActualPairs(lib, a, schema);
    assert x == ColumnPairs(lib, e, schema);
    forall i | 0 <= i < |schema| && i < |a| ensures x[i] == y[i] <==> schema[i].name in e {
      var f := schema[i];
      assert ColumnMatches(lib, e, a, f, i);
      if f.name in e {
        EqualCellsCanonical(lib, e[f.name], a[i], f.typ, f.mode);
      } else {
        MissingIsLonger(f.name);
      }
    }
    if x == y {
      forall i | 0 <= i < |schema| ensures schema[i].name in e { assert x[i] == y[i]; }
    }
  }

  ghost predicate OrderedPasses(lib: Lib, schema: seq<Field>, exp: seq<ExpectedRow>, act: seq<ActualRow>) {
    |exp| == |act| && forall i | 0 <= i < |exp| :: RowMatches(lib, exp[i], act[i], schema)
  }

  ghost function ExpectedLines(lib: Lib, schema: seq<Field>, exp: seq<ExpectedRow>): seq<string> {
    seq(|exp|, i requires 0 <= i < |exp| => ExpectedLine(lib, schema, exp[i]))
  }

  ghost function ActualLines(lib: Lib, schema: seq<Field>, act: seq<ActualRow>): seq<string> {
    seq(|act|, i requires 0 <= i < |act| => ActualLine(lib, schema, act[i]))
  }

  ghost predicate UnorderedPasses(lib: Lib, schema: seq<Field>, exp: seq<ExpectedRow>, act: seq<ActualRow>) {
    multiset(ExpectedLines(lib, schema, exp)) == multiset(ActualLines(lib, schema, act))
  }

  lemma {:induction false} MappedPermutation<T, U>(f: T -> U, s: seq<T>, t: seq<T>)
    requires multiset(s) == multiset(t)
    ensures multiset(Mapped(f, s)) == multiset(Mapped(f, t))
  {
    if s == [] {
      assert |multiset(t)| == 0;
      assert Mapped(f, s) == [] && Mapped(f, t) == [];
    } else {
      assert s[0] in multiset(t);
      var j :| 0 <= j < |t| && t[j] == s[0];
      var before, after := t[..j], t[j + 1..];
      SplitOff(s, t, j);
      MappedPermutation(f, s[1..], before + after);
      MappedConcat(f, [s[0]], s[1..]);
      MappedConcat(f, before + [t[j]], after);
      MappedConcat(f, before, [t[j]]);
      MappedConcat(f, before, after);
      assert Mapped(f, [s[0]]) == [f(s[0])];
    }
  }

  lemma SplitOff<T>(s: seq<T>, t: seq<T>, j: nat)
    requires multiset(s) == multiset(t) && s != [] && j < |t| && t[j] == s[0]
    ensures s == [s[0]] + s[1..] && t == t[..j] + [t[j]] + t[j + 1..]
    ensures multiset(s[1..]) == multiset(t[..j] + t[j + 1..])
  {
    FirstOut(s);
    TakenOut(t, j);
  }

  lemma FirstOut<T>(s: seq<T>)
    requires s != []
    ensures s == [s[0]] + s[1..] && multiset(s[1..]) == multiset(s) - multiset{s[0]}
  {
    assert s == [s[0]] + s[1..];
  }

  lemma TakenOut<T>(t: seq<T>, j: nat)
    requires j < |t|
    ensures t == t[..j] + [t[j]] + t[j + 1..]
    ensures multiset(t[..j] + t[j + 1..]) == multiset(t) - multiset{t[j]}
  {
    assert t == t[..j] + [t[j]] + t[j + 1..];
  }

  lemma {:induction false} MappedConcat<T, U>(f: T -> U, a: seq<T>, b: seq<T>)
    ensures Mapped(f, a + b) == Mapped(f, a) + Mapped(f, b)
  {
    if a == [] {
      assert a + b == b;
    } else {
      assert (a + b)[1..] == a[1..] + b;
      MappedConcat(f, a[1..], b);
    }
  }

  function Mapped<T, U>(f: T -> U, s: seq<T>): seq<U> {
    if s == [] then [] else [f(s[0])] + Mapped(f, s[1..])
  }

  lemma {:induction false} MappedAt<T, U>(f: T -> U, s: seq<T>)
    ensures |Mapped(f, s)| == |s| && forall i | 0 <= i < |s| :: Mapped(f, s)[i] == f(s[i])
  {
    if s != [] { MappedAt(f, s[1..]); }
  }

  // ----- The comparisons themselves -----

  method CanonicalExpectedRow(lib: Lib, schema: seq<Field>, e: ExpectedRow) returns (line: string)
    ensures line == ExpectedLine(lib, schema, e)
  {
    var pairs: seq<string> := [];
    var i := 0;
    while i < |schema|
      invariant 0 <= i <= |schema| && pairs == ColumnPairs(lib, e, schema)[..i]
    {
      var f := schema[i];
      pairs := pairs + [Pair(f.name, if f.name in e then CanonicalCell(lib, e[f.name], f.typ) else "<missing>")];
      i := i + 1;
    }
    assert pairs == ColumnPairs(lib, e, schema);
    var stray := SortedStray(e, schema);
    pairs := pairs + seq(|stray|, k requires 0 <= k < |stray| =>
                           Pair(stray[k], if stray[k] in e then CanonicalCell(lib, e[stray[k]], "") else ""));
    assert pairs == ExpectedPairs(lib, e, schema);
    line := "{" + Join(pairs) + "}";
  }

  method SortedStray(e: ExpectedRow, schema: seq<Field>) returns (stray: seq<string>)
    ensures stray == SortedKeys(StrayKeys(e, schema))
  {
    stray := [];
    var todo := StrayKeys(e, schema);
    ghost var done: set<string> := {};
    while todo != {}
      invariant done !! todo && done + todo == StrayKeys(e, schema)
      invariant Sorted(stray) && multiset(stray) == multiset(done)
    {
      var k :| k in todo;
      stray := InsertSorted(stray, k);
      assert multiset(done + {k}) == multiset(done) + multiset{k};
      todo, done := todo - {k}, done + {k};
    }
    SortedListing(stray, StrayKeys(e, schema));
  }

  method CanonicalActualRow(lib: Lib, schema: seq<Field>, a: ActualRow) returns (line: string)
    ensures line == ActualLine(lib, schema, a)
  {
    var pairs: seq<string> := [];
    var i := 0;
    while i < |a|
      invariant 0 <= i <= |a| && pairs == ActualPairs(lib, a, schema)[..i]
    {
      pairs := pairs + [ActualPair(lib, a[i], i, schema)];
      i := i + 1;
    }
    assert pairs == ActualPairs(lib, a, schema);
    line := "{" + Join(pairs) + "}";
  }

  method OrderedRowDiff(lib: Lib, schema: seq<Field>, exp: seq<ExpectedRow>, act: seq<ActualRow>) returns (pass: bool)
    ensures pass <==> OrderedPasses(lib, schema, exp, act)
  {
    if |exp| != |act| { return false; }
    var i := 0;
    while i < |exp|
      invariant 0 <= i <= |exp|
      invariant forall k | 0 <= k < i :: RowMatches(lib, exp[k], act[k], schema)
    {
      var ok := RowMatchesTyped(lib, exp[i], act[i], schema);
      if !ok { return false; }
      i := i + 1;
    }
    pass := true;
  }

  method UnorderedRowDiff(lib: Lib, schema: seq<Field>, exp: seq<ExpectedRow>, act: seq<ActualRow>)
    returns (pass: bool, missing: seq<string>, extra: seq<string>)
    ensures pass <==> UnorderedPasses(lib, schema, exp, act)
    ensures pass <==> missing == [] && extra == []
    ensures multiset(ExpectedLines(lib, schema, exp)) + multiset(extra) ==
            multiset(ActualLines(lib, schema, act)) + multiset(missing)
    ensures multiset(missing) !! multiset(extra)
  {
    var expLines := AllExpectedLines(lib, schema, exp);
    var actLines := AllActualLines(lib, schema, act);
    var expCanon := GroupLines(expLines);
    var actCanon := GroupLines(actLines);
    pass := MultisetsEqual(expCanon, actCanon, multiset(expLines), multiset(actLines));
    missing, extra := DiffMultiset(expCanon, actCanon, multiset(expLines), multiset(actLines));
  }

  method AllExpectedLines(lib: Lib, schema: seq<Field>, exp: seq<ExpectedRow>) returns (lines: seq<string>)
    ensures lines == ExpectedLines(lib, schema, exp)
  {
    lines := [];
    var i := 0;
    while i < |exp|
      invariant 0 <= i <= |exp| && lines == ExpectedLines(lib, schema, exp)[..i]
    {
      var line := CanonicalExpectedRow(lib, schema, exp[i]);
      lines := lines + [line];
      i := i + 1;
    }
  }

  method AllActualLines(lib: Lib, schema: seq<Field>, act: seq<ActualRow>) returns (lines: seq<string>)
    ensures lines == ActualLines(lib, schema, act)
  {
    lines := [];
    var i := 0;
    while i < |act|
      invariant 0 <= i <= |act| && lines == ActualLines(lib, schema, act)[..i]
    {
      var line := CanonicalActualRow(lib, schema, act[i]);
      lines := lines + [line];
      i := i + 1;
    }
  }

  /** Longer pairs and more of them make longer text. */
  lemma {:induction false} JoinLonger(x: seq<string>, y: seq<string>)
    requires |y| <= |x| && (forall i | 0 <= i < |x| :: x[i] != "") && forall i | 0 <= i < |y| :: |x[i]| >= |y[i]|
    ensures |Join(x)| >= |Join(y)|
    ensures |y| < |x| || (exists i :: 0 <= i < |y| && |x[i]| > |y[i]|) ==> |Join(x)| > |Join(y)|
  {
    if y != [] {
      JoinLonger(x[1..], y[1..]);
      if i :| 0 <= i < |y| && |x[i]| > |y[i]| { assert i > 0 ==> x[1..][i - 1] == x[i] && y[1..][i - 1] == y[i]; }
    }
  }

  /** Of two matching rows the expected one is never rendered shorter, and longer when a column is not supplied. */
  lemma MatchingRowsLength(lib: Lib, e: ExpectedRow, a: ActualRow, schema: seq<Field>)
    requires RowMatches(lib, e, a, schema) && ExactColumns(schema)
    ensures |ExpectedLine(lib, schema, e)| >= |ActualLine(lib, schema, a)|
    ensures !SuppliesAll(e, a, schema) ==> |ExpectedLine(lib, schema, e)| > |ActualLine(lib, schema, a)|
  {
    assert StrayKeys(e, schema) == {};
    var x, y := ExpectedPairs(lib, e, schema), ActualPairs(lib, a, schema);
    assert x == ColumnPairs(lib, e, schema);
    forall i | 0 <= i < |a| ensures |x[i]| >= |y[i]| && (schema[i].name !in e ==> |x[i]| > |y[i]|) {
      var f := schema[i];
      assert ColumnMatches(lib, e, a, f, i);
      if f.name in e { EqualCellsCanonical(lib, e[f.name], a[i], f.typ, f.mode); } else { MissingIsLonger(f.name); }
    }
    JoinLonger(x, y);
    if !SuppliesAll(e, a, schema) && |a| == |schema| {
      var i :| 0 <= i < |schema| && schema[i].name !in e;
      assert |x[i]| > |y[i]|;
    }
  }

  function TotalLength(lines: seq<string>): nat {
    if lines == [] then 0 else |lines[0]| + TotalLength(lines[1..])
  }

  lemma {:induction false} TotalLengthConcat(a: seq<string>, b: seq<string>)
    ensures TotalLength(a + b) == TotalLength(a) + TotalLength(b)
  {
    if a == [] { assert a + b == b; } else {
      assert (a + b)[1..] == a[1..] + b;
      TotalLengthConcat(a[1..], b);
    }
  }

  lemma {:induction false} TotalLengthPermute(s: seq<string>, t: seq<string>)
    requires multiset(s) == multiset(t)
    ensures TotalLength(s) == TotalLength(t)
  {
    if s == [] {
      assert |multiset(t)| == 0;
    } else {
      assert s[0] in multiset(t);
      var j :| 0 <= j < |t| && t[j] == s[0];
      SplitOff(s, t, j);
      TotalLengthPermute(s[1..], t[..j] + t[j + 1..]);
      TotalLengthConcat(t[..j], t[j + 1..]);
      TotalLengthConcat(t[..j], [t[j]] + t[j + 1..]);
      assert t == t[..j] + ([t[j]] + t[j + 1..]);
    }
  }

  lemma {:induction false} TotalLengthGreater(x: seq<string>, y: seq<string>)
    requires |x| == |y| && forall i | 0 <= i < |x| :: |x[i]| >= |y[i]|
    ensures TotalLength(x) >= TotalLength(y)
    ensures (exists i :: 0 <= i < |x| && |x[i]| > |y[i]|) ==> TotalLength(x) > TotalLength(y)
  {
    if x != [] {
      TotalLengthGreater(x[1..], y[1..]);
      if i :| 0 <= i < |x| && |x[i]| > |y[i]| { assert i > 0 ==> x[1..][i - 1] == x[i] && y[1..][i - 1] == y[i]; }
    }
  }

  /** Matching rows list as the same multiset of lines exactly when every row supplies every column. */
  lemma MatchingListsCanonicalIff(lib: Lib, schema: seq<Field>, exp: seq<ExpectedRow>, act: seq<ActualRow>)
    requires OrderedPasses(lib, schema, exp, act) && ExactColumns(schema)
    ensures UnorderedPasses(lib, schema, exp, act) <==> forall i | 0 <= i < |exp| :: SuppliesAll(exp[i], act[i], schema)
  {
    var x, y := ExpectedLines(lib, schema, exp), ActualLines(lib, schema, act);
    forall i | 0 <= i < |exp|
      ensures |x[i]| >= |y[i]|
      ensures if SuppliesAll(exp[i], act[i], schema) then x[i] == y[i] else |x[i]| > |y[i]|
    {
      MatchingRowsCanonicalIff(lib, exp[i], act[i], schema);
      MatchingRowsLength(lib, exp[i], act[i], schema);
    }
    if forall i | 0 <= i < |exp| :: SuppliesAll(exp[i], act[i], schema) {
      assert x == y;
    } else {
      TotalLengthGreater(x, y);
      if multiset(x) == multiset(y) { TotalLengthPermute(x, y); }
    }
  }

  /**
   A passing ordered comparison passes unordered, for every permutation of either side, exactly when every
   row supplies every column.
   */
  lemma OrderedImpliesUnorderedIff(lib: Lib, schema: seq<Field>, exp: seq<ExpectedRow>, act: seq<ActualRow>,
                                   exp': seq<ExpectedRow>, act': seq<ActualRow>)
    requires OrderedPasses(lib, schema, exp, act) && ExactColumns(schema)
    requires multiset(exp') == multiset(exp) && multiset(act') == multiset(act)
    ensures UnorderedPasses(lib, schema, exp', act') <==>
            forall i | 0 <= i < |exp| :: SuppliesAll(exp[i], act[i], schema)
  {
    MatchingListsCanonicalIff(lib, schema, exp, act);
    ExpectedLinesPermute(lib, schema, exp, exp');
    ActualLinesPermute(lib, schema, act, act');
  }

  lemma ExpectedLinesPermute(lib: Lib, schema: seq<Field>, exp: seq<ExpectedRow>, exp': seq<ExpectedRow>)
    requires multiset(exp') == multiset(exp)
    ensures multiset(ExpectedLines(lib, schema, exp')) == multiset(ExpectedLines(lib, schema, exp))
  {
    ghost var f := (e: ExpectedRow) => ExpectedLine(lib, schema, e);
    MappedPermutation(f, exp, exp');
    MappedAt(f, exp);
    MappedAt(f, exp');
    assert Mapped(f, exp) == ExpectedLines(lib, schema, exp) && Mapped(f, exp') == ExpectedLines(lib, schema, exp');
  }

  lemma ActualLinesPermute(lib: Lib, schema: seq<Field>, act: seq<ActualRow>, act': seq<ActualRow>)
    requires multiset(act') == multiset(act)
    ensures multiset(ActualLines(lib, schema, act')) == multiset(ActualLines(lib, schema, act))
  {
    ghost var g := (a: ActualRow) => ActualLine(lib, schema, a);
    MappedPermutation(g, act, act');
    MappedAt(g, act);
    MappedAt(g, act');
    assert Mapped(g, act) == ActualLines(lib, schema, act) && Mapped(g, act') == ActualLines(lib, schema, act');
  }

  /** A column the fixture leaves out passes ordered against NULL and fails unordered. */
  lemma OmittedColumnFailsUnordered(lib: Lib)
    ensures var schema := [Field("c", "STRING", "NULLABLE")];
            OrderedPasses(lib, schema, [map[]], [[Nil]]) && !UnorderedPasses(lib, schema, [map[]], [[Nil]])
  {
    var schema := [Field("c", "STRING", "NULLABLE")];
    assert StrayKeys(map[], schema) == {};
    assert ColumnPairs(lib, map[], schema) == [Pair("c", "<missing>")];
    assert ExpectedPairs(lib, map[], schema) == [Pair("c", "<missing>")];
    assert ActualPairs(lib, [Nil], schema) == [Pair("c", "<NULL>")];
    var x, y := ExpectedLine(lib, schema, map[]), ActualLine(lib, schema, [Nil]);
    assert |x| != |y|;
    assert ExpectedLines(lib, schema, [map[]]) == [x] && ActualLines(lib, schema, [[Nil]]) == [y];
    assert multiset([x])[x] == 1 && multiset([y])[x] == 0;
  }
}
