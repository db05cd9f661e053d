/**
 What each kind of cell is equal to, column type by column type
 (conformance/runner/diff_scalars.go).
 */
module DiffReadings {
  import opened Basics
  import opened DiffConverse
  import opened DiffEngine
  import opened Whitespace

  predicate Called(fieldType: string, names: set<string>) {
    Upper(Trim(fieldType)) in names
  }

  const NUMBERS := {"INT64", "INTEGER", "NUMERIC", "BIGNUMERIC"}
  const FLOATS := {"FLOAT64", "FLOAT"}
  const BOOLS := {"BOOL", "BOOLEAN"}
  const TIMES := {"TIMESTAMP", "DATE", "DATETIME", "TIME"}

  predicate Single(mode: string) {
    Lower(Trim(mode)) != "repeated"
  }

  // ----- A library that reads what it writes -----

  ghost predicate ReadsBack(lib: Lib) {
    && (forall r: Rat :: lib.ratOfText(RatText(r)) == Some(r))
    && (forall t :: lib.timeOfText(lib.timeText(t)) == Some(t))
  }

  /** There are such libraries, whatever the rest of them does. */
  lemma ReadsBackExists(lib: Lib)
    ensures exists ratOfText, timeOfText ::
              ReadsBack(lib.(ratOfText := ratOfText, timeOfText := timeOfText, timeText := IntText))
  {
    var ratOfText := (s: string) =>
      if exists r: Rat :: RatText(r) == s then (var r: Rat :| RatText(r) == s; Some(r)) else None;
    var timeOfText := (s: string) =>
      if exists t :: IntText(t) == s then (var t :| IntText(t) == s; Some(t)) else None;
    var lib' := lib.(ratOfText := ratOfText, timeOfText := timeOfText, timeText := IntText);
    forall r: Rat ensures lib'.ratOfText(RatText(r)) == Some(r) {
      RatTextDetermines(r, lib'.ratOfText(RatText(r)).value);
    }
    forall t ensures lib'.timeOfText(lib'.timeText(t)) == Some(t) {
      IntTextDetermines(t, lib'.timeOfText(lib'.timeText(t)).value);
    }
    assert ReadsBack(lib');
  }

  // ----- Texts -----

  lemma IntTextPlain(n: int)
    ensures IntText(n) != "" && forall i | 0 <= i < |IntText(n)| :: !IsSpace(IntText(n)[i])
  {
  }

  lemma RatTextTrimmed(r: Rat)
    ensures RatText(r) != "" && Trim(RatText(r)) == RatText(r)
  {
    IntTextPlain(r.num);
    IntTextPlain(r.den);
    var s := RatText(r);
    assert r.den != 1 ==> s[|s| - 1] == Decimal(r.den)[|Decimal(r.den)| - 1];
    assert s[0] == IntText(r.num)[0];
    assert "" + s + "" == s;
    TrimPadded("", s, "");
  }

  lemma BoolTextReads(b: bool)
    ensures ToBool(StrV(BoolText(b))) == Some(b)
  {
    var s := BoolText(b);
    assert "" + s + "" == s;
    TrimPadded("", s, "");
    assert Lower("true") == "true" && Lower("false") == "false";
    assert |"true"| == 4 && |"false"| == 5 && |"t"| == 1 && |"1"| == 1;
  }

  /** An integer's text is its digits, after a minus sign when it is negative. */
  lemma IntTextDenotes(n: int)
    ensures var s := IntText(n);
            if n < 0 then s != "" && s[0] == '-' && s[1..] != "" && AllDigits(s[1..]) && DecimalValue(s[1..]) == -n
            else s != "" && AllDigits(s) && DecimalValue(s) == n
  {
    DecimalRoundTrip(if n < 0 then -n else n);
    assert n < 0 ==> IntText(n)[1..] == Decimal(-n);
  }

  /** A rational's text is its numerator's, and its denominator's after a slash unless that is one. */
  lemma RatTextDenotes(r: Rat)
    ensures var s := RatText(r);
            var k := Position(s, '/');
            && s[..k] == IntText(r.num)
            && (if k == |s| then r.den == 1 else s[k + 1..] == IntText(r.den))
  {
    NoSlash(r.num);
    var s := RatText(r);
    var n := IntText(r.num);
    assert forall i | 0 <= i < |n| :: s[i] == n[i] && n[i] in n;
    assert r.den != 1 ==> s[|n|] == '/';
    assert Position(s, '/') == |n|;
  }

  /** A value stands for itself as its canonical text, on every exact column. */
  lemma CellEqualsItsText(lib: Lib, v: Any, w: Any, fieldType: string, mode: string)
    requires ReadsBack(lib) && Single(mode) && !Classify(fieldType).FloatType?
    requires !v.Nil? && !w.Nil? && Readable(lib, w, fieldType)
    ensures CellsEqual(lib, v, StrV(CanonicalCell(lib, w, fieldType)), fieldType, mode) <==>
            CellsEqual(lib, v, w, fieldType, mode)
  {
    match Classify(fieldType)
    case NumericType => RatTextTrimmed(ToRat(lib, w).value);
    case BoolType => BoolTextReads(ToBool(w).value);
    case _ =>
  }

  // ----- NULL -----

  /** NULL equals NULL and nothing else, in every column. */
  lemma NullCells(lib: Lib, v: Any, fieldType: string, mode: string)
    ensures CellsEqual(lib, Nil, v, fieldType, mode) <==> v.Nil?
    ensures CellsEqual(lib, v, Nil, fieldType, mode) <==> v.Nil?
  {
  }

  /** A REPEATED column, in any case and with space around, is left to the element-wise comparison. */
  lemma RepeatedCells(lib: Lib, v: Any, w: Any, fieldType: string, mode: string)
    requires !Single(mode) && !v.Nil? && !w.Nil?
    ensures CellsEqual(lib, v, w, fieldType, mode) <==> lib.repeatedEqual(v, w, fieldType)
  {
  }

  // ----- Booleans -----

  /** What equals a boolean: itself, its words in any case with space around, and integers by being nonzero. */
  lemma BoolCells(lib: Lib, b: bool, c: bool, s: string, kind: IntKind, n: int, fieldType: string, mode: string)
    requires Called(fieldType, BOOLS) && Single(mode)
    ensures CellsEqual(lib, BoolV(b), BoolV(c), fieldType, mode) <==> b == c
    ensures CellsEqual(lib, BoolV(b), StrV(BoolText(c)), fieldType, mode) <==> b == c
    ensures CellsEqual(lib, BoolV(b), StrV(s), fieldType, mode) <==>
            Lower(Trim(s)) in if b then {"true", "t", "1"} else {"false", "f", "0"}
    ensures CellsEqual(lib, BoolV(b), IntV(kind, n), fieldType, mode) <==> !kind.Unsigned? && b == (n != 0)
  {
    BoolTextReads(c);
    WordsDiffer();
  }

  lemma WordsDiffer()
    ensures {"true", "t", "1"} !! {"false", "f", "0"}
  {
    assert |"true"| == 4 && |"false"| == 5 && "t"[0] == 't' && "f"[0] == 'f' && "0"[0] == '0' && "1"[0] == '1';
  }

  // ----- Numbers -----

  /** Numbers compare by value, however each side writes them. */
  lemma NumberCells(lib: Lib, n: int, m: int, kind: IntKind, kind': IntKind, wide: bool, r: Rat, r': Rat,
                    fieldType: string, mode: string)
    requires ReadsBack(lib) && Called(fieldType, NUMBERS) && Single(mode)
    ensures CellsEqual(lib, IntV(kind, n), IntV(kind', m), fieldType, mode) <==> n == m
    ensures CellsEqual(lib, IntV(kind, n), StrV(IntText(m)), fieldType, mode) <==> n == m
    ensures CellsEqual(lib, IntV(kind, n), FloatV(wide, r), fieldType, mode) <==> r.num == n && r.den == 1
    ensures CellsEqual(lib, FloatV(wide, r), StrV(RatText(r')), fieldType, mode) <==> r == r'
  {
    var whole: Rat := Fraction(m, 1);
    NumberReads(lib, whole);
    NumberReads(lib, r');
    assert RatText(whole) == IntText(m);
    ByNumber(lib, IntV(kind, n), IntV(kind', m), fieldType, mode);
    ByNumber(lib, IntV(kind, n), StrV(IntText(m)), fieldType, mode);
    ByNumber(lib, IntV(kind, n), FloatV(wide, r), fieldType, mode);
    ByNumber(lib, FloatV(wide, r), StrV(RatText(r')), fieldType, mode);
  }

  lemma ByNumber(lib: Lib, v: Any, w: Any, fieldType: string, mode: string)
    requires Called(fieldType, NUMBERS) && Single(mode) && !v.Nil? && !w.Nil? && ToRat(lib, v).Some?
    ensures CellsEqual(lib, v, w, fieldType, mode) <==> ToRat(lib, w) == ToRat(lib, v)
  {
  }

  lemma NumberReads(lib: Lib, r: Rat)
    requires ReadsBack(lib)
    ensures ToRat(lib, StrV(RatText(r))) == Some(r)
  {
    RatTextTrimmed(r);
  }

  // ----- Times -----

  /** Times compare as instants; an integer counts seconds, and a narrow float or a narrow integer is no time. */
  lemma TimeCells(lib: Lib, t: int, zone: int, t': int, zone': int, kind: IntKind, n: int, r: Rat,
                  fieldType: string, mode: string)
    requires ReadsBack(lib) && Called(fieldType, TIMES) && Single(mode)
    ensures CellsEqual(lib, TimeV(t, zone), TimeV(t', zone'), fieldType, mode) <==> t == t'
    ensures CellsEqual(lib, TimeV(t, zone), StrV(lib.timeText(t')), fieldType, mode) <==> t == t'
    ensures CellsEqual(lib, TimeV(t, zone), IntV(kind, n), fieldType, mode) <==>
            (kind.Int? || kind.Int64?) && t == n * 1_000_000_000
    ensures CellsEqual(lib, TimeV(t, zone), FloatV(true, r), fieldType, mode) <==> t == lib.timeOfFloat(r)
    ensures !CellsEqual(lib, TimeV(t, zone), FloatV(false, r), fieldType, mode)
  {
  }

  // ----- Everything else -----

  /** Under any other type name cells compare as texts, character by character. */
  lemma TextCells(lib: Lib, x: string, y: string, b: bool, kind: IntKind, n: int, fieldType: string, mode: string)
    requires !Called(fieldType, NUMBERS + FLOATS + BOOLS + TIMES) && Single(mode)
    ensures CellsEqual(lib, StrV(x), StrV(y), fieldType, mode) <==> x == y
    ensures CellsEqual(lib, BoolV(b), StrV(y), fieldType, mode) <==> y == if b then "true" else "false"
    ensures CellsEqual(lib, IntV(kind, n), StrV(y), fieldType, mode) <==> y == IntText(n)
  {
  }
}
