/**
 Extraction of a `_TABLE_SUFFIX` allow-list from a resolved filter expression
 (backend/catalog/wildcard_table_suffix_filter.cc) and the exact relation between
 that list and the SQL meaning of the filter.
 */
module SuffixFilter {
  import opened Basics

  const TABLE_SUFFIX := "_TABLE_SUFFIX"

  datatype Value = Invalid | Null | Bool(b: bool) | Str(s: string) | Arr(elems: seq<Value>) | Opaque(id: int)

  /** `Absent` is a null argument pointer; `OtherExpr` any node kind the extractor does not look at. */
  datatype Expr =
    | Absent
    | ColumnRef(column: string)
    | Literal(value: Value)
    | Call(fn: Option<string>, args: seq<Expr>)
    | OtherExpr(id: int)

  /** The function name of a call node, lower-cased as the extractor compares it. */
  predicate IsCall(e: Expr, fn: string) {
    e.Call? && e.fn.Some? && Lower(e.fn.value) == fn
  }

  // ----- SQL meaning of a filter, three-valued -----

  function EqualValue(a: Value, b: Value): Value {
    if a.Null? || b.Null? then Null else Bool(a == b)
  }

  function And2(a: Value, b: Value): Value {
    if a == Bool(false) || b == Bool(false) then Bool(false)
    else if a == Bool(true) && b == Bool(true) then Bool(true)
    else Null
  }

  predicate Comparable(v: Value) {
    v.Null? || v.Str?
  }

  function AtMost(a: Value, b: Value): Value
    requires Comparable(a) && Comparable(b)
  {
    if a.Null? || b.Null? then Null else Bool(Leq(a.s, b.s))
  }

  function InArray(x: Value, elems: seq<Value>): Value {
    if elems == [] then Bool(false)
    else if x.Null? then Null
    else if x in elems then Bool(true)
    else if Null in elems then Null
    else Bool(false)
  }

  /**
   Value of `e` on a row whose `_TABLE_SUFFIX` cell is `suffix`. `rest` gives the value of every
   other expression of that row, so nothing is assumed about functions and columns the
   extractor does not interpret.
   */
  ghost function Eval(e: Expr, suffix: string, rest: Expr -> Value): Value
    decreases e, 1
  {
    match e
    case Literal(v) => v
    case ColumnRef(c) => if c == TABLE_SUFFIX then Str(suffix) else rest(e)
    case Call(_, args) =>
      if IsCall(e, "$and") then EvalAnd(args, suffix, rest)
      else if IsCall(e, "$equal") && |args| == 2 then
        EqualValue(Eval(args[0], suffix, rest), Eval(args[1], suffix, rest))
      else if IsCall(e, "$in") && |args| == 2 && Eval(args[1], suffix, rest).Arr? then
        InArray(Eval(args[0], suffix, rest), Eval(args[1], suffix, rest).elems)
      else if IsCall(e, "$between") && |args| == 3 then
        var x, lo, hi := Eval(args[0], suffix, rest), Eval(args[1], suffix, rest), Eval(args[2], suffix, rest);
        if Comparable(x) && Comparable(lo) && Comparable(hi) then And2(AtMost(lo, x), AtMost(x, hi)) else rest(e)
      else rest(e)
    case _ => rest(e)
  }

  ghost function EvalAnd(args: seq<Expr>, suffix: string, rest: Expr -> Value): Value
    decreases args, 0
  {
    if args == [] then Bool(true) else And2(Eval(args[0], suffix, rest), EvalAnd(args[1..], suffix, rest))
  }

  /** A WHERE clause keeps a row exactly when it evaluates to TRUE. */
  ghost predicate Keeps(e: Expr, suffix: string, rest: Expr -> Value) {
    Eval(e, suffix, rest) == Bool(true)
  }

  // ----- Extraction -----

  predicate IsSuffixRef(e: Expr) {
    e == ColumnRef(TABLE_SUFFIX)
  }

  function StringFromLiteral(e: Expr): Option<string> {
    if e.Literal? && e.value.Str? then Some(e.value.s) else None
  }

  /** The strings of an array literal, or nothing when some element is not a string. */
  function StringsOf(elems: seq<Value>): Option<seq<string>> {
    if elems == [] then Some([])
    else if !elems[0].Str? then None
    else match StringsOf(elems[1..])
         case None => None
         case Some(tail) => Some([elems[0].s] + tail)
  }

  function FromEqual(args: seq<Expr>): Option<seq<string>> {
    if |args| != 2 then None
    else
      var literal := if IsSuffixRef(args[0]) then args[1] else args[0];
      if !IsSuffixRef(args[0]) && !IsSuffixRef(args[1]) then None
      else match StringFromLiteral(literal)
           case None => None
           case Some(s) => Some([s])
  }

  function FromBetween(args: seq<Expr>): Option<seq<string>> {
    if |args| != 3 || !IsSuffixRef(args[0]) then None
    else match (StringFromLiteral(args[1]), StringFromLiteral(args[2]))
         case (Some(low), Some(high)) => Some([low, high])
         case _ => None
  }

  function FromIn(args: seq<Expr>): Option<seq<string>> {
    if |args| != 2 || !IsSuffixRef(args[0]) || !args[1].Literal? || !args[1].value.Arr? then None
    else StringsOf(args[1].value.elems)
  }

  /** The members of `a` that also occur in `b`, in `a`'s order and with `a`'s repetitions. */
  function Intersect(a: seq<string>, b: seq<string>): seq<string> {
    if a == [] then []
    else (if a[0] in b then [a[0]] else []) + Intersect(a[1..], b)
  }

  function AllowList(e: Expr): Option<seq<string>>
    decreases e, 1
  {
    if IsCall(e, "$equal") then FromEqual(e.args)
    else if IsCall(e, "$in") then FromIn(e.args)
    else if IsCall(e, "$between") then FromBetween(e.args)
    else if IsCall(e, "$and") then AndAllowList(None, e.args)
    else None
  }

  /** The `$and` accumulation: give up on the first opaque conjunct, stop early once nothing is left. */
  function AndAllowList(acc: Option<seq<string>>, args: seq<Expr>): Option<seq<string>>
    decreases args, 0
  {
    if args == [] then acc
    else match AllowList(args[0])
         case None => None
         case Some(part) =>
           if acc.None? then AndAllowList(Some(part), args[1..])
           else
             var both := Intersect(acc.value, part);
             if both == [] then Some([]) else AndAllowList(Some(both), args[1..])
  }

  /** Whether a table with this suffix is scanned under the allow-list. */
  predicate SuffixMatches(suffix: string, allow: seq<string>) {
    if allow == [] then false
    else if |allow| == 2 && Leq(allow[0], allow[1]) then Leq(allow[0], suffix) && Leq(suffix, allow[1])
    else suffix in allow
  }

  // ----- The loops of the source, against the functions above -----

  method IntersectAllowLists(a: Option<seq<string>>, b: Option<seq<string>>) returns (r: Option<seq<string>>)
    ensures r == if a.Some? && b.Some? then Some(Intersect(a.value, b.value)) else None
  {
    if a.None? || b.None? { return None; }
    var out := [];
    var i := 0;
    assert a.value[0..] == a.value;
    while i < |a.value|
      invariant 0 <= i <= |a.value|
      invariant out + Intersect(a.value[i..], b.value) == Intersect(a.value, b.value)
    {
      assert a.value[i..][1..] == a.value[i + 1..];
      if a.value[i] in b.value { out := out + [a.value[i]]; }
      i := i + 1;
    }
    assert a.value[i..] == [] && out + [] == out;
    r := Some(out);
  }

  method ExtractFromInCall(args: seq<Expr>) returns (r: Option<seq<string>>)
    ensures r == FromIn(args)
  {
    if |args| != 2 || !IsSuffixRef(args[0]) || !args[1].Literal? || !args[1].value.Arr? { return None; }
    var elems := args[1].value.elems;
    var out := [];
    var i := 0;
    assert elems[0..] == elems;
    assert StringsOf(elems).Some? ==> out + StringsOf(elems).value == StringsOf(elems).value;
    while i < |elems|
      invariant 0 <= i <= |elems|
      invariant match StringsOf(elems[i..])
                case None => StringsOf(elems) == None
                case Some(tail) => StringsOf(elems) == Some(out + tail)
    {
      assert elems[i..][1..] == elems[i + 1..];
      if !elems[i].Str? { return None; }
      assert forall tail: seq<string> :: out + ([elems[i].s] + tail) == (out + [elems[i].s]) + tail;
      out := out + [elems[i].s];
      i := i + 1;
    }
    assert elems[i..] == [] && out + [] == out;
    r := Some(out);
  }

  method ExtractFromExpr(e: Expr) returns (r: Option<seq<string>>)
    ensures r == AllowList(e)
    decreases e
  {
    if !e.Call? || e.fn.None? { return None; }
    var fn := Lower(e.fn.value);
    if fn == "$equal" { return FromEqual(e.args); }
    if fn == "$in" { r := ExtractFromInCall(e.args); return; }
    if fn == "$between" { return FromBetween(e.args); }
    if fn != "$and" { return None; }
    var acc: Option<seq<string>> := None;
    var i := 0;
    assert e.args[0..] == e.args;
    while i < |e.args|
      invariant 0 <= i <= |e.args|
      invariant AndAllowList(acc, e.args[i..]) == AndAllowList(None, e.args)
    {
      assert e.args[i..][1..] == e.args[i + 1..];
      var part := ExtractFromExpr(e.args[i]);
      if part.None? { return None; }
      if acc.None? {
        acc := part;
      } else {
        acc := IntersectAllowLists(acc, part);
        if acc.value == [] { return acc; }
      }
      i := i + 1;
    }
    assert e.args[i..] == [];
    r := acc;
  }

  // ----- What the list means -----

  /** Every `$between` reachable through `$and` nesting has `s` as one of its two bounds. */
  predicate AtBounds(e: Expr, s: string)
    decreases e, 1
  {
    if IsCall(e, "$between") then FromBetween(e.args).Some? ==> s in FromBetween(e.args).value
    else if IsCall(e, "$and") then AllAtBounds(e.args, s)
    else true
  }

  predicate AllAtBounds(args: seq<Expr>, s: string)
    decreases args, 0
  {
    args == [] || (AtBounds(args[0], s) && AllAtBounds(args[1..], s))
  }

  lemma {:induction false} StringsOfMember(elems: seq<Value>, s: string)
    requires StringsOf(elems).Some?
    ensures s in StringsOf(elems).value <==> Str(s) in elems
  {
    if elems != [] { StringsOfMember(elems[1..], s); }
  }

  lemma {:induction false} IntersectMember(a: seq<string>, b: seq<string>, s: string)
    ensures s in Intersect(a, b) <==> s in a && s in b
  {
    if a != [] { IntersectMember(a[1..], b, s); }
  }

  /** On a kept row the extracted strings name its suffix exactly when every `$between` has it as a bound. */
  lemma {:induction false} KeptSuffixListed(e: Expr, s: string, rest: Expr -> Value)
    requires AllowList(e).Some? && Keeps(e, s, rest)
    ensures s in AllowList(e).value <==> AtBounds(e, s)
    decreases e, 1
  {
    if IsCall(e, "$and") {
      KeptSuffixListedAnd(None, e.args, s, rest);
    } else if IsCall(e, "$in") {
      StringsOfMember(e.args[1].value.elems, s);
      assert Eval(e.args[1], s, rest) == e.args[1].value && Eval(e.args[0], s, rest) == Str(s);
    } else if IsCall(e, "$equal") {
      var k := if IsSuffixRef(e.args[0]) then 1 else 0;
      assert Eval(e.args[k], s, rest) == e.args[k].value && Eval(e.args[1 - k], s, rest) == Str(s);
    }
  }

  lemma {:induction false} KeptSuffixListedAnd(acc: Option<seq<string>>, args: seq<Expr>, s: string,
                                               rest: Expr -> Value)
    requires AndAllowList(acc, args).Some? && EvalAnd(args, s, rest) == Bool(true)
    ensures s in AndAllowList(acc, args).value <==> (acc.Some? ==> s in acc.value) && AllAtBounds(args, s)
    decreases args, 0
  {
    if args != [] {
      KeptSuffixListed(args[0], s, rest);
      var part := AllowList(args[0]).value;
      if acc.None? {
        KeptSuffixListedAnd(Some(part), args[1..], s, rest);
      } else {
        var both := Intersect(acc.value, part);
        IntersectMember(acc.value, part, s);
        if both != [] { KeptSuffixListedAnd(Some(both), args[1..], s, rest); }
      }
    }
  }

  /**
   When pruning keeps a table whose row the filter keeps: exactly when the suffix is a bound of every
   `$between` conjunct, or the list came down to two ordered strings around it.
   */
  lemma KeptSuffixScannedIff(e: Expr, s: string, rest: Expr -> Value)
    requires AllowList(e).Some? && Keeps(e, s, rest)
    ensures var allow := AllowList(e).value;
            SuffixMatches(s, allow) <==>
            AtBounds(e, s) || (|allow| == 2 && Leq(allow[0], s) && Leq(s, allow[1]))
  {
    KeptSuffixListed(e, s, rest);
    var allow := AllowList(e).value;
    if |allow| == 2 {
      LeqReflexive(s);
      if Leq(allow[0], s) && Leq(s, allow[1]) { LeqTransitive(allow[0], s, allow[1]); }
    }
  }

  predicate BetweenFree(e: Expr)
    decreases e, 1
  {
    if IsCall(e, "$and") then AllBetweenFree(e.args) else !IsCall(e, "$between")
  }

  predicate AllBetweenFree(args: seq<Expr>)
    decreases args, 0
  {
    args == [] || (BetweenFree(args[0]) && AllBetweenFree(args[1..]))
  }

  /** A lone `$between` (possibly under one-argument `$and`s), or any `$and` nesting without one. */
  predicate SafeShape(e: Expr) {
    BetweenFree(e) || IsCall(e, "$between") || (IsCall(e, "$and") && |e.args| == 1 && SafeShape(e.args[0]))
  }

  lemma {:induction false} BetweenFreeAtBounds(e: Expr, s: string)
    requires BetweenFree(e)
    ensures AtBounds(e, s)
    decreases e, 1
  {
    if IsCall(e, "$and") { AllBetweenFreeAtBounds(e.args, s); }
  }

  lemma {:induction false} AllBetweenFreeAtBounds(args: seq<Expr>, s: string)
    requires AllBetweenFree(args)
    ensures AllAtBounds(args, s)
    decreases args, 0
  {
    if args != [] {
      BetweenFreeAtBounds(args[0], s);
      AllBetweenFreeAtBounds(args[1..], s);
    }
  }

  /** For the safe shapes no kept row's table is ever pruned. */
  lemma {:induction false} SafeShapeScansKept(e: Expr, s: string, rest: Expr -> Value)
    requires SafeShape(e) && AllowList(e).Some? && Keeps(e, s, rest)
    ensures SuffixMatches(s, AllowList(e).value)
    decreases e
  {
    if BetweenFree(e) {
      BetweenFreeAtBounds(e, s);
      KeptSuffixScannedIff(e, s, rest);
    } else if IsCall(e, "$between") {
      assert Eval(e.args[1], s, rest) == e.args[1].value && Eval(e.args[2], s, rest) == e.args[2].value;
      assert Eval(e.args[0], s, rest) == Str(s);
      KeptSuffixScannedIff(e, s, rest);
    } else {
      assert e.args[1..] == [];
      assert Keeps(e.args[0], s, rest) by { assert EvalAnd(e.args, s, rest) == Bool(true); }
      SafeShapeScansKept(e.args[0], s, rest);
      assert AndAllowList(None, e.args) == AllowList(e.args[0]);
    }
  }

  function Between(lo: string, hi: string): Expr {
    Call(Some("$between"), [ColumnRef(TABLE_SUFFIX), Literal(Str(lo)), Literal(Str(hi))])
  }

  function Equal(s: string): Expr {
    Call(Some("$equal"), [ColumnRef(TABLE_SUFFIX), Literal(Str(s))])
  }

  function And(a: Expr, b: Expr): Expr {
    Call(Some("$and"), [a, b])
  }

  /** `_TABLE_SUFFIX BETWEEN 'a' AND 'z' AND _TABLE_SUFFIX = 'm'` prunes every table, `m` included. */
  lemma BetweenConjunctLosesRows(rest: Expr -> Value)
    ensures var e := And(Between("a", "z"), Equal("m"));
            Keeps(e, "m", rest) && AllowList(e) == Some([]) && !SuffixMatches("m", [])
  {
    BetweenConjunctKeeps(rest);
    var e := And(Between("a", "z"), Equal("m"));
    assert IsCall(e, "$and") && IsCall(e.args[0], "$between") && IsCall(e.args[1], "$equal");
    assert e.args[1..] == [e.args[1]] && e.args[1..][1..] == [];
    assert ["a", "z"][1..] == ["z"] && ["z"][1..] == [];
    assert Intersect(["a", "z"], ["m"]) == [];
  }

  lemma BetweenConjunctKeeps(rest: Expr -> Value)
    ensures Keeps(And(Between("a", "z"), Equal("m")), "m", rest)
  {
    var e := And(Between("a", "z"), Equal("m"));
    assert IsCall(e, "$and") && IsCall(e.args[0], "$between") && IsCall(e.args[1], "$equal");
    assert e.args[1..] == [e.args[1]] && e.args[1..][1..] == [];
    assert Eval(e.args[0], "m", rest) == Bool(true) by { assert Leq("a", "m") && Leq("m", "z"); }
    assert Eval(e.args[1], "m", rest) == Bool(true);
    assert EvalAnd(e.args[1..], "m", rest) == Bool(true);
  }
}
