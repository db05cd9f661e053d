/**
 Exactly which filters give an allow-list, what it holds and in what order, said of the filter's
 syntax alone, and how far the list can be from the filter's meaning
 (backend/catalog/wildcard_table_suffix_filter.cc).
 */
module SuffixExact {
  import opened Basics
  import opened SuffixFilter

  const SUFFIX := ColumnRef(TABLE_SUFFIX)

  function Text(s: string): Expr {
    Literal(Str(s))
  }

  // ----- Which filters give a list -----

  /** The conjuncts are read from the left until none are left or no string is named by all those read. */
  ghost predicate ReadTo(args: seq<Expr>, k: nat)
    requires k <= |args|
  {
    k == |args| || (k >= 2 && forall s: string :: !NamedByAll(args[..k], s))
  }

  predicate AllStrings(elems: seq<Value>) {
    forall v | v in elems :: v.Str?
  }

  /** Comparisons of the suffix column with string literals, and conjunctions of them. */
  ghost predicate Recognised(e: Expr)
    decreases e
  {
    if IsCall(e, "$equal") then exists s :: e.args == [SUFFIX, Text(s)] || e.args == [Text(s), SUFFIX]
    else if IsCall(e, "$in") then
      exists elems: seq<Value> :: e.args == [SUFFIX, Literal(Arr(elems))] && AllStrings(elems)
    else if IsCall(e, "$between") then exists lo, hi :: e.args == [SUFFIX, Text(lo), Text(hi)]
    else
      IsCall(e, "$and") && e.args != [] &&
      exists k | 0 <= k <= |e.args| :: ReadTo(e.args, k) && forall i | 0 <= i < k :: Recognised(e.args[i])
  }

  /** The filter names the string: as an operand, as an element or as a bound, in every conjunct. */
  ghost predicate Names(e: Expr, s: string)
    decreases e, 1
  {
    if IsCall(e, "$equal") then e.args == [SUFFIX, Text(s)] || e.args == [Text(s), SUFFIX]
    else if IsCall(e, "$in") then exists elems: seq<Value> :: e.args == [SUFFIX, Literal(Arr(elems))] && Str(s) in elems
    else if IsCall(e, "$between") then
      |e.args| == 3 && e.args[0] == SUFFIX && (e.args[1] == Text(s) || e.args[2] == Text(s))
    else IsCall(e, "$and") && NamedByAll(e.args, s)
  }

  ghost predicate NamedByAll(args: seq<Expr>, s: string)
    decreases args, 0
  {
    forall i | 0 <= i < |args| :: Names(args[i], s)
  }

  lemma {:induction false} StringsOfIff(elems: seq<Value>)
    ensures StringsOf(elems).Some? <==> AllStrings(elems)
  {
    if elems != [] {
      StringsOfIff(elems[1..]);
      assert forall v | v in elems :: v == elems[0] || v in elems[1..];
    }
  }

  /** The strings of an IN list, in its order. */
  lemma {:induction false} StringsOfAt(ss: seq<string>, elems: seq<Value>)
    requires |elems| == |ss| && forall i | 0 <= i < |ss| :: elems[i] == Str(ss[i])
    ensures StringsOf(elems) == Some(ss)
  {
    if ss != [] {
      StringsOfAt(ss[1..], elems[1..]);
      assert ss == [ss[0]] + ss[1..];
    }
  }

  // ----- Single comparisons -----

  /** A list is given exactly when the filter is recognised, and holds the strings the filter names. */
  ghost predicate Exact(e: Expr) {
    && (AllowList(e).Some? <==> Recognised(e))
    && (AllowList(e).Some? ==> forall s :: s in AllowList(e).value <==> Names(e, s))
  }

  lemma TwoArgs(args: seq<Expr>)
    ensures |args| == 2 ==> args == [args[0], args[1]]
    ensures |args| == 3 ==> args == [args[0], args[1], args[2]]
  {
  }

  lemma EqualExact(e: Expr)
    requires IsCall(e, "$equal")
    ensures Exact(e)
  {
    TwoArgs(e.args);
    if AllowList(e).Some? {
      var s := AllowList(e).value[0];
      assert e.args == [SUFFIX, Text(s)] || e.args == [Text(s), SUFFIX];
    }
  }

  lemma InExact(e: Expr)
    requires IsCall(e, "$in")
    ensures Exact(e)
  {
    TwoArgs(e.args);
    if |e.args| == 2 && e.args[0] == SUFFIX && e.args[1].Literal? && e.args[1].value.Arr? {
      var elems := e.args[1].value.elems;
      assert e.args == [SUFFIX, Literal(Arr(elems))];
      StringsOfIff(elems);
      forall s | StringsOf(elems).Some? ensures s in StringsOf(elems).value <==> Str(s) in elems {
        StringsOfMember(elems, s);
      }
    }
  }

  lemma BetweenExact(e: Expr)
    requires IsCall(e, "$between")
    ensures Exact(e)
  {
    TwoArgs(e.args);
    if AllowList(e).Some? { assert e.args == [SUFFIX, Text(AllowList(e).value[0]), Text(AllowList(e).value[1])]; }
  }

  // ----- Conjunctions -----

  lemma NamedByAllCons(args: seq<Expr>, s: string)
    requires args != []
    ensures NamedByAll(args, s) <==> Names(args[0], s) && NamedByAll(args[1..], s)
  {
    assert forall i | 0 < i < |args| :: args[i] == args[1..][i - 1];
  }

  /** The strings of a list that every conjunct names, in the list's order. */
  ghost function Chosen(list: seq<string>, args: seq<Expr>): seq<string> {
    if list == [] then []
    else (if NamedByAll(args, list[0]) then [list[0]] else []) + Chosen(list[1..], args)
  }

  lemma {:induction false} ChosenMember(list: seq<string>, args: seq<Expr>, s: string)
    ensures s in Chosen(list, args) <==> s in list && NamedByAll(args, s)
  {
    if list != [] { ChosenMember(list[1..], args, s); }
  }

  lemma {:induction false} ChosenAll(list: seq<string>)
    ensures Chosen(list, []) == list
  {
    if list != [] { ChosenAll(list[1..]); }
  }

  lemma {:induction false} ChosenStep(list: seq<string>, part: seq<string>, args: seq<Expr>)
    requires args != [] && forall s :: s in part <==> Names(args[0], s)
    ensures Chosen(Intersect(list, part), args[1..]) == Chosen(list, args)
  {
    if list != [] {
      ChosenStep(list[1..], part, args);
      NamedByAllCons(args, list[0]);
      var rest := Intersect(list[1..], part);
      assert Intersect(list, part) == if list[0] in part then [list[0]] + rest else rest;
      assert ([list[0]] + rest)[1..] == rest;
    }
  }

  lemma {:induction false} ChosenOwn(list: seq<string>, args: seq<Expr>)
    requires args != [] && forall s | s in list :: Names(args[0], s)
    ensures Chosen(list, args[1..]) == Chosen(list, args)
  {
    if list != [] {
      ChosenOwn(list[1..], args);
      NamedByAllCons(args, list[0]);
    }
  }

  /** The rest of a conjunction is read to its end, or until no string of the list is left. */
  ghost predicate Reach(list: seq<string>, args: seq<Expr>, k: nat)
    requires k <= |args|
  {
    && (k == |args| || (k >= 1 && forall s | s in list :: !NamedByAll(args[..k], s)))
    && forall i | 0 <= i < k :: Recognised(args[i])
  }

  lemma PrefixCons(args: seq<Expr>, k: nat)
    requires args != [] && k < |args|
    ensures args[..k + 1][0] == args[0] && args[..k + 1][1..] == args[1..][..k]
  {
  }

  lemma ReachStep(list: seq<string>, part: seq<string>, args: seq<Expr>, k: nat)
    requires args != [] && Recognised(args[0]) && k < |args| && Intersect(list, part) != []
    requires forall s :: s in part <==> Names(args[0], s)
    ensures Reach(Intersect(list, part), args[1..], k) <==> Reach(list, args, k + 1)
  {
    PrefixCons(args, k);
    var both := Intersect(list, part);
    forall s ensures s in both && NamedByAll(args[1..][..k], s) <==> s in list && NamedByAll(args[..k + 1], s) {
      IntersectMember(list, part, s);
      NamedByAllCons(args[..k + 1], s);
    }
    assert forall i | 0 < i < |args| :: args[i] == args[1..][i - 1];
    assert k == 0 ==> NamedByAll(args[1..][..k], both[0]) && both[0] in both;
  }

  /** With a list already at hand: when the rest gives one, and which of its strings are left. */
  lemma {:induction false} AndExact(list: seq<string>, args: seq<Expr>)
    ensures AndAllowList(Some(list), args).Some? <==> exists k | 0 <= k <= |args| :: Reach(list, args, k)
    ensures AndAllowList(Some(list), args).Some? ==> AndAllowList(Some(list), args).value == Chosen(list, args)
    decreases args, 0
  {
    if args == [] {
      ChosenAll(list);
      assert Reach(list, args, 0);
    } else {
      AllowListExact(args[0]);
      assert forall k | 0 <= k <= |args| && Reach(list, args, k) :: Recognised(args[0]);
      if Recognised(args[0]) { AndExactStep(list, args, AllowList(args[0]).value); }
    }
  }

  lemma {:induction false} AndExactStep(list: seq<string>, args: seq<Expr>, part: seq<string>)
    requires args != [] && Recognised(args[0]) && AllowList(args[0]) == Some(part)
    requires forall s :: s in part <==> Names(args[0], s)
    ensures AndAllowList(Some(list), args).Some? <==> exists k | 0 <= k <= |args| :: Reach(list, args, k)
    ensures AndAllowList(Some(list), args).Some? ==> AndAllowList(Some(list), args).value == Chosen(list, args)
    decreases args[1..], 1
  {
    var both := Intersect(list, part);
    ChosenStep(list, part, args);
    if both == [] {
      StopsAtOnce(list, args, part);
    } else {
      AndExact(both, args[1..]);
      forall k | 0 <= k < |args| ensures Reach(both, args[1..], k) <==> Reach(list, args, k + 1) {
        ReachStep(list, part, args, k);
      }
      if k :| 0 <= k <= |args| && Reach(list, args, k) { assert Reach(both, args[1..], k - 1); }
    }
  }

  lemma StopsAtOnce(list: seq<string>, args: seq<Expr>, part: seq<string>)
    requires args != [] && Recognised(args[0]) && Intersect(list, part) == []
    requires forall s :: s in part <==> Names(args[0], s)
    ensures Reach(list, args, 1)
  {
    forall s | s in list ensures !NamedByAll(args[..1], s) {
      IntersectMember(list, part, s);
      assert args[..1][0] == args[0];
    }
  }

  lemma ReadToStep(part: seq<string>, args: seq<Expr>, k: nat)
    requires args != [] && Recognised(args[0]) && k < |args|
    requires forall s :: s in part <==> Names(args[0], s)
    ensures Reach(part, args[1..], k) <==>
            ReadTo(args, k + 1) && forall i | 0 <= i < k + 1 :: Recognised(args[i])
  {
    var front := args[..k + 1];
    PrefixCons(args, k);
    forall s ensures s in part && NamedByAll(args[1..][..k], s) <==> NamedByAll(front, s) {
      NamedByAllCons(front, s);
    }
    if Reach(part, args[1..], k) {
      forall i | 0 <= i < k + 1 ensures Recognised(args[i]) {
        if i > 0 { assert args[i] == args[1..][i - 1]; }
      }
      if k + 1 < |args| {
        forall s ensures !NamedByAll(front, s) { NamedByAllCons(front, s); }
      }
    }
    if ReadTo(args, k + 1) && forall i | 0 <= i < k + 1 :: Recognised(args[i]) {
      forall i | 0 <= i < k ensures Recognised(args[1..][i]) { assert args[i + 1] == args[1..][i]; }
      assert Reach(part, args[1..], k);
    }
  }

  /**
   For every filter: it gives a list iff it is recognised, the list holds exactly the strings it names,
   and a conjunction keeps the order of its first conjunct.
   */
  lemma {:induction false} AllowListExact(e: Expr)
    ensures AllowList(e).Some? <==> Recognised(e)
    ensures AllowList(e).Some? ==> forall s :: s in AllowList(e).value <==> Names(e, s)
    ensures AllowList(e).Some? && IsCall(e, "$and") ==> e.args != [] && AllowList(e.args[0]).Some?
    ensures AllowList(e).Some? && IsCall(e, "$and") ==>
              AllowList(e).value == Chosen(AllowList(e.args[0]).value, e.args)
    decreases e, 1
  {
    assert |"$and"| == 4 && |"$equal"| == 6 && |"$in"| == 3 && |"$between"| == 8;
    if IsCall(e, "$equal") {
      EqualExact(e);
    } else if IsCall(e, "$in") {
      InExact(e);
    } else if IsCall(e, "$between") {
      BetweenExact(e);
    } else if IsCall(e, "$and") && e.args != [] {
      AllowListExact(e.args[0]);
      if Recognised(e.args[0]) { ConjunctionExact(e, AllowList(e.args[0]).value); }
    }
  }

  lemma {:induction false} ConjunctionExact(e: Expr, part: seq<string>)
    requires IsCall(e, "$and") && e.args != [] && Recognised(e.args[0]) && AllowList(e.args[0]) == Some(part)
    requires forall s :: s in part <==> Names(e.args[0], s)
    ensures AllowList(e).Some? <==> Recognised(e)
    ensures AllowList(e).Some? ==> AllowList(e).value == Chosen(part, e.args)
    ensures AllowList(e).Some? ==> forall s :: s in AllowList(e).value <==> Names(e, s)
    decreases e, 0
  {
    var args := e.args;
    AndExact(part, args[1..]);
    ChosenOwn(part, args);
    forall k | 0 <= k < |args|
      ensures Reach(part, args[1..], k) <==> ReadTo(args, k + 1) && forall i | 0 <= i < k + 1 :: Recognised(args[i])
    {
      ReadToStep(part, args, k);
    }
    if Recognised(e) {
      var k :| 0 <= k <= |args| && ReadTo(args, k) && forall i | 0 <= i < k :: Recognised(args[i]);
      assert Reach(part, args[1..], k - 1);
    }
    forall s ensures s in Chosen(part, args) <==> Names(e, s) {
      ChosenMember(part, args, s);
      NamedByAllCons(args, s);
    }
  }

  // ----- Single comparisons, written out -----

  /** An IN over string literals gives exactly those strings, and one with any other element nothing. */
  lemma InGives(fn: string, elems: seq<Value>)
    requires Lower(fn) == "$in"
    ensures var e := Call(Some(fn), [SUFFIX, Literal(Arr(elems))]);
            AllowList(e).Some? <==> forall v | v in elems :: v.Str?
  {
    StringsOfIff(elems);
  }

  lemma InStrings(fn: string, ss: seq<string>)
    requires Lower(fn) == "$in"
    ensures var elems := seq(|ss|, i requires 0 <= i < |ss| => Str(ss[i]));
            AllowList(Call(Some(fn), [SUFFIX, Literal(Arr(elems))])) == Some(ss)
  {
    StringsOfAt(ss, seq(|ss|, i requires 0 <= i < |ss| => Str(ss[i])));
  }

  /** A comparison gives its literal from either side. */
  lemma EqualGives(fn: string, s: string)
    requires Lower(fn) == "$equal"
    ensures AllowList(Call(Some(fn), [SUFFIX, Text(s)])) == Some([s])
    ensures AllowList(Call(Some(fn), [Text(s), SUFFIX])) == Some([s])
  {
  }

  lemma BetweenGives(fn: string, lo: string, hi: string)
    requires Lower(fn) == "$between"
    ensures AllowList(Call(Some(fn), [SUFFIX, Text(lo), Text(hi)])) == Some([lo, hi])
  {
    assert |"$and"| == 4 && |"$equal"| == 6 && |"$in"| == 3 && |"$between"| == 8;
  }

  // ----- Tightness -----

  /** Without BETWEEN the list is the filter: a suffix is on it exactly when its rows are kept, whatever they hold. */
  lemma {:induction false} ListIsFilter(e: Expr, s: string, rest: Expr -> Value)
    requires BetweenFree(e) && AllowList(e).Some?
    ensures s in AllowList(e).value <==> Keeps(e, s, rest)
  {
    AllowListExact(e);
    if Keeps(e, s, rest) {
      BetweenFreeAtBounds(e, s);
      KeptSuffixListed(e, s, rest);
    }
    if Names(e, s) { NamedIsKept(e, s, rest); }
  }

  /** Rows of a suffix the filter names are kept. */
  lemma {:induction false} NamedIsKept(e: Expr, s: string, rest: Expr -> Value)
    requires BetweenFree(e) && Names(e, s)
    ensures Keeps(e, s, rest)
    decreases e, 1
  {
    assert |"$and"| == 4 && |"$equal"| == 6 && |"$in"| == 3 && |"$between"| == 8;
    if IsCall(e, "$and") {
      AllNamedIsKept(e.args, s, rest);
    } else if IsCall(e, "$in") {
      assert Eval(e.args[1], s, rest) == e.args[1].value && Eval(e.args[0], s, rest) == Str(s);
    } else {
      assert Eval(e.args[0], s, rest) == Str(s) && Eval(e.args[1], s, rest) == Str(s);
    }
  }

  lemma {:induction false} AllNamedIsKept(args: seq<Expr>, s: string, rest: Expr -> Value)
    requires AllBetweenFree(args) && NamedByAll(args, s)
    ensures EvalAnd(args, s, rest) == Bool(true)
    decreases args, 0
  {
    if args != [] {
      NamedByAllCons(args, s);
      NamedIsKept(args[0], s, rest);
      AllNamedIsKept(args[1..], s, rest);
    }
  }

  /** So a table is scanned needlessly only when the list is two ordered strings and its suffix lies between them. */
  lemma ScannedIff(e: Expr, s: string, rest: Expr -> Value)
    requires BetweenFree(e) && AllowList(e).Some?
    ensures var allow := AllowList(e).value;
            SuffixMatches(s, allow) <==>
            Keeps(e, s, rest) || (|allow| == 2 && Leq(allow[0], s) && Leq(s, allow[1]))
  {
    ListIsFilter(e, s, rest);
    var allow := AllowList(e).value;
    if |allow| == 2 {
      LeqReflexive(s);
      if Leq(allow[0], s) && Leq(s, allow[1]) { LeqTransitive(allow[0], s, allow[1]); }
    }
  }

  /** A lone BETWEEN scans what it keeps; with its bounds reversed it keeps nothing and scans the two bounds. */
  lemma BetweenScans(fn: string, lo: string, hi: string, s: string, rest: Expr -> Value)
    requires Lower(fn) == "$between"
    ensures var e := Call(Some(fn), [SUFFIX, Text(lo), Text(hi)]);
            && (Keeps(e, s, rest) <==> Leq(lo, s) && Leq(s, hi))
            && (SuffixMatches(s, [lo, hi]) <==> Keeps(e, s, rest) || (!Leq(lo, hi) && s in [lo, hi]))
  {
    var e := Call(Some(fn), [SUFFIX, Text(lo), Text(hi)]);
    assert |"$and"| == 4 && |"$equal"| == 6 && |"$in"| == 3 && |"$between"| == 8;
    assert Eval(e.args[0], s, rest) == Str(s) && Eval(e.args[1], s, rest) == Str(lo);
    assert Eval(e.args[2], s, rest) == Str(hi);
    if Leq(lo, s) && Leq(s, hi) { LeqTransitive(lo, s, hi); }
  }
}
