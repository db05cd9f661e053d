/** Outcome types and byte-string helpers shared by the other modules. */
module Basics {

  datatype Option<+T> = None | Some(value: T)

  /** The absl status codes the modelled functions return. */
  datatype Code = InvalidArgument | NotFound | FailedPrecondition | Internal

  datatype Result<+T> = Ok(value: T) | Err(code: Code)

  /** What a loop that has produced `done` still owes, given the outcome of the remaining items. */
  function Prepend<T>(done: seq<T>, rest: Result<seq<T>>): Result<seq<T>> {
    match rest
    case Err(code) => Err(code)
    case Ok(items) => Ok(done + items)
  }

  lemma PrependStep<T>(done: seq<T>, item: T, rest: Result<seq<T>>)
    ensures Prepend(done, Prepend([item], rest)) == Prepend(done + [item], rest)
  {
    if rest.Ok? { assert done + ([item] + rest.value) == (done + [item]) + rest.value; }
  }

  lemma PrependNothing<T>(rest: Result<seq<T>>)
    ensures Prepend([], rest) == rest
  {
    if rest.Ok? { assert [] + rest.value == rest.value; }
  }

  function LowerChar(c: char): char {
    if 'A' <= c <= 'Z' then (c as int + 32) as char else c
  }

  /** ASCII lower-casing, one character at a time. */
  function Lower(s: string): string {
    seq(|s|, i requires 0 <= i < |s| => LowerChar(s[i]))
  }

  function UpperChar(c: char): char {
    if 'a' <= c <= 'z' then (c as int - 32) as char else c
  }

  function Upper(s: string): string {
    seq(|s|, i requires 0 <= i < |s| => UpperChar(s[i]))
  }

  predicate EqualsIgnoreCase(a: string, b: string) {
    Lower(a) == Lower(b)
  }

  predicate OccursAt(s: string, sub: string, i: nat) {
    i + |sub| <= |s| && s[i..i + |sub|] == sub
  }

  predicate Contains(s: string, sub: string) {
    exists i | 0 <= i <= |s| :: OccursAt(s, sub, i)
  }

  /** Byte-wise lexicographic order, the order of std::string's operator<=. */
  predicate Leq(a: string, b: string) {
    a == [] || (b != [] && (a[0] < b[0] || (a[0] == b[0] && Leq(a[1..], b[1..]))))
  }

  lemma {:induction false} LeqReflexive(a: string)
    ensures Leq(a, a)
  {
    if a != [] { LeqReflexive(a[1..]); }
  }

  lemma {:induction false} LeqTransitive(a: string, b: string, c: string)
    requires Leq(a, b) && Leq(b, c)
    ensures Leq(a, c)
  {
    if a != [] && a[0] == b[0] && b[0] == c[0] { LeqTransitive(a[1..], b[1..], c[1..]); }
  }

  lemma {:induction false} LeqAntisymmetric(a: string, b: string)
    requires Leq(a, b) && Leq(b, a)
    ensures a == b
  {
    if a != [] {
      LeqAntisymmetric(a[1..], b[1..]);
      assert a == [a[0]] + a[1..] && b == [b[0]] + b[1..];
    }
  }

  lemma {:induction false} LeqTotal(a: string, b: string)
    ensures Leq(a, b) || Leq(b, a)
  {
    if a != [] && b != [] && a[0] == b[0] { LeqTotal(a[1..], b[1..]); }
  }

  predicate Sorted(items: seq<string>) {
    forall i, j | 0 <= i < j < |items| :: Leq(items[i], items[j])
  }

  method InsertSorted(items: seq<string>, item: string) returns (r: seq<string>)
    requires Sorted(items)
    ensures Sorted(r) && multiset(r) == multiset(items) + multiset{item}
  {
    var i := 0;
    while i < |items| && Leq(items[i], item)
      invariant 0 <= i <= |items|
      invariant forall k | 0 <= k < i :: Leq(items[k], item)
    {
      i := i + 1;
    }
    InsertedSorted(items, item, i);
    assert items == items[..i] + items[i..];
    r := items[..i] + [item] + items[i..];
  }

  lemma InsertedSorted(items: seq<string>, item: string, i: nat)
    requires Sorted(items) && i <= |items| && (forall k | 0 <= k < i :: Leq(items[k], item))
    requires i < |items| ==> !Leq(items[i], item)
    ensures Sorted(items[..i] + [item] + items[i..])
  {
    var r := items[..i] + [item] + items[i..];
    forall k | i <= k < |items| ensures Leq(item, items[k]) {
      LeqTotal(items[i], item);
      if k > i { LeqTransitive(item, items[i], items[k]); }
    }
    forall x, y | 0 <= x < y < |r| ensures Leq(r[x], r[y]) {
      assert r[x] == if x < i then items[x] else if x == i then item else items[x - 1];
      assert r[y] == if y < i then items[y] else if y == i then item else items[y - 1];
    }
  }

  /** Where `c` first occurs, or the length. */
  function Position(s: string, c: char): (k: nat)
    ensures k <= |s| && (forall i | 0 <= i < k :: s[i] != c) && (k < |s| ==> s[k] == c)
  {
    if s == "" || s[0] == c then 0 else 1 + Position(s[1..], c)
  }

  /** A text is cut in one way at the first occurrence of a character. */
  lemma {:induction false} CutUnique(a: string, r: string, b: string, r': string, c: char)
    requires c !in a && c !in b && a + [c] + r == b + [c] + r'
    ensures a == b && r == r'
  {
    var s := a + [c] + r;
    assert s[|a|] == c && s[|b|] == c && s[|a| + 1..] == r && s[|b| + 1..] == r';
    assert forall i | 0 <= i < |a| :: s[i] == a[i];
    assert forall i | 0 <= i < |b| :: s[i] == b[i];
    assert s[..|a|] == a && s[..|b|] == b;
  }

  predicate IsDigit(c: char) {
    '0' <= c <= '9'
  }

  predicate AllDigits(s: string) {
    forall i | 0 <= i < |s| :: IsDigit(s[i])
  }

  function Pow10(n: nat): (p: nat)
    ensures p > 0
  {
    if n == 0 then 1 else 10 * Pow10(n - 1)
  }

  /** The number a digit string denotes; 0 for the empty string. */
  function DecimalValue(s: string): (n: nat)
    requires AllDigits(s)
  {
    if s == "" then 0 else DecimalValue(s[..|s| - 1]) * 10 + (s[|s| - 1] as int - '0' as int)
  }

  lemma {:induction false} DecimalBound(s: string)
    requires AllDigits(s)
    ensures DecimalValue(s) < Pow10(|s|)
  {
    if s != "" { DecimalBound(s[..|s| - 1]); }
  }

  /** The shortest decimal text of a number. */
  function Decimal(n: nat): (s: string)
    ensures s != "" && AllDigits(s)
  {
    var last := [(n % 10 + '0' as int) as char];
    if n < 10 then last else Decimal(n / 10) + last
  }

  lemma {:induction false} DecimalRoundTrip(n: nat)
    ensures DecimalValue(Decimal(n)) == n
  {
    var s := Decimal(n);
    if n >= 10 {
      DecimalRoundTrip(n / 10);
      assert s[..|s| - 1] == Decimal(n / 10);
    }
  }

  predicate IsInt64(n: int) {
    -0x8000_0000_0000_0000 <= n < 0x8000_0000_0000_0000
  }

  /** An optional sign and at least one digit, within 64 bits. */
  function ParseInt64(s: string): Option<int> {
    var signed := s != "" && (s[0] == '-' || s[0] == '+');
    var digits := if signed then s[1..] else s;
    if digits == "" || !AllDigits(digits) then None
    else
      var n: int := if signed && s[0] == '-' then -(DecimalValue(digits) as int) else DecimalValue(digits);
      if IsInt64(n) then Some(n) else None
  }

  lemma DigitsParse(s: string)
    requires s != "" && AllDigits(s) && IsInt64(DecimalValue(s))
    ensures ParseInt64(s) == Some(DecimalValue(s))
  {
  }

  lemma MinusParses(s: string, n: int)
    requires s != "" && AllDigits(s) && n == DecimalValue(s) && IsInt64(-n)
    ensures ParseInt64("-" + s) == Some(-n)
  {
    assert ("-" + s)[1..] == s;
  }

  lemma {:induction false} Pow10Add(m: nat, n: nat)
    ensures Pow10(m + n) == Pow10(m) * Pow10(n)
  {
    if m > 0 { Pow10Add(m - 1, n); }
  }

  lemma NextDigit(x: nat, p: nat, y: nat, d: nat)
    ensures (x * p + y) * 10 + d == x * (10 * p) + (y * 10 + d)
  {
  }

  lemma {:induction false} DecimalConcat(a: string, b: string)
    requires AllDigits(a) && AllDigits(b)
    ensures AllDigits(a + b) && DecimalValue(a + b) == DecimalValue(a) * Pow10(|b|) + DecimalValue(b)
  {
    if b == "" {
      assert a + b == a;
    } else {
      var b', last := b[..|b| - 1], b[|b| - 1] as int - '0' as int;
      assert (a + b)[..|a + b| - 1] == a + b' && (a + b)[|a + b| - 1] == b[|b| - 1];
      DecimalConcat(a, b');
      NextDigit(DecimalValue(a), Pow10(|b'|), DecimalValue(b'), last);
      assert DecimalValue(b) == DecimalValue(b') * 10 + last;
      assert DecimalValue(a + b) == DecimalValue(a + b') * 10 + last;
    }
  }
}
