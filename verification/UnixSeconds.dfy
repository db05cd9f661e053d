/** BigQuery's `<seconds>.<fraction>` timestamps as exact instants (conformance/runner/diff_scalars.go). */
module UnixSeconds {
  import opened Basics

  const NANOS := 1_000_000_000

  function Zeros(n: nat): string {
    seq(n, _ => '0')
  }

  /** The fraction cut or padded to nine digits. */
  function NineDigits(frac: string): (nine: string)
    ensures |nine| == 9 && (AllDigits(frac) ==> AllDigits(nine))
  {
    if |frac| >= 9 then frac[..9] else frac + Zeros(9 - |frac|)
  }

  /** Seconds and fraction as one instant in nanoseconds. */
  function InstantOf(secs: string, frac: string): Option<int> {
    Combine(ParseInt64(secs), ParseInt64(NineDigits(frac)))
  }

  function Combine(sec: Option<int>, nsec: Option<int>): Option<int> {
    if sec.None? || nsec.None? then None else Some(sec.value * NANOS + nsec.value)
  }

  /** The instant of a dotted text, cut at its first dot. */
  function Instant(s: string): Option<int> {
    var k := Position(s, '.');
    if k == |s| then None else InstantOf(s[..k], s[k + 1..])
  }

  method ParseUnixSecondsString(s: string) returns (r: Option<int>)
    ensures r == Instant(s)
  {
    var k := 0;
    while k < |s| && s[k] != '.'
      invariant 0 <= k <= |s|
      invariant forall i | 0 <= i < k :: s[i] != '.'
    {
      k := k + 1;
    }
    assert k == Position(s, '.');
    if k == |s| { return None; }
    r := ParseParts(s[..k], s[k + 1..]);
  }

  method ParseParts(before: string, after: string) returns (r: Option<int>)
    ensures r == InstantOf(before, after)
  {
    var sec := ParseInt64(before);
    if sec.None? { return None; }
    var frac := FitNine(after);
    var nsec := ParseInt64(frac);
    if nsec.None? { return None; }
    r := Some(sec.value * NANOS + nsec.value);
  }

  method FitNine(fraction: string) returns (frac: string)
    ensures frac == NineDigits(fraction)
  {
    frac := fraction;
    if |frac| > 9 { frac := frac[..9]; }
    ghost var start := frac;
    assert frac + Zeros(0) == frac;
    while |frac| < 9
      invariant |start| <= |frac| <= 9
      invariant frac == start + Zeros(|frac| - |start|)
    {
      frac := frac + "0";
    }
  }

  lemma {:induction false} ZerosValue(n: nat)
    ensures DecimalValue(Zeros(n)) == 0
  {
    if n > 0 {
      ZerosValue(n - 1);
      assert Zeros(n)[..n - 1] == Zeros(n - 1);
    }
  }

  lemma NanosIsPow()
    ensures Pow10(9) == NANOS
  {
    assert Pow10(3) == 1000;
    Pow10Add(3, 3);
    Pow10Add(6, 3);
  }

  /** `q` is `n` parts in `p` of a second in whole nanoseconds, rounded down. */
  predicate IsFloor(q: int, n: nat, p: nat) {
    q * p <= n * NANOS < q * p + p
  }

  /** Cutting digits: the leading part of a longer fraction. */
  lemma Cut(kept: nat, rest: nat, p: nat, all: nat, q: nat)
    requires rest < p && all == kept * p + rest && q == NANOS * p
    ensures IsFloor(kept, all, q)
  {
    assert kept * q == (kept * p) * NANOS;
    assert all * NANOS == (kept * p) * NANOS + rest * NANOS;
  }

  /** Padding digits: a shorter fraction is exact. */
  lemma Padded(v: nat, pad: nat, p: nat, padded: nat)
    requires pad * p == NANOS && p > 0 && padded == v * pad
    ensures IsFloor(padded, v, p)
  {
    assert padded * p == v * (pad * p);
  }

  /** Whole seconds pass through. */
  lemma WholeSeconds(sec: nat, frac: nat, p: nat, kept: nat, all: nat, q: int)
    requires IsFloor(kept, frac, p) && all == sec * p + frac && q == sec * NANOS + kept
    ensures IsFloor(q, all, p)
  {
    assert q * p == (sec * p) * NANOS + kept * p;
    assert all * NANOS == (sec * p) * NANOS + frac * NANOS;
  }

  lemma LongFloor(frac: string, nine: string)
    requires |frac| >= 9 && AllDigits(frac) && nine == frac[..9]
    ensures AllDigits(nine) && IsFloor(DecimalValue(nine), DecimalValue(frac), Pow10(|frac|))
  {
    var rest := frac[9..];
    assert frac == nine + rest;
    NanosIsPow();
    DecimalConcat(nine, rest);
    DecimalBound(rest);
    Pow10Add(9, |rest|);
    Cut(DecimalValue(nine), DecimalValue(rest), Pow10(|rest|), DecimalValue(frac), Pow10(|frac|));
  }

  lemma ShortFloor(frac: string, pad: nat, padded: string)
    requires |frac| + pad == 9 && AllDigits(frac) && padded == frac + Zeros(pad)
    ensures AllDigits(padded) && IsFloor(DecimalValue(padded), DecimalValue(frac), Pow10(|frac|))
  {
    ZerosValue(pad);
    DecimalConcat(frac, Zeros(pad));
    NanosIsPow();
    Pow10Add(pad, |frac|);
    Padded(DecimalValue(frac), Pow10(pad), Pow10(|frac|), DecimalValue(padded));
  }

  /** The nine digits kept are the fraction in nanoseconds, rounded down. */
  lemma NineDigitsFloor(frac: string, nine: string)
    requires AllDigits(frac) && nine == NineDigits(frac)
    ensures AllDigits(nine) && IsFloor(DecimalValue(nine), DecimalValue(frac), Pow10(|frac|))
  {
    if |frac| >= 9 { LongFloor(frac, nine); } else { ShortFloor(frac, 9 - |frac|, nine); }
  }

  /**
   For digits before and after the dot, with the seconds in range, the instant is the exact decimal value
   rounded down to a nanosecond, however long the fraction.
   */
  lemma NonNegativeIsFloor(secs: string, frac: string)
    requires secs != "" && AllDigits(secs) && AllDigits(frac) && IsInt64(DecimalValue(secs))
    ensures AllDigits(secs + frac)
    ensures var r := Instant(secs + "." + frac);
            r.Some? && IsFloor(r.value, DecimalValue(secs + frac), Pow10(|frac|))
  {
    DigitsHaveNoDot(secs);
    DottedText(secs, frac);
    var q := UnsignedParts(secs, frac);
    PartsFloor(secs, frac, NineDigits(frac), q);
  }

  lemma UnsignedParts(secs: string, frac: string) returns (q: int)
    requires secs != "" && AllDigits(secs) && AllDigits(frac) && IsInt64(DecimalValue(secs))
    ensures InstantOf(secs, frac) == Some(q) && q == DecimalValue(secs) * NANOS + DecimalValue(NineDigits(frac))
  {
    DigitsParse(secs);
    NanosParse(frac);
    InstantIs(secs, frac, DecimalValue(secs), DecimalValue(NineDigits(frac)));
    q := DecimalValue(secs) * NANOS + DecimalValue(NineDigits(frac));
  }

  lemma DigitsHaveNoDot(secs: string)
    requires AllDigits(secs)
    ensures '.' !in secs && '.' !in "-" + secs
  {
  }

  lemma PartsFloor(secs: string, frac: string, nine: string, q: int)
    requires AllDigits(secs) && AllDigits(frac) && AllDigits(nine) && nine == NineDigits(frac)
    requires q == DecimalValue(secs) * NANOS + DecimalValue(nine)
    ensures AllDigits(secs + frac) && IsFloor(q, DecimalValue(secs + frac), Pow10(|frac|))
  {
    DecimalConcat(secs, frac);
    NineDigitsFloor(frac, nine);
    WholeSeconds(DecimalValue(secs), DecimalValue(frac), Pow10(|frac|), DecimalValue(nine),
                 DecimalValue(secs + frac), q);
  }

  /** Every dotted text is read as what stands around its first dot. */
  lemma DottedText(secs: string, frac: string)
    requires '.' !in secs
    ensures Instant(secs + "." + frac) == InstantOf(secs, frac)
  {
    var s := secs + "." + frac;
    assert s[|secs|] == '.' && forall i | 0 <= i < |secs| :: s[i] == secs[i];
    assert Position(s, '.') == |secs|;
    assert s[..|secs|] == secs && s[|secs| + 1..] == frac;
  }

  /**
   A minus sign reaches the seconds only: the fraction is still added, so the instant is the negation of
   the unsigned one exactly when the nine digits kept are all zero.
   */
  lemma NegativeFractionIff(secs: string, frac: string)
    requires secs != "" && AllDigits(secs) && AllDigits(frac) && IsInt64(DecimalValue(secs))
    ensures var minus, plain := Instant("-" + secs + "." + frac), Instant(secs + "." + frac);
            minus.Some? && plain.Some? && (minus.value == -plain.value <==> DecimalValue(NineDigits(frac)) == 0)
  {
    DigitsHaveNoDot(secs);
    DottedText(secs, frac);
    DottedText("-" + secs, frac);
    NanosParse(frac);
    SignReachesSeconds(secs, DecimalValue(secs), frac, DecimalValue(NineDigits(frac)));
  }

  lemma SignReachesSeconds(secs: string, s: int, frac: string, n: int)
    requires secs != "" && AllDigits(secs) && s == DecimalValue(secs) && IsInt64(s)
    requires ParseInt64(NineDigits(frac)) == Some(n)
    ensures InstantOf("-" + secs, frac).Some? && InstantOf(secs, frac).Some?
    ensures InstantOf("-" + secs, frac).value == -InstantOf(secs, frac).value <==> n == 0
  {
    DigitsParse(secs);
    InstantIs(secs, frac, s, n);
    MinusInstant(secs, s, frac, n);
  }

  lemma NanosParse(frac: string)
    requires AllDigits(frac)
    ensures ParseInt64(NineDigits(frac)) == Some(DecimalValue(NineDigits(frac)))
  {
    NineParses(NineDigits(frac));
  }

  /** The seconds take the sign, the nanoseconds never do. */
  lemma MinusInstant(secs: string, s: int, frac: string, n: int)
    requires secs != "" && AllDigits(secs) && s == DecimalValue(secs) && IsInt64(-s)
    requires ParseInt64(NineDigits(frac)) == Some(n)
    ensures InstantOf("-" + secs, frac) == Some(-s * NANOS + n)
  {
    MinusParses(secs, s);
    InstantIs("-" + secs, frac, -s, n);
  }

  lemma InstantIs(secs: string, frac: string, s: int, n: int)
    requires ParseInt64(secs) == Some(s) && ParseInt64(NineDigits(frac)) == Some(n)
    ensures InstantOf(secs, frac) == Some(s * NANOS + n)
  {
  }

  lemma NineParses(nine: string)
    requires |nine| == 9 && AllDigits(nine)
    ensures ParseInt64(nine) == Some(DecimalValue(nine))
  {
    NanosIsPow();
    DecimalBound(nine);
    DigitsParse(nine);
  }
}
