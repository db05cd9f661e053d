/** Trimming of ASCII whitespace, as both hand-written parsers do it. */
module Whitespace {

  predicate IsSpace(c: char) {
    c in {' ', '\t', '\n', '\r', 11 as char, 12 as char}
  }

  predicate AllSpace(s: string) {
    forall i | 0 <= i < |s| :: IsSpace(s[i])
  }

  function TrimLeft(s: string): string {
    if s != "" && IsSpace(s[0]) then TrimLeft(s[1..]) else s
  }

  function TrimRight(s: string): string {
    if s != "" && IsSpace(s[|s| - 1]) then TrimRight(s[..|s| - 1]) else s
  }

  function Trim(s: string): string {
    TrimRight(TrimLeft(s))
  }

  method TrimSpaces(text: string) returns (s: string)
    ensures s == Trim(text)
  {
    s := text;
    while s != "" && IsSpace(s[0])
      invariant TrimLeft(s) == TrimLeft(text)
      decreases |s|
    {
      s := s[1..];
    }
    while s != "" && IsSpace(s[|s| - 1])
      invariant TrimRight(s) == Trim(text)
      decreases |s|
    {
      s := s[..|s| - 1];
    }
  }

  /** A text that neither starts nor ends in whitespace. */
  predicate Tight(s: string) {
    s != "" && !IsSpace(s[0]) && !IsSpace(s[|s| - 1])
  }

  lemma {:induction false} TrimLeftPadded(w: string, s: string)
    requires AllSpace(w) && (s == "" || !IsSpace(s[0]))
    ensures TrimLeft(w + s) == s
  {
    if w == "" {
      assert w + s == s;
    } else {
      assert (w + s)[1..] == w[1..] + s;
      TrimLeftPadded(w[1..], s);
    }
  }

  lemma {:induction false} TrimRightPadded(s: string, w: string)
    requires AllSpace(w) && (s == "" || !IsSpace(s[|s| - 1]))
    ensures TrimRight(s + w) == s
  {
    if w == "" {
      assert s + w == s;
    } else {
      assert (s + w)[..|s + w| - 1] == s + w[..|w| - 1];
      TrimRightPadded(s, w[..|w| - 1]);
    }
  }

  /** Trimming takes the padding off a tight text, and turns pure padding into nothing. */
  lemma TrimPadded(w: string, s: string, w': string)
    requires AllSpace(w) && AllSpace(w') && (s == "" || Tight(s))
    ensures Trim(w + s + w') == s
  {
    if s == "" {
      assert w + s + w' == (w + w') + "";
      TrimLeftPadded(w + w', "");
    } else {
      assert w + s + w' == w + (s + w');
      TrimLeftPadded(w, s + w');
      TrimRightPadded(s, w');
    }
  }

  lemma {:induction false} TrimShape(s: string) returns (w: string, w': string)
    ensures AllSpace(w) && AllSpace(w') && s == w + Trim(s) + w'
    ensures Trim(s) == "" || Tight(Trim(s))
  {
    var n := 0;
    while n < |s| && IsSpace(s[n])
      invariant 0 <= n <= |s| && AllSpace(s[..n])
    {
      n := n + 1;
    }
    var m := |s|;
    while m > n && IsSpace(s[m - 1])
      invariant n <= m <= |s| && AllSpace(s[m..])
      invariant n < |s| ==> !IsSpace(s[n])
    {
      m := m - 1;
    }
    w, w' := s[..n], s[m..];
    assert s == w + s[n..m] + w';
    TrimPadded(w, s[n..m], w');
  }
}
