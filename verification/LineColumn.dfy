/** Line/column and byte offsets of SQL diagnostics (backend/sqltools/sql_tools.cc). */
module LineColumn {
  import opened Basics

  /** One-based line and column. */
  datatype Pos = Pos(line: int, column: int)

  function Advance(p: Pos, c: char): Pos {
    if c == '\n' then Pos(p.line + 1, 1) else Pos(p.line, p.column + 1)
  }

  /** The position of byte offset `i`. */
  function PosAt(sql: string, i: nat): Pos
    requires i <= |sql|
  {
    if i == 0 then Pos(1, 1) else Advance(PosAt(sql, i - 1), sql[i - 1])
  }

  predicate Before(p: Pos, q: Pos) {
    p.line < q.line || (p.line == q.line && p.column < q.column)
  }

  /** Positions grow strictly with the offset, so no two offsets share one. */
  lemma {:induction false} PositionsIncrease(sql: string, i: nat, j: nat)
    requires i < j <= |sql|
    ensures Before(PosAt(sql, i), PosAt(sql, j))
    ensures PosAt(sql, i).line >= 1 && PosAt(sql, i).column >= 1
    decreases j
  {
    PositionPositive(sql, i);
    if i < j - 1 { PositionsIncrease(sql, i, j - 1); }
  }

  lemma {:induction false} PositionPositive(sql: string, i: nat)
    requires i <= |sql|
    ensures PosAt(sql, i).line >= 1 && PosAt(sql, i).column >= 1
  {
    if i > 0 { PositionPositive(sql, i - 1); }
  }

  /** The line counts the newlines before the offset, and the column the bytes after the last of them. */
  lemma {:induction false} PositionCounts(sql: string, i: nat)
    requires i <= |sql|
    ensures var p := PosAt(sql, i);
            && p.line == 1 + multiset(sql[..i])['\n']
            && 1 <= p.column <= i + 1
            && (forall k | i - p.column < k < i :: 0 <= k && sql[k] != '\n')
            && (p.column <= i ==> sql[i - p.column] == '\n')
  {
    if i > 0 {
      PositionCounts(sql, i - 1);
      assert sql[..i] == sql[..i - 1] + [sql[i - 1]];
    }
  }

  /** The offset of a position, and -1 exactly for the positions no offset has. */
  method ByteOffsetFromLineAndColumn(sql: string, line: int, column: int) returns (r: int)
    ensures r == -1 || 0 <= r <= |sql|
    ensures r >= 0 ==> PosAt(sql, r) == Pos(line, column)
    ensures r == -1 <==> forall i | 0 <= i <= |sql| :: PosAt(sql, i) != Pos(line, column)
  {
    if line <= 0 || column <= 0 {
      forall i | 0 <= i <= |sql| ensures PosAt(sql, i) != Pos(line, column) { PositionPositive(sql, i); }
      return -1;
    }
    var currentLine, currentColumn := 1, 1;
    var i := 0;
    while i < |sql|
      invariant 0 <= i <= |sql|
      invariant Pos(currentLine, currentColumn) == PosAt(sql, i)
      invariant forall k | 0 <= k < i :: PosAt(sql, k) != Pos(line, column)
    {
      if currentLine == line && currentColumn == column { return i; }
      if sql[i] == '\n' {
        currentLine, currentColumn := currentLine + 1, 1;
      } else {
        currentColumn := currentColumn + 1;
      }
      i := i + 1;
    }
    return if currentLine == line && currentColumn == column then |sql| else -1;
  }

  /** The offset scan undoes the position of every offset. */
  lemma OffsetUndoesPosition(sql: string, i: nat, r: nat)
    requires i <= |sql| && r <= |sql| && PosAt(sql, r) == PosAt(sql, i)
    ensures r == i
  {
    if r < i { PositionsIncrease(sql, r, i); }
    if i < r { PositionsIncrease(sql, i, r); }
  }

  datatype Token = Token(start: int, end: int)

  /** The zero-based byte range and end position, absent when the start position is no offset of the text. */
  datatype Range = Range(startByte: nat, endByte: int, end: Pos)

  predicate Covers(t: Token, at: int) {
    t.start <= at < t.end
  }

  /** End of the first token over the start byte, or one byte further. */
  function EndByte(tokens: seq<Token>, at: int): (e: int)
    ensures e > at
  {
    if tokens == [] then at + 1 else if Covers(tokens[0], at) then tokens[0].end else EndByte(tokens[1..], at)
  }

  /** It is the end of token `k` when that is the first over the byte, and one byte further when none is. */
  lemma {:induction false} EndByteIs(tokens: seq<Token>, at: int, k: nat)
    requires k <= |tokens| && (forall i | 0 <= i < k :: !Covers(tokens[i], at))
    requires k < |tokens| ==> Covers(tokens[k], at)
    ensures EndByte(tokens, at) == if k < |tokens| then tokens[k].end else at + 1
  {
    if k > 0 { EndByteIs(tokens[1..], at, k - 1); }
  }

  method DiagnosticRange(sql: string, line: int, column: int, tokens: seq<Token>) returns (r: Option<Range>)
    ensures r.None? <==> sql == "" || forall i | 0 <= i <= |sql| :: PosAt(sql, i) != Pos(line, column)
    ensures r.Some? ==>
              && r.value.startByte <= |sql| && PosAt(sql, r.value.startByte) == Pos(line, column)
              && r.value.endByte == EndByte(tokens, r.value.startByte)
              && r.value.end == PosAt(sql, if r.value.endByte <= |sql| then r.value.endByte else |sql|)
  {
    if sql == "" { return None; }
    var start := ByteOffsetFromLineAndColumn(sql, line, column);
    if start < 0 { return None; }
    var endByte := start + 1;
    var t := 0;
    assert tokens[0..] == tokens;
    while t < |tokens|
      invariant 0 <= t <= |tokens| && endByte == start + 1
      invariant EndByte(tokens[t..], start) == EndByte(tokens, start)
    {
      if Covers(tokens[t], start) { endByte := tokens[t].end; break; }
      assert tokens[t..][1..] == tokens[t + 1..];
      t := t + 1;
    }
    assert endByte == EndByte(tokens, start);
    var endLine, endColumn := line, column;
    var i := start;
    while i < endByte && i < |sql|
      invariant start <= i <= |sql| && i <= endByte
      invariant Pos(endLine, endColumn) == PosAt(sql, i)
    {
      if sql[i] == '\n' {
        endLine, endColumn := endLine + 1, 1;
      } else {
        endColumn := endColumn + 1;
      }
      i := i + 1;
    }
    r := Some(Range(start, endByte, Pos(endLine, endColumn)));
  }

  /** With tokens inside the text, the end byte leaves the text exactly when the diagnostic starts at its end. */
  lemma {:induction false} EndByteInsideIff(sql: string, tokens: seq<Token>, at: nat)
    requires at <= |sql| && forall i | 0 <= i < |tokens| :: tokens[i].end <= |sql|
    ensures EndByte(tokens, at) <= |sql| <==> at < |sql|
  {
    if tokens != [] { EndByteInsideIff(sql, tokens[1..], at); }
  }
}
