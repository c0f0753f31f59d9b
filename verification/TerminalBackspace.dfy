/** What a backspace behind the end of the retained text takes from it, and when it undoes what was written. */
module TerminalBackspace {
  import opened TerminalReflow
  import opened TerminalSpec

  // ----- One line -----

  /** A line without its last cell; cells that were never written just before it go with it. */
  function Shortened(line: Line): (r: Line)
    requires 0 < line.length <= |line.cells|
    ensures r.length < line.length && |r.cells| == |line.cells| && r.hardBreak == line.hardBreak
    ensures forall c :: 0 <= c < r.length ==> r.cells[c] == line.cells[c]
    ensures r.length == line.length - 1 <==> line.length == 1 || line.cells[line.length - 2].character != NUL
  {
    var cells := line.cells[line.length - 1 := BLANK];
    assert line.length > 1 ==> cells[line.length - 2] == line.cells[line.length - 2];
    TrimLine(line.(cells := cells))
  }

  function ErasedCells(line: Line): (n: nat)
    requires line.length <= |line.cells|
    ensures n <= line.length && (line.length > 0 ==> n > 0)
  {
    if line.length == 0 then 0 else line.length - Shortened(line).length
  }

  /** A line whose end is taken over by the cursor of a backspace: soft, and without its last cell. */
  function Reopened(line: Line): (r: Line)
    requires line.length <= |line.cells|
    ensures r.length <= |r.cells|
  {
    var soft := line.(hardBreak := false);
    if line.length > 0 then Shortened(soft) else soft
  }

  lemma ReopenedTokens(line: Line)
    requires line.length <= |line.cells|
    ensures LineTokens(Reopened(line)) == LineTokens(line)[..line.length - ErasedCells(line)]
    ensures |LineTokens(line)| == line.length + if line.hardBreak then 1 else 0
  {
  }

  // ----- The screen after a backspace -----

  /** `r` is `s` up to line `n`, which is now `line` and the last. */
  ghost predicate EndsWith(s: Screen, r: Screen, n: nat, line: Line) {
    && Inv(s) && Inv(r) && s.capacity == r.capacity
    && s.first == r.first <= n == r.last && n <= s.last
    && (forall l :: s.first <= l < n ==> r.At(l) == s.At(l)) && r.At(n) == line
  }

  /** `r` ends with line `n` of `s` reopened. */
  ghost predicate ReopensAt(s: Screen, r: Screen, n: nat)
    requires Inv(s)
  {
    EndsWith(s, r, n, Reopened(s.At(n)))
  }

  lemma ReopensTokens(s: Screen, r: Screen, n: nat)
    requires Inv(s) && Inv(r) && ReopensAt(s, r, n)
    ensures Tokens(r) == TokensOf(s, s.first, n) + LineTokens(Reopened(s.At(n)))
  {
    TokensOfSame(s, r, s.first, n);
  }

  /** Inside the last line. */
  lemma ErasesCell(s: Screen)
    requires Inv(s) && AtEnd(s) && s.column > 0
    ensures ReopensAt(s, Backspace(s), s.last)
  {
    var line := s.At(s.last);
    assert line.(hardBreak := false) == line;
    forall l | s.first <= l <= s.last
      ensures Backspace(s).At(l) == if l == s.last then Reopened(line) else s.At(l)
    {
      SetLineAt(s, s.last, Reopened(line), l);
    }
  }

  /** The lines after stepping back over the start of an empty last line. */
  lemma JoinedLines(s: Screen, l: nat)
    requires Inv(s) && s.column == 0 && s.current == s.last > s.first && s.first <= l < s.last
    ensures var j := JoinPrevious(s);
            && j.current == j.last == s.last - 1 && j.column == s.At(s.last - 1).length
            && j.At(l) == if l == s.last - 1 then s.At(l).(hardBreak := false) else s.At(l)
  {
    var left := LeaveLine(s);
    SetLineAt(s, s.last, BlankLine(s.columns), l);
    SetLineAt(s, s.last, BlankLine(s.columns), s.last - 1);
    SetLineAt(left, s.last - 1, s.At(s.last - 1).(hardBreak := false), l);
  }

  /** Erasing in a line that is the last keeps the others. */
  lemma ErasedLines(j: Screen, l: nat)
    requires Core(j.(column := 0)) && 0 < j.column == j.At(j.current).length <= j.columns
    requires !j.At(j.current).hardBreak && j.first <= l <= j.current == j.last
    ensures EraseAndFollow(j).At(l) == if l == j.current then Shortened(j.At(l)) else j.At(l)
  {
    SetLineAt(j.(column := 0), j.current, Shortened(j.At(j.current)), l);
    assert EraseLeft(j).lines == j.SetLine(j.current, Shortened(j.At(j.current))).lines;
  }

  /** Over a line start. */
  lemma JoinsLine(s: Screen)
    requires Inv(s) && AtEnd(s) && s.column == 0 && s.last > s.first
    ensures ReopensAt(s, Backspace(s), s.last - 1)
  {
    var j := JoinPrevious(s);
    JoinedLines(s, s.last - 1);
    forall l | s.first <= l < s.last
      ensures Backspace(s).At(l) == if l == s.last - 1 then Reopened(s.At(l)) else s.At(l)
    {
      JoinedLines(s, l);
      if j.column > 0 {
        ErasedLines(j, l);
      }
    }
  }

  // ----- The text after a backspace -----

  /** How many tokens a backspace takes: the last cell of the cursor's line, with the cells never written just
      before it; at the start of a line the break before it, if any, and the last cell of the line above. */
  function Taken(s: Screen): nat
    requires Inv(s)
  {
    if s.column > 0 then ErasedCells(s.At(s.last))
    else if s.last == s.first then 0
    else (if s.At(s.last - 1).hardBreak then 1 else 0) + ErasedCells(s.At(s.last - 1))
  }

  lemma Front<T>(a: seq<T>, b: seq<T>, k: nat)
    requires k <= |b|
    ensures a + b[..|b| - k] == (a + b)[..|a + b| - k]
  {
  }

  /** `part` is `whole` without its last elements. */
  predicate Cut<T(==)>(part: seq<T>, whole: seq<T>, taken: nat) {
    taken <= |whole| && part == whole[..|whole| - taken]
  }

  lemma CutBy(part: seq<Token>, whole: seq<Token>, before: seq<Token>, line: Line, taken: nat)
    requires line.length <= |line.cells| && taken == (if line.hardBreak then 1 else 0) + ErasedCells(line)
    requires part == before + LineTokens(Reopened(line)) && whole == before + LineTokens(line)
    ensures Cut(part, whole, taken)
  {
    ReopenedTokens(line);
    Front(before, LineTokens(line), taken);
  }

  lemma LastLineEmpty(s: Screen)
    requires Inv(s) && AtEnd(s) && s.column == 0 && s.last > s.first
    ensures Tokens(s) == TokensOf(s, s.first, s.last - 1) + LineTokens(s.At(s.last - 1))
  {
    TwoLast(s, s.first, s.last - 1);
    assert LineTokens(s.At(s.last)) == [];
  }

  lemma TakesCell(s: Screen)
    requires Inv(s) && AtEnd(s) && s.column > 0
    ensures Cut(Tokens(Backspace(s)), Tokens(s), Taken(s))
  {
    ErasesCell(s);
    ReopensTokens(s, Backspace(s), s.last);
    CutBy(Tokens(Backspace(s)), Tokens(s), TokensOf(s, s.first, s.last), s.At(s.last), Taken(s));
  }

  lemma TakenAbove(s: Screen, line: Line)
    requires Inv(s) && s.column == 0 && s.last > s.first && line == s.At(s.last - 1)
    ensures line.length <= |line.cells| && Taken(s) == (if line.hardBreak then 1 else 0) + ErasedCells(line)
  {
  }

  lemma TakesBreak(s: Screen)
    requires Inv(s) && AtEnd(s) && s.column == 0 && s.last > s.first
    ensures Cut(Tokens(Backspace(s)), Tokens(s), Taken(s))
  {
    var line := s.At(s.last - 1);
    JoinsLine(s);
    ReopensTokens(s, Backspace(s), s.last - 1);
    TakenAbove(s, line);
    LastLineEmpty(s);
    CutBy(Tokens(Backspace(s)), Tokens(s), TokensOf(s, s.first, s.last - 1), line, Taken(s));
  }

  /** Behind the end of the text a backspace takes its last tokens and leaves every other. */
  lemma BackspaceTakes(s: Screen)
    requires Inv(s) && AtEnd(s)
    ensures Cut(Tokens(Backspace(s)), Tokens(s), Taken(s))
  {
    if s.column > 0 {
      TakesCell(s);
    } else if s.last > s.first {
      TakesBreak(s);
    }
  }

  // ----- Undoing what was written -----

  /** Writing the token starts a line for which a full ring gives up its oldest. */
  predicate Turns(s: Screen, t: Token) {
    Advance((s.last, s.column), s.columns, t).0 >= s.first + s.capacity
  }

  /** The cell before the cursor was never written, only skipped. */
  predicate AfterGap(s: Screen)
    requires s.Shape()
  {
    0 < s.column <= |s.At(s.last).cells| && s.At(s.last).cells[s.column - 1].character == NUL
  }

  /** The line a glyph is written in, whether or not the cursor leaves it. */
  lemma WrittenLine(s: Screen, cell: Cell)
    requires Inv(s) && AtEnd(s) && NoEmptyLines(s) && cell.character != NUL
    ensures var line, was := FeedToken(s, Glyph(cell)).At(s.last), s.At(s.last);
            && line.length == s.column + 1 <= |line.cells| && !line.hardBreak
            && (forall c :: 0 <= c < s.column ==> line.cells[c] == was.cells[c])
  {
    var penned := s.(pen := PenOf(cell));
    PenLosesNothing(s, PenOf(cell), s);
    var inked := Ink(penned, cell.character);
    InkTokens(penned, cell.character);
    SetLineAt(penned, s.last, inked.At(s.last), s.last);
    if s.column + 1 >= s.columns {
      AppendClosesLine(inked, false);
    }
  }

  /** A backspace takes exactly one token from behind a glyph unless a gap lies before it. */
  lemma TakenAfterGlyph(s: Screen, cell: Cell)
    requires Inv(s) && AtEnd(s) && NoEmptyLines(s) && cell.character != NUL
    ensures var r := FeedToken(s, Glyph(cell));
            Inv(r) && Taken(r) >= 1 && (Taken(r) == 1 <==> !AfterGap(s))
  {
    WrittenLine(s, cell);
    FeedTokenAppends(s, Glyph(cell));
  }

  lemma TakenAfterBreak(s: Screen)
    requires Inv(s) && AtEnd(s) && NoEmptyLines(s)
    ensures var r := FeedToken(s, Break);
            Inv(r) && Taken(r) >= 1 && (Taken(r) == 1 <==> s.column == 0)
  {
    AppendClosesLine(s, true);
  }

  /** Behind the end of the text, a character or line end followed by a backspace gives the old text back exactly
      when no old line left a full ring, when a line end is written at the start of a line, since the backspace
      also erases the character before it, and when a character is not written behind a gap. */
  lemma BackspaceUndoes(s: Screen, t: Token)
    requires Inv(s) && AtEnd(s) && NoEmptyLines(s) && Printable(t)
    ensures Tokens(Backspace(FeedToken(s, t))) == Tokens(s)
       <==> !Turns(s, t) && if t.Break? then s.column == 0 else !AfterGap(s)
  {
    var r := FeedToken(s, t);
    FeedTokenAppends(s, t);
    BackspaceTakes(r);
    match t {
      case Break => TakenAfterBreak(s);
      case Glyph(cell) => TakenAfterGlyph(s, cell);
    }
    Undone(Tokens(s), t, Lost(s, r), Tokens(r), Tokens(Backspace(r)), Taken(r));
  }

  lemma Undone(before: seq<Token>, t: Token, lost: seq<Token>, after: seq<Token>, part: seq<Token>, taken: nat)
    requires lost + after == before + [t] && Cut(part, after, taken) && taken >= 1
    ensures part == before <==> lost == [] && taken == 1
  {
    assert |lost| + |after| == |before| + 1;
    if lost == [] {
      assert after == before + [t];
    }
  }

  /** The same of two bytes written to the terminal. */
  lemma BackspaceByteUndoes(s: Screen, b: Byte)
    requires Inv(s) && AtEnd(s) && NoEmptyLines(s) && s.parser.state == 0 && Plain(b)
    ensures Tokens(Feed(s, [b, 8])) == Tokens(s)
       <==> !Turns(s, ByteToken(s.pen, b)) && if b == '\n' as int then s.column == 0 else !AfterGap(s)
  {
    PlainByteIsToken(s, b);
    FedTwo(s, b, 8);
    BackspaceUndoes(s, ByteToken(s.pen, b));
  }

  lemma FedTwo(s: Screen, a: Byte, b: Byte)
    requires Inv(s)
    ensures Feed(s, [a, b]) == FeedByte(FeedByte(s, a), b)
  {
    assert [a, b][..1] == [a] && [a][..0] == [];
    assert Feed(s, [a]) == FeedByte(Feed(s, []), a);
  }
}
