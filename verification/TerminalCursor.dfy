/** Where the cursor stands in the retained text, and what a resize of graphics/terminal.c does to that place. */
module TerminalCursor {
  import opened TerminalReflow
  import opened TerminalSpec

  /** The retained text before the cursor. */
  function BeforeCursor(s: Screen): seq<Token>
    requires Inv(s)
  {
    if s.current > s.last then Tokens(s)
    else TokensOf(s, s.first, s.current) + LineTokens(s.At(s.current))[..Min(s.column, s.At(s.current).length)]
  }

  /** The retained text from the cursor on. */
  function FromCursor(s: Screen): seq<Token>
    requires Inv(s)
  {
    if s.current > s.last then []
    else
      LineTokens(s.At(s.current))[Min(s.column, s.At(s.current).length)..] + TokensOf(s, s.current + 1, s.last + 1)
  }

  lemma {:induction false} TokensOfSplit(s: Screen, from: nat, mid: nat, end: nat)
    requires Inv(s) && from <= mid <= end
    ensures TokensOf(s, from, end) == TokensOf(s, from, mid) + TokensOf(s, mid, end)
    decreases end
  {
    if mid < end {
      TokensOfSplit(s, from, mid, end - 1);
    }
  }

  lemma CutIn<T>(front: seq<T>, line: seq<T>, back: seq<T>, n: nat)
    requires n <= |line|
    ensures front + (line + back) == (front + line[..n]) + (line[n..] + back)
  {
  }

  /** The cursor divides the text in two. */
  lemma CursorDivides(s: Screen)
    requires Inv(s)
    ensures Tokens(s) == BeforeCursor(s) + FromCursor(s)
  {
    if s.current <= s.last {
      var front, line, back :=
        TokensOf(s, s.first, s.current), LineTokens(s.At(s.current)), TokensOf(s, s.current + 1, s.last + 1);
      assert Tokens(s) == front + (line + back) by {
        TokensOfSplit(s, s.first, s.current, s.last + 1);
        TokensOfFirst(s, s.current, s.last + 1);
      }
      CutIn(front, line, back, Min(s.column, s.At(s.current).length));
    }
  }

  /** The lines from..to-1 hold neither characters nor line ends. */
  predicate Bare(s: Screen, from: nat, to: nat)
    requires s.Shape()
  {
    forall l :: from <= l < to ==> s.At(l).length == 0 && !s.At(l).hardBreak
  }

  /** No text lies under the cursor, behind it on its line, or on the lines below. */
  predicate NothingFollows(s: Screen)
    requires s.Shape()
  {
    || s.current > s.last
    || (s.column >= s.At(s.current).length && !s.At(s.current).hardBreak && Bare(s, s.current + 1, s.last + 1))
  }

  lemma {:induction false} BareIsEmpty(s: Screen, from: nat, to: nat)
    requires Inv(s)
    ensures TokensOf(s, from, to) == [] <==> Bare(s, from, to)
  {
    if from < to {
      BareIsEmpty(s, from, to - 1);
    }
  }

  lemma NothingFollowsMeans(s: Screen)
    requires Inv(s)
    ensures FromCursor(s) == [] <==> NothingFollows(s)
  {
    if s.current <= s.last {
      BareIsEmpty(s, s.current + 1, s.last + 1);
    }
  }

  lemma EndHasAllBefore(s: Screen)
    requires Inv(s) && AtEnd(s)
    ensures FromCursor(s) == [] && BeforeCursor(s) == Tokens(s)
  {
    NothingFollowsMeans(s);
    CursorDivides(s);
  }

  /** After a resize all the text lies before the cursor.  So the cursor keeps its place, with the same text
      from it on, exactly when nothing followed it; and when nothing is evicted, the text before it is the
      same exactly then. */
  lemma ResizeKeepsCursor(s: Screen, columns: nat, rows: nat, scrollback: nat)
    requires Inv(s) && columns > 0 && rows > 0 && scrollback > 0
    ensures var r := Resize(s, columns, rows, scrollback);
            && BeforeCursor(r) == Tokens(r) && FromCursor(r) == []
            && (FromCursor(r) == FromCursor(s) <==> NothingFollows(s))
            && (Tokens(r) == Tokens(s) ==> (BeforeCursor(r) == BeforeCursor(s) <==> NothingFollows(s)))
  {
    ResizeKeepsText(s, columns, rows, scrollback);
    EndHasAllBefore(Resize(s, columns, rows, scrollback));
    NothingFollowsMeans(s);
    CursorDivides(s);
  }

  // ----- A cursor that a resize moves -----

  /** A character and a carriage return. */
  function LetterReturn(s: Screen): (r: Screen)
    requires Inv(s)
    ensures Inv(r)
  {
    WriteBytes(s, ['a' as int, '\r' as int])
  }

  lemma LetterReturnIs(s: Screen)
    requires Inv(s) && s.parser.state == 0
    ensures LetterReturn(s) == Follow(PutCharacter(s, 'a' as int).(column := 0))
  {
    FeedOne(s, [], 'a' as int);
    FeedOne(s, ['a' as int], '\r' as int);
    assert [] + ['a' as int] == ['a' as int];
    assert ['a' as int] + ['\r' as int] == ['a' as int, '\r' as int];
  }

  lemma LetterReturnStands(s: Screen)
    requires Inv(s) && AtEnd(s) && s.column + 1 < s.columns && s.parser.state == 0
    ensures var r := LetterReturn(s); r.current == r.last && r.column == 0 && r.At(r.current).length > 0
  {
    LetterReturnIs(s);
  }

  /** Behind "a" and a carriage return the cursor stands before the "a"; any resize puts it behind. */
  lemma ResizeMovesCursor(columns: nat, rows: nat, scrollback: nat)
    requires columns > 1 && rows > 0 && scrollback > 0
    ensures var s := LetterReturn(Fresh(columns, rows, scrollback));
            var r := Resize(s, columns, rows, scrollback);
            && BeforeCursor(s) == [] && Tokens(s) != []
            && Tokens(r) == Tokens(s) && BeforeCursor(r) == Tokens(r)
  {
    var start := Fresh(columns, rows, scrollback);
    var s := LetterReturn(start);
    LetterReturnIs(start);
    LetterReturnStands(start);
    assert BeforeCursor(s) == LineTokens(s.At(0))[..0];
    CursorDivides(s);
    NothingFollowsMeans(s);
    ResizeKeepsCursor(s, columns, rows, scrollback);
    OneLetter(s);
    ResizeKeepsText(s, columns, rows, scrollback);
    assert Layout((0, 0), columns, []) == (0, 0);
  }

  lemma OneLetter(s: Screen)
    requires Inv(s) && s.first == s.last == 0 && s.At(0).length == 1 && !s.At(0).hardBreak
    ensures |Tokens(s)| == 1 && Tokens(s)[..0] == [] && Tokens(s)[0].Glyph?
  {
    assert TokensOf(s, 0, 0) == [];
    assert Tokens(s) == LineTokens(s.At(0));
  }
}
