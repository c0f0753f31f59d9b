/** What a terminal retains, read as a stream of coloured glyphs and hard line breaks,
    and what writing and resizing do to that stream. */
module TerminalReflow {
  import opened TerminalSpec

  datatype Token = Glyph(cell: Cell) | Break

  /** Resizing writes an untouched cell as a space in the cell's own (zero) attributes. */
  function Visible(cell: Cell): (r: Cell)
    ensures r.character != NUL
  {
    if cell.character == NUL then cell.(character := SPACE) else cell
  }

  function LineTokens(line: Line): seq<Token>
    requires line.length <= |line.cells|
  {
    seq(line.length, c requires 0 <= c < |line.cells| => Glyph(Visible(line.cells[c])))
    + if line.hardBreak then [Break] else []
  }

  function TokensOfLines(lines: seq<Line>): seq<Token>
    requires forall l :: l in lines ==> l.length <= |l.cells|
  {
    if lines == [] then [] else TokensOfLines(lines[..|lines| - 1]) + LineTokens(lines[|lines| - 1])
  }

  lemma TokensOfLinesStep(lines: seq<Line>, line: Line)
    requires forall l :: l in lines + [line] ==> l.length <= |l.cells|
    ensures forall l :: l in lines ==> l.length <= |l.cells|
    ensures TokensOfLines(lines + [line]) == TokensOfLines(lines) + LineTokens(line)
  {
    assert (lines + [line])[..|lines + [line]| - 1] == lines;
    assert forall l :: l in lines ==> l in lines + [line];
  }

  /** Tokens of the lines from..to-1. */
  function TokensOf(s: Screen, from: nat, to: nat): seq<Token>
    requires Inv(s)
  {
    if from >= to then [] else TokensOf(s, from, to - 1) + LineTokens(s.At(to - 1))
  }

  /** The retained text: every line of the ring, oldest first. */
  function Tokens(s: Screen): seq<Token>
    requires Inv(s)
  {
    TokensOf(s, s.first, s.last + 1)
  }

  predicate Printable(t: Token) {
    t.Glyph? ==> t.cell.character != NUL
  }

  function PenOf(cell: Cell): Pen {
    Pen(cell.foreground, cell.background, cell.reverse)
  }

  /** One step of the reflow loop. */
  function FeedToken(s: Screen, t: Token): (r: Screen)
    requires Inv(s) && Printable(t)
    ensures Inv(r) && SameShape(s, r) && r.parser == s.parser
  {
    match t
    case Break => AppendLine(s, true)
    case Glyph(cell) => PutCharacter(s.(pen := PenOf(cell)), cell.character)
  }

  function FeedTokens(s: Screen, ts: seq<Token>): (r: Screen)
    requires Inv(s) && forall t :: t in ts ==> Printable(t)
    ensures Inv(r) && SameShape(s, r) && r.parser == s.parser
  {
    if ts == [] then s
    else FeedToken(FeedTokens(s, ts[..|ts| - 1]), ts[|ts| - 1])
  }

  ghost predicate AllPrintable(ts: seq<Token>) {
    forall t :: t in ts ==> Printable(t)
  }

  /** `r` is what pouring `ts` into `s` gives. */
  ghost predicate Poured(s: Screen, ts: seq<Token>, r: Screen) {
    Inv(s) && AllPrintable(ts) && r == FeedTokens(s, ts)
  }

  lemma PourOne(s: Screen, ts: seq<Token>, r: Screen, t: Token)
    requires Poured(s, ts, r) && Printable(t)
    ensures Inv(r) && Poured(s, ts + [t], FeedToken(r, t))
  {
    assert (ts + [t])[..|ts + [t]| - 1] == ts;
  }

  lemma LineTokensStep(ts: seq<Token>, line: Line, c: nat)
    requires c < line.length <= |line.cells|
    ensures ts + LineTokens(line)[..c + 1] == ts + LineTokens(line)[..c] + [Glyph(Visible(line.cells[c]))]
  {
  }

  lemma LineTokensEnds(ts: seq<Token>, line: Line)
    requires line.length <= |line.cells|
    ensures ts + LineTokens(line)[..0] == ts
    ensures ts + LineTokens(line)
         == if line.hardBreak then ts + LineTokens(line)[..line.length] + [Break]
            else ts + LineTokens(line)[..line.length]
  {
    assert LineTokens(line) == LineTokens(line)[..line.length] + if line.hardBreak then [Break] else [];
  }

  // ----- The ring -----

  lemma SlotsDiffer(a: nat, b: nat, capacity: nat)
    requires a < b < a + capacity
    ensures a % capacity != b % capacity
  {
    if a % capacity == b % capacity {
      var q := b / capacity - a / capacity;
      assert b - a == capacity * (b / capacity) - capacity * (a / capacity);
      Multiples(capacity, q);
    }
  }

  /** A multiple of a number below it is none but 0. */
  lemma Multiples(n: int, q: int)
    requires n >= 0
    ensures q >= 1 ==> n * q >= n
    ensures q <= -1 ==> n * q <= -n
  {
    if q >= 1 {
      assert n * q == n + n * (q - 1);
    } else if q <= -1 {
      assert n * q == -n + n * (q + 1);
    }
  }

  /** Writing one line of the window leaves every other line of the window alone. */
  lemma SetLineAt(s: Screen, line: nat, value: Line, other: nat)
    requires s.Shape()
    requires -(s.capacity as int) < line - other < s.capacity
    ensures s.SetLine(line, value).At(other) == if other == line then value else s.At(other)
  {
    if line < other {
      SlotsDiffer(line, other, s.capacity);
    } else if other < line {
      SlotsDiffer(other, line, s.capacity);
    }
  }

  lemma {:induction false} TokensOfSame(s: Screen, r: Screen, from: nat, to: nat)
    requires Inv(s) && Inv(r)
    requires forall l :: from <= l < to ==> s.At(l) == r.At(l)
    ensures TokensOf(s, from, to) == TokensOf(r, from, to)
  {
    if from < to {
      TokensOfSame(s, r, from, to - 1);
    }
  }

  lemma {:induction false} TokensOfFirst(s: Screen, from: nat, to: nat)
    requires Inv(s) && from < to
    ensures TokensOf(s, from, to) == LineTokens(s.At(from)) + TokensOf(s, from + 1, to)
  {
    if from + 1 < to {
      TokensOfFirst(s, from, to - 1);
    }
  }

  // ----- Appending at the end -----

  /** The cursor stands right behind the last retained character. */
  ghost predicate AtEnd(s: Screen)
    requires Inv(s)
  {
    s.current == s.last && s.column == s.At(s.last).length && !s.At(s.last).hardBreak
  }

  /** Every retained line but the last holds text, so evicting one loses some. */
  ghost predicate NoEmptyLines(s: Screen)
    requires Inv(s)
  {
    forall l :: s.first <= l < s.last ==> LineTokens(s.At(l)) != []
  }

  /** `r` is `s` with its last line closed and an empty line behind it, in a ring that may turn. */
  ghost predicate ClosesLine(s: Screen, r: Screen, hardBreak: bool) {
    && Inv(s) && Inv(r)
    && r.last == s.last + 1 && r.current == r.last && r.column == 0
    && r.first == (if r.last - s.first + 1 > s.capacity then s.first + 1 else s.first)
    && s.capacity == r.capacity > 1
    && (forall l :: r.first <= l < s.last ==> r.At(l) == s.At(l))
    && r.At(s.last) == s.At(s.last).(hardBreak := hardBreak)
    && r.At(r.last) == BlankLine(s.columns)
  }

  lemma AppendClosesLine(s: Screen, hardBreak: bool)
    requires Inv(s) && s.current == s.last
    ensures ClosesLine(s, AppendLine(s, hardBreak), hardBreak)
  {
    var line := s.At(s.current).(hardBreak := hardBreak);
    var marked := s.SetLine(s.current, line);
    var r := AppendLine(s, hardBreak);
    assert r.lines == marked.SetLine(s.current + 1, BlankLine(s.columns)).lines;
    forall l | r.first <= l <= r.last
      ensures r.At(l) == if l == s.last + 1 then BlankLine(s.columns) else if l == s.last then line else s.At(l)
    {
      SetLineAt(s, s.current, line, l);
      SetLineAt(marked, s.current + 1, BlankLine(s.columns), l);
    }
  }

  /** What left the ring between two screens at most one line apart. */
  ghost function Lost(s: Screen, r: Screen): seq<Token>
    requires Inv(s)
  {
    if r.first == s.first then [] else LineTokens(s.At(s.first))
  }

  /** What is left after starting a new line at the end, with the break. */
  lemma ClosedLineKeeps(s: Screen, r: Screen, hardBreak: bool)
    requires ClosesLine(s, r, hardBreak) && !s.At(s.last).hardBreak
    ensures Tokens(r) == TokensOf(s, r.first, s.last + 1) + if hardBreak then [Break] else []
  {
    var mark := if hardBreak then [Break] else [];
    assert LineTokens(r.At(s.last)) == LineTokens(s.At(s.last)) + mark by {
      MarkedLine(s.At(s.last), hardBreak);
    }
    assert LineTokens(r.At(r.last)) == [] by {
      BlankLineTokens(s.columns);
    }
    TokensOfSame(s, r, r.first, s.last);
    TwoLast(r, r.first, s.last);
    LastPieces(TokensOf(s, r.first, s.last), LineTokens(s.At(s.last)), mark);
  }

  /** Starting a new line at the end adds the break and loses at most the oldest line. */
  lemma ClosedLineTokens(s: Screen, r: Screen, hardBreak: bool)
    requires ClosesLine(s, r, hardBreak) && !s.At(s.last).hardBreak
    ensures Lost(s, r) + Tokens(r) == Tokens(s) + if hardBreak then [Break] else []
  {
    ClosedLineKeeps(s, r, hardBreak);
    if r.first != s.first {
      TokensOfFirst(s, s.first, s.last + 1);
      LastPieces(LineTokens(s.At(s.first)), TokensOf(s, r.first, s.last + 1), if hardBreak then [Break] else []);
    }
  }

  lemma LastPieces<T>(a: seq<T>, b: seq<T>, c: seq<T>)
    ensures a + (b + c) == a + b + c && a + b + c + [] == a + b + c && [] + a == a
  {
  }

  lemma MarkedLine(line: Line, hardBreak: bool)
    requires line.length <= |line.cells| && !line.hardBreak
    ensures LineTokens(line.(hardBreak := hardBreak)) == LineTokens(line) + if hardBreak then [Break] else []
  {
  }

  lemma BlankLineTokens(columns: nat)
    ensures LineTokens(BlankLine(columns)) == []
  {
  }

  lemma TwoLast(s: Screen, from: nat, n: nat)
    requires Inv(s) && from <= n
    ensures TokensOf(s, from, n + 2) == TokensOf(s, from, n) + LineTokens(s.At(n)) + LineTokens(s.At(n + 1))
  {
  }

  lemma AppendLineTokens(s: Screen, hardBreak: bool)
    requires Inv(s) && s.current == s.last && !s.At(s.last).hardBreak && NoEmptyLines(s)
    requires hardBreak || s.At(s.last).length > 0
    ensures var r := AppendLine(s, hardBreak);
            && ClosesLine(s, r, hardBreak) && AtEnd(r) && NoEmptyLines(r)
            && Lost(s, r) + Tokens(r) == Tokens(s) + if hardBreak then [Break] else []
  {
    var r := AppendLine(s, hardBreak);
    AppendClosesLine(s, hardBreak);
    ClosedLineTokens(s, r, hardBreak);
  }

  /** Writing a character behind the last one, before any wrap. */
  lemma InkTokens(s: Screen, character: Byte)
    requires Inv(s) && AtEnd(s) && NoEmptyLines(s) && character != NUL
    ensures var r := Ink(s, character);
            && NoEmptyLines(r)
            && Tokens(r) == Tokens(s) + [Glyph(Cell(character, s.pen.foreground, s.pen.background, s.pen.reverse))]
            && r.At(s.last).length == s.column + 1 && !r.At(s.last).hardBreak
            && (s.first < s.last ==> r.At(s.first) == s.At(s.first))
            && r.first == s.first
  {
    var line := s.At(s.last);
    var r := Ink(s, character);
    var written := r.At(s.last);
    forall l | s.first <= l <= s.last
      ensures r.At(l) == if l == s.last then written else s.At(l)
    {
      SetLineAt(s, s.last, written, l);
    }
    TokensOfSame(s, r, s.first, s.last);
    var cell := Cell(character, s.pen.foreground, s.pen.background, s.pen.reverse);
    assert LineTokens(written) == LineTokens(line) + [Glyph(cell)];
  }

  /** A pen change or a cursor move within the last line leaves the text alone. */
  lemma SameLinesSameTokens(s: Screen, r: Screen)
    requires Inv(s) && Inv(r) && s.lines == r.lines && s.capacity == r.capacity
    requires s.first == r.first && s.last == r.last
    ensures Tokens(s) == Tokens(r) && (NoEmptyLines(s) <==> NoEmptyLines(r))
  {
    TokensOfSame(s, r, s.first, s.last + 1);
  }

  /** The layout of a reflowed token: one column on, or the start of the next line. */
  function Advance(at: (nat, nat), columns: nat, t: Token): (nat, nat) {
    if t.Break? || at.1 + 1 >= columns then (at.0 + 1, 0) else (at.0, at.1 + 1)
  }

  /** One reflow step at the end of a screen appends exactly its token, loses at most the
      oldest line, and moves the cursor as the layout says. */
  ghost predicate StepAppends(s: Screen, t: Token)
    requires Inv(s) && Printable(t)
  {
    var r := FeedToken(s, t);
    && AtEnd(r) && NoEmptyLines(r)
    && (r.last, r.column) == Advance((s.last, s.column), s.columns, t)
    && r.first == (if r.last - s.first + 1 > s.capacity then s.first + 1 else s.first)
    && Lost(s, r) + Tokens(r) == Tokens(s) + [t]
    && (r.first != s.first ==> Lost(s, r) != [])
  }

  /** Wrapping after a written character: the tokens and the evicted line, from the line before it. */
  lemma WrapTokens(s: Screen, character: Byte)
    requires Inv(s) && AtEnd(s) && NoEmptyLines(s) && character != NUL
    ensures var r := AppendLine(Ink(s, character), false);
            && ClosesLine(Ink(s, character), r, false) && AtEnd(r) && NoEmptyLines(r)
            && Lost(s, r) + Tokens(r)
               == Tokens(s) + [Glyph(Cell(character, s.pen.foreground, s.pen.background, s.pen.reverse))]
            && (r.first != s.first ==> Lost(s, r) != [])
  {
    InkTokens(s, character);
    var inked := Ink(s, character);
    AppendLineTokens(inked, false);
    var r := AppendLine(inked, false);
    assert Lost(s, r) == Lost(inked, r);
  }

  /** Moving on behind a written character. */
  lemma StayTokens(s: Screen, character: Byte)
    requires Inv(s) && AtEnd(s) && NoEmptyLines(s) && character != NUL && s.column + 1 < s.columns
    ensures var r := Ink(s, character).(column := s.column + 1);
            && Inv(r) && AtEnd(r) && NoEmptyLines(r) && r.first == s.first
            && Tokens(r) == Tokens(s) + [Glyph(Cell(character, s.pen.foreground, s.pen.background, s.pen.reverse))]
  {
    InkTokens(s, character);
    SameLinesSameTokens(Ink(s, character), Ink(s, character).(column := s.column + 1));
  }

  /** What left the ring does not depend on the pen. */
  lemma PenLosesNothing(s: Screen, pen: Pen, r: Screen)
    requires Inv(s)
    ensures Inv(s.(pen := pen)) && Lost(s.(pen := pen), r) == Lost(s, r)
    ensures Tokens(s.(pen := pen)) == Tokens(s) && (NoEmptyLines(s.(pen := pen)) <==> NoEmptyLines(s))
  {
    SameLinesSameTokens(s, s.(pen := pen));
  }

  lemma GlyphWraps(s: Screen, cell: Cell)
    requires Inv(s) && AtEnd(s) && NoEmptyLines(s) && cell.character != NUL && s.column + 1 >= s.columns
    ensures StepAppends(s, Glyph(cell))
  {
    var penned := s.(pen := PenOf(cell));
    var r := FeedToken(s, Glyph(cell));
    PenLosesNothing(s, PenOf(cell), r);
    WrapTokens(penned, cell.character);
    assert r == AppendLine(Ink(penned, cell.character), false);
  }

  lemma GlyphStays(s: Screen, cell: Cell)
    requires Inv(s) && AtEnd(s) && NoEmptyLines(s) && cell.character != NUL && s.column + 1 < s.columns
    ensures StepAppends(s, Glyph(cell))
  {
    var penned := s.(pen := PenOf(cell));
    var r := FeedToken(s, Glyph(cell));
    PenLosesNothing(s, PenOf(cell), r);
    StayTokens(penned, cell.character);
    assert r == Ink(penned, cell.character).(column := s.column + 1);
  }

  lemma FeedTokenAppends(s: Screen, t: Token)
    requires Inv(s) && AtEnd(s) && NoEmptyLines(s) && Printable(t)
    ensures StepAppends(s, t)
  {
    match t
    case Break => AppendLineTokens(s, true);
    case Glyph(cell) => if s.column + 1 >= s.columns { GlyphWraps(s, cell); } else { GlyphStays(s, cell); }
  }

  // ----- Whole streams -----

  /** Where the cursor ends after laying out a stream from a given position. */
  function Layout(at: (nat, nat), columns: nat, ts: seq<Token>): (nat, nat) {
    if ts == [] then at else Advance(Layout(at, columns, ts[..|ts| - 1]), columns, ts[|ts| - 1])
  }

  ghost predicate Suffix<T>(part: seq<T>, whole: seq<T>) {
    |part| <= |whole| && part == whole[|whole| - |part|..]
  }

  lemma SuffixStep<T>(part: seq<T>, whole: seq<T>, lost: seq<T>, rest: seq<T>, t: T)
    requires Suffix(part, whole) && lost + rest == part + [t]
    ensures Suffix(rest, whole + [t]) && |rest| == |part| + 1 - |lost|
  {
    var w := whole + [t];
    assert |rest| == |part| + 1 - |lost|;
    forall i | 0 <= i < |rest|
      ensures rest[i] == w[|w| - |rest| + i]
    {
      assert rest[i] == (lost + rest)[|lost| + i] == (part + [t])[|lost| + i];
    }
  }

  lemma OneMore<T>(a: seq<T>, ts: seq<T>)
    requires ts != []
    ensures a + ts[..|ts| - 1] + [ts[|ts| - 1]] == a + ts
  {
    assert ts[..|ts| - 1] + [ts[|ts| - 1]] == ts;
  }

  /** Feeding a stream to a screen whose cursor is at its end keeps a suffix of the whole
      text; all of it exactly when the ring never overflows, which the layout decides. */
  lemma {:induction false} FeedTokensAppend(s: Screen, ts: seq<Token>)
    requires Inv(s) && AtEnd(s) && NoEmptyLines(s) && forall t :: t in ts ==> Printable(t)
    ensures var r := FeedTokens(s, ts);
            && AtEnd(r) && NoEmptyLines(r)
            && (r.last, r.column) == Layout((s.last, s.column), s.columns, ts)
            && r.first == (if r.last + 1 > s.first + s.capacity then r.last + 1 - s.capacity else s.first)
            && Suffix(Tokens(r), Tokens(s) + ts)
            && (r.first == s.first <==> Tokens(r) == Tokens(s) + ts)
  {
    var r := FeedTokens(s, ts);
    if ts == [] {
      assert Tokens(s) + ts == Tokens(s);
    } else {
      var front, t := ts[..|ts| - 1], ts[|ts| - 1];
      FeedTokensAppend(s, front);
      var mid := FeedTokens(s, front);
      FeedTokenAppends(mid, t);
      SuffixStep(Tokens(mid), Tokens(s) + front, Lost(mid, r), Tokens(r), t);
      OneMore(Tokens(s), ts);
    }
  }

  // ----- Resizing -----

  lemma {:induction false} TokensPrintable(s: Screen, from: nat, to: nat)
    requires Inv(s)
    ensures forall t :: t in TokensOf(s, from, to) ==> Printable(t)
  {
    if from < to {
      TokensPrintable(s, from, to - 1);
    }
  }

  /** The new terminal before any text is written into it. */
  function Target(s: Screen, columns: nat, rows: nat, scrollback: nat): (r: Screen)
    requires columns > 0 && rows > 0 && scrollback > 0
    ensures Inv(r) && r.columns == columns && r.rows == rows && r.capacity == rows + scrollback
  {
    Fresh(columns, rows, scrollback)
      .(pen := Pen(s.pen.foreground, s.pen.background, false), cursorVisible := s.cursorVisible)
  }

  /** The viewport keeps its distance from the live end, as far as history reaches. */
  function Rescroll(s: Screen, flowed: Screen): (r: Screen)
    requires Inv(s) && Inv(flowed)
    ensures Inv(r)
  {
    var distance := s.Top() - s.viewport;
    flowed.(viewport := flowed.Top() - Min(distance, flowed.Top() - flowed.first),
            row := flowed.current - flowed.Top(), pen := s.pen)
  }

  /** terminal_resize on a geometry that terminal_init accepts. */
  function Resize(s: Screen, columns: nat, rows: nat, scrollback: nat): (r: Screen)
    requires Inv(s) && columns > 0 && rows > 0 && scrollback > 0
    ensures Inv(r) && r.columns == columns && r.rows == rows && r.capacity == rows + scrollback
  {
    TokensPrintable(s, s.first, s.last + 1);
    Rescroll(s, FeedTokens(Target(s, columns, rows, scrollback), Tokens(s)))
  }

  lemma TargetIsEmpty(s: Screen, columns: nat, rows: nat, scrollback: nat)
    requires columns > 0 && rows > 0 && scrollback > 0
    ensures var r := Target(s, columns, rows, scrollback);
            && AtEnd(r) && NoEmptyLines(r) && Tokens(r) == []
            && r.first == r.last == r.column == 0 && r.parser == IDLE_PARSER
  {
    var r := Target(s, columns, rows, scrollback);
    assert r.At(0) == BlankLine(columns);
    assert TokensOf(r, 0, 0) == [];
    assert LineTokens(r.At(0)) == [];
  }

  /** Reflow preserves the text: characters, colours, reverse video and hard breaks survive in
      order as a suffix of the old text, and all of it survives exactly when its layout in the
      new width fits the new ring.  The cursor goes to the end of the text. */
  lemma ResizeKeepsText(s: Screen, columns: nat, rows: nat, scrollback: nat)
    requires Inv(s) && columns > 0 && rows > 0 && scrollback > 0
    ensures var r := Resize(s, columns, rows, scrollback);
            && Suffix(Tokens(r), Tokens(s))
            && (Tokens(r) == Tokens(s) <==> Layout((0, 0), columns, Tokens(s)).0 < rows + scrollback)
            && (r.last, r.column) == Layout((0, 0), columns, Tokens(s))
            && AtEnd(r) && r.pen == s.pen && r.parser == IDLE_PARSER
  {
    var target := Target(s, columns, rows, scrollback);
    TargetIsEmpty(s, columns, rows, scrollback);
    TokensPrintable(s, s.first, s.last + 1);
    FeedTokensAppend(target, Tokens(s));
    assert [] + Tokens(s) == Tokens(s);
    var flowed := FeedTokens(target, Tokens(s));
    SameLinesSameTokens(flowed, Rescroll(s, flowed));
  }

  /** Two screens with the same retained lines and cursor, whatever their pens. */
  ghost predicate SameText(a: Screen, b: Screen) {
    a == b.(pen := a.pen, cursorVisible := a.cursorVisible)
  }

  lemma SameNext(a: Screen, b: Screen, hardBreak: bool)
    requires Inv(a) && Inv(b) && SameText(a, b)
    ensures SameText(NextLine(a, hardBreak), NextLine(b, hardBreak))
  {
    var c, d := a.SetLine(a.current, a.At(a.current).(hardBreak := hardBreak)),
                b.SetLine(b.current, b.At(b.current).(hardBreak := hardBreak));
    assert SameText(c, d);
    assert SameText(StepLine(c), StepLine(d));
  }

  lemma SameAppend(a: Screen, b: Screen, hardBreak: bool)
    requires Inv(a) && Inv(b) && SameText(a, b)
    ensures SameText(AppendLine(a, hardBreak), AppendLine(b, hardBreak))
  {
    SameNext(a, b, hardBreak);
    SameFollow(NextLine(a, hardBreak), NextLine(b, hardBreak));
  }

  lemma SameFollow(a: Screen, b: Screen)
    requires Core(a) && Core(b) && SameText(a, b)
    ensures SameText(Follow(a), Follow(b))
  {
  }

  lemma SameInk(a: Screen, b: Screen, character: Byte)
    requires Inv(a) && Inv(b) && SameText(a, b) && a.pen == b.pen && character != NUL
    ensures SameText(Ink(a, character), Ink(b, character))
  {
  }

  lemma SamePut(a: Screen, b: Screen, character: Byte)
    requires Inv(a) && Inv(b) && SameText(a, b) && a.pen == b.pen && character != NUL
    ensures SameText(PutCharacter(a, character), PutCharacter(b, character))
  {
    SameInk(a, b, character);
    SameAppend(Ink(a, character), Ink(b, character), false);
  }

  lemma SameStep(a: Screen, b: Screen, t: Token)
    requires Inv(a) && Inv(b) && SameText(a, b) && Printable(t)
    ensures SameText(FeedToken(a, t), FeedToken(b, t))
  {
    if t.Break? {
      SameAppend(a, b, true);
    } else {
      SamePut(a.(pen := PenOf(t.cell)), b.(pen := PenOf(t.cell)), t.cell.character);
    }
  }

  lemma {:induction false} SameFlow(a: Screen, b: Screen, ts: seq<Token>)
    requires Inv(a) && Inv(b) && SameText(a, b) && forall t :: t in ts ==> Printable(t)
    ensures SameText(FeedTokens(a, ts), FeedTokens(b, ts))
  {
    if ts != [] {
      var front := ts[..|ts| - 1];
      SameFlow(a, b, front);
      SameStep(FeedTokens(a, front), FeedTokens(b, front), ts[|ts| - 1]);
    }
  }

  /** The text after a resize depends on nothing but the text before it. */
  lemma SameTextResizesAlike(s: Screen, r: Screen, columns: nat, rows: nat, scrollback: nat)
    requires Inv(s) && Inv(r) && columns > 0 && rows > 0 && scrollback > 0 && Tokens(s) == Tokens(r)
    ensures Tokens(Resize(s, columns, rows, scrollback)) == Tokens(Resize(r, columns, rows, scrollback))
  {
    TokensPrintable(s, s.first, s.last + 1);
    var a, b := Target(s, columns, rows, scrollback), Target(r, columns, rows, scrollback);
    SameFlow(a, b, Tokens(s));
    var flowedA, flowedB := FeedTokens(a, Tokens(s)), FeedTokens(b, Tokens(s));
    SameLinesSameTokens(flowedA, Rescroll(s, flowedA));
    SameLinesSameTokens(flowedB, Rescroll(r, flowedB));
    SameLinesSameTokens(flowedA, flowedB);
  }

  /** Resizing through an intermediate geometry that evicts nothing loses nothing. */
  lemma ResizeTwice(s: Screen, columns: nat, rows: nat, columns': nat, rows': nat, scrollback: nat)
    requires Inv(s) && columns > 0 && rows > 0 && columns' > 0 && rows' > 0 && scrollback > 0
    requires Layout((0, 0), columns, Tokens(s)).0 < rows + scrollback
    ensures Tokens(Resize(Resize(s, columns, rows, scrollback), columns', rows', scrollback))
         == Tokens(Resize(s, columns', rows', scrollback))
  {
    ResizeKeepsText(s, columns, rows, scrollback);
    SameTextResizesAlike(Resize(s, columns, rows, scrollback), s, columns', rows', scrollback);
  }

  // ----- Writing plain text -----

  /** Bytes that print or break the line, outside an escape sequence. */
  predicate Plain(b: Byte) {
    b != NUL && b != ESC && b != '\r' as int && b != 8 && b != 0x7f && b != '\t' as int
  }

  function ByteToken(pen: Pen, b: Byte): (t: Token)
    requires Plain(b)
    ensures Printable(t)
  {
    if b == '\n' as int then Break else Glyph(Cell(b, pen.foreground, pen.background, pen.reverse))
  }

  function TextTokens(pen: Pen, bytes: seq<Byte>): (ts: seq<Token>)
    requires forall b :: b in bytes ==> Plain(b)
    ensures |ts| == |bytes| && (forall i :: 0 <= i < |ts| ==> Printable(ts[i]))
  {
    seq(|bytes|, i requires 0 <= i < |bytes| => ByteToken(pen, bytes[i]))
  }

  /** Outside an escape sequence a plain byte is a reflow step in the current pen. */
  lemma PlainByteIsToken(s: Screen, b: Byte)
    requires Inv(s) && s.parser.state == 0 && Plain(b)
    ensures FeedByte(s, b) == FeedToken(s, ByteToken(s.pen, b))
    ensures FeedByte(s, b).pen == s.pen && FeedByte(s, b).parser.state == 0
  {
    if b != '\n' as int {
      assert s.(pen := s.pen) == s;
      assert FeedByte(s, b) == PutCharacter(s, b);
    }
  }

  lemma {:induction false} PlainTextIsReflow(s: Screen, bytes: seq<Byte>)
    requires Inv(s) && s.parser.state == 0 && forall b :: b in bytes ==> Plain(b)
    ensures var r := Feed(s, bytes);
            r == FeedTokens(s, TextTokens(s.pen, bytes)) && r.pen == s.pen && r.parser.state == 0
  {
    if bytes != [] {
      var front, b := bytes[..|bytes| - 1], bytes[|bytes| - 1];
      PlainTextIsReflow(s, front);
      var ts := TextTokens(s.pen, bytes);
      assert ts[..|ts| - 1] == TextTokens(s.pen, front);
      PlainByteIsToken(Feed(s, front), b);
    }
  }

  /** Plain text written at the end of the screen is appended to the retained text, in the
      current colours; the oldest lines go first, and only when the ring is full. */
  lemma WritingAppendsText(s: Screen, bytes: seq<Byte>)
    requires Inv(s) && AtEnd(s) && NoEmptyLines(s)
    requires s.parser.state == 0 && forall b :: b in bytes ==> Plain(b)
    ensures var r := WriteBytes(s, bytes);
            && AtEnd(r) && NoEmptyLines(r)
            && Suffix(Tokens(r), Tokens(s) + TextTokens(s.pen, bytes))
            && (Tokens(r) == Tokens(s) + TextTokens(s.pen, bytes) <==>
                  Layout((s.last, s.column), s.columns, TextTokens(s.pen, bytes)).0 < s.first + s.capacity)
  {
    var ts := TextTokens(s.pen, bytes);
    PlainTextIsReflow(s, bytes);
    FeedTokensAppend(s, ts);
    var fed := Feed(s, bytes);
    SameLinesSameTokens(fed, Follow(fed));
  }
}
