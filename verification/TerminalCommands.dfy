/** What the control sequences of graphics/terminal.c do, from the bytes fed to the fields of the screen. */
module TerminalCommands {
  import opened TerminalReflow
  import opened TerminalSpec

  // ----- Control sequences as bytes -----

  predicate Decimal(digits: seq<Byte>) {
    forall i :: 0 <= i < |digits| ==> 48 <= digits[i] <= 57
  }

  /** What decimal digits say; no digits at all say zero. */
  function Number(digits: seq<Byte>): nat
    requires Decimal(digits)
  {
    if digits == [] then 0 else Number(digits[..|digits| - 1]) * 10 + (digits[|digits| - 1] - 48)
  }

  /** At most eight parameters, each a decimal number of 16 bits. */
  predicate Parameters(list: seq<seq<Byte>>) {
    1 <= |list| <= 8 && forall i :: 0 <= i < |list| ==> Decimal(list[i]) && Number(list[i]) <= 65535
  }

  /** Parameters with semicolons between them. */
  function Listed(list: seq<seq<Byte>>): seq<Byte>
    requires list != []
  {
    if |list| == 1 then list[0] else Listed(list[..|list| - 1]) + [59] + list[|list| - 1]
  }

  /** ESC [ parameters letter. */
  function Sequence(list: seq<seq<Byte>>, letter: Byte): seq<Byte>
    requires list != []
  {
    [27, 91] + Listed(list) + [letter]
  }

  // ----- Reading them -----

  lemma FeedMore(s: Screen, bytes: seq<Byte>, b: Byte)
    requires Inv(s)
    ensures Feed(s, bytes + [b]) == FeedByte(Feed(s, bytes), b)
  {
    assert (bytes + [b])[..|bytes + [b]| - 1] == bytes;
  }

  lemma NumberGrows(digits: seq<Byte>)
    requires Decimal(digits) && digits != []
    ensures Decimal(digits[..|digits| - 1]) && Number(digits[..|digits| - 1]) * 10 <= Number(digits)
  {
  }

  /** A parser inside a control sequence that has read no digit of its last parameter. */
  ghost predicate Reading(s: Screen) {
    Inv(s) && s.parser.state == 2 && !s.parser.invalid && s.parser.values[s.parser.count - 1] == 0
  }

  lemma OneDigitRead(s: Screen, p: Parser, value: nat, b: Byte)
    requires Inv(s) && ParserOk(p) && p.state == 2 && !p.invalid && 48 <= b <= 57 && value * 10 + (b - 48) <= 65535
    requires s.parser == p.(values := p.values[p.count - 1 := value])
    ensures FeedByte(s, b) == s.(parser := p.(values := p.values[p.count - 1 := value * 10 + (b - 48)]))
  {
    assert p.values[p.count - 1 := value][p.count - 1 := value * 10 + (b - 48)]
        == p.values[p.count - 1 := value * 10 + (b - 48)];
  }

  lemma {:induction false} DigitsRead(s: Screen, digits: seq<Byte>)
    requires Reading(s) && Decimal(digits) && Number(digits) <= 65535
    ensures var p := s.parser;
            Feed(s, digits) == s.(parser := p.(values := p.values[p.count - 1 := Number(digits)]))
    decreases |digits|
  {
    var p := s.parser;
    if digits == [] {
      assert p.values[p.count - 1 := 0] == p.values;
    } else {
      var front, b := digits[..|digits| - 1], digits[|digits| - 1];
      NumberGrows(digits);
      DigitsRead(s, front);
      OneDigitRead(s.(parser := p.(values := p.values[p.count - 1 := Number(front)])), p, Number(front), b);
    }
  }

  /** The values a parser holds after reading parameters. */
  function Values(list: seq<seq<Byte>>): (values: seq<nat>)
    requires Parameters(list)
  {
    seq(8, i requires 0 <= i < 8 => if i < |list| then Number(list[i]) else 0)
  }

  /** The parser after parameters. */
  function After(list: seq<seq<Byte>>): (p: Parser)
    requires Parameters(list)
    ensures ParserOk(p)
  {
    Parser(2, Values(list), |list|, false, false)
  }

  lemma ValuesStep(list: seq<seq<Byte>>)
    requires Parameters(list) && |list| > 1
    ensures var n := |list| - 1;
            && Parameters(list[..n]) && Values(list[..n])[n] == 0
            && Values(list[..n])[n := Number(list[n])] == Values(list)
  {
  }

  lemma SemicolonRead(s: Screen, p: Parser)
    requires Inv(s) && s.parser == p && p.state == 2 && p.count < 8
    ensures FeedByte(s, 59) == s.(parser := p.(count := p.count + 1))
  {
  }

  lemma FeedThen(s: Screen, a: seq<Byte>, b: seq<Byte>, mid: Screen, end: Screen)
    requires Inv(s) && Feed(s, a) == mid && Feed(mid, b) == end
    ensures Feed(s, a + b) == end
  {
    FeedSplit(s, a, b);
  }

  lemma LastRead(s: Screen, list: seq<seq<Byte>>)
    requires Inv(s) && Parameters(list) && |list| > 1 && Parameters(list[..|list| - 1])
    requires s.parser == After(list[..|list| - 1]).(count := |list|)
    ensures Feed(s, list[|list| - 1]) == s.(parser := After(list))
  {
    ValuesStep(list);
    DigitsRead(s, list[|list| - 1]);
  }

  lemma OneFed(s: Screen, b: Byte)
    requires Inv(s)
    ensures Feed(s, [b]) == FeedByte(s, b)
  {
    FeedMore(s, [], b);
    assert [] + [b] == [b];
  }

  /** One more parameter behind those read. */
  lemma OneMoreRead(s: Screen, list: seq<seq<Byte>>)
    requires Inv(s) && Parameters(list) && |list| > 1 && Parameters(list[..|list| - 1])
    requires s.parser == After(list[..|list| - 1])
    ensures Feed(s, [59] + list[|list| - 1]) == s.(parser := After(list))
  {
    var p := s.parser.(count := |list|);
    SemicolonRead(s, s.parser);
    OneFed(s, 59);
    LastRead(s.(parser := p), list);
    FeedThen(s, [59], list[|list| - 1], s.(parser := p), s.(parser := After(list)));
  }

  lemma OneRead(s: Screen, digits: seq<Byte>)
    requires Inv(s) && s.parser == Parser(2, seq(8, _ => 0), 1, false, false) && Parameters([digits])
    ensures Feed(s, digits) == s.(parser := After([digits]))
  {
    assert [digits][0] == digits;
    DigitsRead(s, digits);
    assert s.parser.values[0 := Number(digits)] == Values([digits]);
  }

  lemma ListedMore(list: seq<seq<Byte>>)
    requires |list| > 1
    ensures Listed(list) == Listed(list[..|list| - 1]) + ([59] + list[|list| - 1])
  {
    LastPieces(Listed(list[..|list| - 1]), [59], list[|list| - 1]);
  }

  lemma {:induction false} ListRead(s: Screen, list: seq<seq<Byte>>)
    requires Inv(s) && s.parser == Parser(2, seq(8, _ => 0), 1, false, false) && Parameters(list)
    ensures Feed(s, Listed(list)) == s.(parser := After(list))
    decreases |list|
  {
    if |list| == 1 {
      assert list == [list[0]];
      OneRead(s, list[0]);
    } else {
      var front, last := list[..|list| - 1], list[|list| - 1];
      ListedMore(list);
      ListRead(s, front);
      OneMoreRead(s.(parser := After(front)), list);
      FeedThen(s, Listed(front), [59] + last, s.(parser := After(front)), s.(parser := After(list)));
    }
  }

  /** A letter ends a control sequence. */
  predicate Letter(b: Byte) {
    64 <= b <= 126
  }

  lemma SequenceRead(s: Screen, list: seq<seq<Byte>>, letter: Byte)
    requires Inv(s) && s.parser.state == 0 && Parameters(list) && Letter(letter)
    ensures var held := s.(parser := After(list));
            && Inv(held)
            && Feed(s, Sequence(list, letter)) == AnsiCommand(held, letter).(parser := After(list).(state := 0))
  {
    EscapeRead(s);
    ListRead(s.(parser := Parser(2, seq(8, _ => 0), 1, false, false)), list);
    FeedSplit(s, [27, 91], Listed(list));
    FeedMore(s, [27, 91] + Listed(list), letter);
    LetterRead(s.(parser := After(list)), After(list), letter);
  }

  lemma LetterRead(s: Screen, p: Parser, letter: Byte)
    requires Inv(s) && s.parser == p && p.state == 2 && !p.invalid && Letter(letter)
    ensures FeedByte(s, letter) == AnsiCommand(s, letter).(parser := p.(state := 0))
  {
  }

  lemma EscapeRead(s: Screen)
    requires Inv(s) && s.parser.state == 0
    ensures Feed(s, [27, 91]) == s.(parser := Parser(2, seq(8, _ => 0), 1, false, false))
  {
    FeedMore(s, [], 27);
    FeedMore(s, [27], 91);
    assert [] + [27] == [27] && [27] + [91] == [27, 91] && Feed(s, []) == s;
  }

  // ----- Moving the cursor -----

  /** The first line of the window: the last rows of the text, never before the oldest retained line. */
  function WindowTop(s: Screen): nat {
    if s.last + 1 > s.first + s.rows then s.last + 1 - s.rows else s.first
  }

  /** The lines of `s` are those of `r`, which may have empty ones behind them. */
  ghost predicate Extends(s: Screen, r: Screen)
    requires Inv(s) && Inv(r)
  {
    && r.capacity == s.capacity && r.columns == s.columns && r.first == s.first && s.last <= r.last
    && (forall l :: s.first <= l <= s.last ==> r.At(l) == s.At(l))
    && (forall l :: s.last < l <= r.last ==> r.At(l) == BlankLine(s.columns))
  }

  lemma {:induction false} TailExtended(s: Screen)
    requires Inv(s)
    ensures var r := ExtendTail(s);
            && Extends(s, r) && r.last == (if s.last < s.current then s.current else s.last)
            && r == s.(last := r.last, lines := r.lines)
    decreases s.current - s.last
  {
    if s.last < s.current {
      var taken := TakeIn(s);
      ExtendStep(s);
      TailExtended(taken);
      forall l | s.first <= l <= s.last + 1
        ensures taken.At(l) == if l == s.last + 1 then BlankLine(s.columns) else s.At(l)
      {
        SetLineAt(s.(last := s.last + 1), s.last + 1, BlankLine(s.columns), l);
      }
    }
  }

  /** Only the cursor moves, and the text grows by empty lines as far as the cursor. */
  ghost predicate Moved(s: Screen, r: Screen, line: int, column: int)
    requires Inv(s)
  {
    && line >= 0 && column >= 0 && Inv(r) && r.current == line && r.column == column && Extends(s, r)
    && r.last == (if s.last < line then line else s.last)
    && r == s.(current := line, column := column, last := r.last, lines := r.lines, parser := r.parser)
    && r.parser.state == 0
  }

  /** The bytes of cursor commands. */
  predicate MovesCursor(letter: Byte) {
    letter in [65, 66, 67, 68, 71, 72, 102]
  }

  lemma TailMoved(s: Screen, q: Screen, r: Screen)
    requires Inv(s) && Inv(q) && q == s.(current := q.current, column := q.column, parser := q.parser)
    requires ParserOk(r.parser) && r.parser.state == 0 && r == ExtendTail(q).(parser := r.parser)
    ensures Moved(s, r, q.current, q.column)
  {
    TailExtended(q);
    ParserApart(ExtendTail(q), r.parser);
    ExtendsSame(s, q, ExtendTail(q), r);
  }

  lemma ParserApart(s: Screen, p: Parser)
    requires Inv(s) && ParserOk(p)
    ensures Inv(s.(parser := p))
  {
  }

  /** Whether lines extend others is a matter of the lines alone. */
  lemma ExtendsSame(s: Screen, q: Screen, tail: Screen, r: Screen)
    requires Inv(s) && Inv(q) && Inv(tail) && Inv(r) && Extends(q, tail)
    requires s.lines == q.lines && s.capacity == q.capacity && s.columns == q.columns && s.first == q.first
    requires s.last == q.last && r.lines == tail.lines && r.capacity == tail.capacity && r.columns == tail.columns
    requires r.first == tail.first && r.last == tail.last
    ensures Extends(s, r)
  {
    forall l | s.first <= l <= r.last ensures r.At(l) == if l <= s.last then s.At(l) else BlankLine(s.columns) {
      assert r.At(l) == tail.At(l) && s.At(l) == q.At(l);
    }
  }

  /** A public command ends with the tail brought up to the cursor. */
  lemma CommandFed(s: Screen, list: seq<seq<Byte>>, letter: Byte, q: Screen)
    requires Inv(s) && s.parser.state == 0 && Parameters(list) && Letter(letter)
    requires Inv(s.(parser := After(list))) && q == PublicCommand(s.(parser := After(list)), letter)
    ensures Inv(q) && Feed(s, Sequence(list, letter)) == ExtendTail(q).(parser := After(list).(state := 0))
  {
    SequenceRead(s, list, letter);
  }

  lemma MoveFed(s: Screen, list: seq<seq<Byte>>, letter: Byte)
    requires Inv(s) && s.parser.state == 0 && Parameters(list) && MovesCursor(letter)
    ensures Inv(s.(parser := After(list)))
    ensures var (line, column) := TerminalSpec.Target(s.(parser := After(list)), letter);
            Moved(s, Feed(s, Sequence(list, letter)), line, column)
  {
    var held := s.(parser := After(list));
    var moved := MoveCursor(held, letter);
    CommandFed(s, list, letter, moved);
    TailMoved(s, moved, Feed(s, Sequence(list, letter)));
  }

  lemma MoveFedTo(s: Screen, list: seq<seq<Byte>>, letter: Byte, line: int, column: int)
    requires Inv(s) && s.parser.state == 0 && Parameters(list) && MovesCursor(letter)
    requires Inv(s.(parser := After(list)))
    requires TerminalSpec.Target(s.(parser := After(list)), letter) == (line, column)
    ensures Moved(s, Feed(s, Sequence(list, letter)), line, column)
  {
    MoveFed(s, list, letter);
  }

  /** A count, of which none at all and zero mean one. */
  function Count(digits: seq<Byte>): nat
    requires Decimal(digits)
  {
    if Number(digits) == 0 then 1 else Number(digits)
  }

  lemma OneParameter(digits: seq<Byte>)
    requires Decimal(digits) && Number(digits) <= 65535
    ensures Parameters([digits]) && Values([digits])[0] == Number(digits) && After([digits]).count == 1
  {
  }

  lemma TopOfWindow(s: Screen)
    ensures s.Top() == WindowTop(s)
  {
  }

  function Clamped(n: int, low: int, high: int): int {
    if n < low then low else if n > high then high else n
  }

  /** A line as far as it lies in the window, and a column as far as there is one. */
  function InWindow(s: Screen, line: int): int {
    Clamped(line, WindowTop(s), WindowTop(s) + s.rows - 1)
  }

  function InLine(s: Screen, column: int): int {
    Clamped(column, 0, s.columns - 1)
  }

  /** Where the commands with one count go. */
  lemma CountTarget(s: Screen, held: Screen, letter: Byte, n: nat)
    requires Inv(s) && Inv(held) && held == s.(parser := held.parser)
    requires n == if held.parser.values[0] == 0 then 1 else held.parser.values[0]
    ensures letter == 65 ==> TerminalSpec.Target(held, letter) == (InWindow(s, s.current - n), s.column)
    ensures letter == 66 ==> TerminalSpec.Target(held, letter) == (InWindow(s, s.current + n), s.column)
    ensures letter == 67 ==> TerminalSpec.Target(held, letter) == (s.current, InLine(s, s.column + n))
    ensures letter == 68 ==> TerminalSpec.Target(held, letter) == (s.current, InLine(s, s.column - n))
    ensures letter == 71 ==> TerminalSpec.Target(held, letter) == (s.current, InLine(s, n - 1))
  {
    TopOfWindow(s);
  }

  lemma CountFed(s: Screen, digits: seq<Byte>, letter: Byte, line: int, column: int)
    requires Inv(s) && s.parser.state == 0 && letter in [65, 66, 67, 68, 71]
    requires Decimal(digits) && Number(digits) <= 65535
    requires letter == 65 ==> (line, column) == (InWindow(s, s.current - Count(digits)), s.column)
    requires letter == 66 ==> (line, column) == (InWindow(s, s.current + Count(digits)), s.column)
    requires letter == 67 ==> (line, column) == (s.current, InLine(s, s.column + Count(digits)))
    requires letter == 68 ==> (line, column) == (s.current, InLine(s, s.column - Count(digits)))
    requires letter == 71 ==> (line, column) == (s.current, InLine(s, Count(digits) - 1))
    ensures Moved(s, Feed(s, Sequence([digits], letter)), line, column)
  {
    OneParameter(digits);
    ParserApart(s, After([digits]));
    CountTarget(s, s.(parser := After([digits])), letter, Count(digits));
    MoveFedTo(s, [digits], letter, line, column);
  }

  /** CSI n A goes up n lines, not above the window. */
  lemma CursorUp(s: Screen, digits: seq<Byte>)
    requires Inv(s) && s.parser.state == 0 && Decimal(digits) && Number(digits) <= 65535
    ensures Moved(s, Feed(s, Sequence([digits], 65)), InWindow(s, s.current - Count(digits)), s.column)
  {
    CountFed(s, digits, 65, InWindow(s, s.current - Count(digits)), s.column);
  }

  /** CSI n B goes down n lines, not below the window. */
  lemma CursorDown(s: Screen, digits: seq<Byte>)
    requires Inv(s) && s.parser.state == 0 && Decimal(digits) && Number(digits) <= 65535
    ensures Moved(s, Feed(s, Sequence([digits], 66)), InWindow(s, s.current + Count(digits)), s.column)
  {
    CountFed(s, digits, 66, InWindow(s, s.current + Count(digits)), s.column);
  }

  /** CSI n C goes right n columns, not past the last. */
  lemma CursorRight(s: Screen, digits: seq<Byte>)
    requires Inv(s) && s.parser.state == 0 && Decimal(digits) && Number(digits) <= 65535
    ensures Moved(s, Feed(s, Sequence([digits], 67)), s.current, InLine(s, s.column + Count(digits)))
  {
    CountFed(s, digits, 67, s.current, InLine(s, s.column + Count(digits)));
  }

  /** CSI n D goes left n columns, not before the first. */
  lemma CursorLeft(s: Screen, digits: seq<Byte>)
    requires Inv(s) && s.parser.state == 0 && Decimal(digits) && Number(digits) <= 65535
    ensures Moved(s, Feed(s, Sequence([digits], 68)), s.current, InLine(s, s.column - Count(digits)))
  {
    CountFed(s, digits, 68, s.current, InLine(s, s.column - Count(digits)));
  }

  /** CSI n G goes to column n, counted from one. */
  lemma CursorColumn(s: Screen, digits: seq<Byte>)
    requires Inv(s) && s.parser.state == 0 && Decimal(digits) && Number(digits) <= 65535
    ensures Moved(s, Feed(s, Sequence([digits], 71)), s.current, InLine(s, Count(digits) - 1))
  {
    CountFed(s, digits, 71, s.current, InLine(s, Count(digits) - 1));
  }

  lemma TwoParameters(a: seq<Byte>, b: seq<Byte>)
    requires Decimal(a) && Number(a) <= 65535 && Decimal(b) && Number(b) <= 65535
    ensures Parameters([a, b]) && Values([a, b])[0] == Number(a) && Values([a, b])[1] == Number(b)
    ensures After([a, b]).count == 2
  {
    assert [a, b][0] == a && [a, b][1] == b;
  }

  /** CSI row ; column H, and f, go to that position of the window. */
  lemma CursorPosition(s: Screen, row: seq<Byte>, column: seq<Byte>, letter: Byte)
    requires Inv(s) && s.parser.state == 0 && (letter == 72 || letter == 102)
    requires Decimal(row) && Number(row) <= 65535 && Decimal(column) && Number(column) <= 65535
    ensures Moved(s, Feed(s, Sequence([row, column], letter)), InWindow(s, WindowTop(s) + Count(row) - 1),
                  InLine(s, Count(column) - 1))
  {
    TwoParameters(row, column);
    PositionFed(s, [row, column], letter, Count(row), Count(column), InWindow(s, WindowTop(s) + Count(row) - 1),
                InLine(s, Count(column) - 1));
  }

  lemma PositionFed(s: Screen, list: seq<seq<Byte>>, letter: Byte, row: nat, column: nat, line: int, at: int)
    requires Inv(s) && s.parser.state == 0 && Parameters(list) && (letter == 72 || letter == 102)
    requires row == if Values(list)[0] == 0 then 1 else Values(list)[0]
    requires column == if |list| > 1 && Values(list)[1] > 0 then Values(list)[1] else 1
    requires line == InWindow(s, WindowTop(s) + row - 1) && at == InLine(s, column - 1)
    ensures Moved(s, Feed(s, Sequence(list, letter)), line, at)
  {
    ParserApart(s, After(list));
    PositionTarget(s, s.(parser := After(list)), letter, row, column);
    MoveFedTo(s, list, letter, line, at);
  }

  /** Where H and f go. */
  lemma PositionTarget(s: Screen, held: Screen, letter: Byte, row: nat, column: nat)
    requires Inv(s) && Inv(held) && held == s.(parser := held.parser) && (letter == 72 || letter == 102)
    requires row == if held.parser.values[0] == 0 then 1 else held.parser.values[0]
    requires column == if held.parser.count > 1 && held.parser.values[1] > 0 then held.parser.values[1] else 1
    ensures TerminalSpec.Target(held, letter) == (InWindow(s, WindowTop(s) + row - 1), InLine(s, column - 1))
  {
    TopOfWindow(s);
  }

  /** Without a column they go to the first, and without anything to the top left. */
  lemma CursorRow(s: Screen, row: seq<Byte>, letter: Byte)
    requires Inv(s) && s.parser.state == 0 && (letter == 72 || letter == 102)
    requires Decimal(row) && Number(row) <= 65535
    ensures Moved(s, Feed(s, Sequence([row], letter)), InWindow(s, WindowTop(s) + Count(row) - 1), 0)
  {
    OneParameter(row);
    PositionFed(s, [row], letter, Count(row), 1, InWindow(s, WindowTop(s) + Count(row) - 1), 0);
  }

  // ----- Erasing -----

  /** The cursor's line is blank from a column on, and ends there; every other line stays. */
  ghost predicate ErasedFrom(s: Screen, r: Screen, start: nat)
    requires Inv(s)
  {
    && Inv(r) && r.first == s.first && r.capacity == s.capacity && r.columns == s.columns
    && r.last == (if s.last < s.current then s.current else s.last)
    && r == s.(last := r.last, lines := r.lines, parser := r.parser) && r.parser.state == 0
    && (forall l :: s.first <= l <= s.last && l != s.current ==> r.At(l) == s.At(l))
    && (s.current <= s.last ==>
          && r.At(s.current).length == start && r.At(s.current).hardBreak == s.At(s.current).hardBreak
          && forall c :: 0 <= c < s.columns ==>
               r.At(s.current).cells[c] == if c < start then s.At(s.current).cells[c] else BLANK)
  }

  /** CSI K erases the cursor's line from the cursor on, and CSI 2 K all of it. */
  lemma ErasesLine(s: Screen, digits: seq<Byte>)
    requires Inv(s) && s.parser.state == 0 && Decimal(digits) && Number(digits) <= 65535
    ensures ErasedFrom(s, Feed(s, Sequence([digits], 75)), if Number(digits) == 2 then 0 else s.column)
  {
    OneParameter(digits);
    var held := s.(parser := After([digits]));
    var start := if Number(digits) == 2 then 0 else s.column;
    SameInv(s, After([digits]), s.pen);
    CommandFed(s, [digits], 75, EraseLine(held, Number(digits)));
    ErasedTail(s, EraseLine(held, Number(digits)), Feed(s, Sequence([digits], 75)), start);
  }

  lemma ErasedTail(s: Screen, erased: Screen, r: Screen, start: nat)
    requires Inv(s) && Inv(erased) && start <= s.column
    requires erased == s.SetLine(s.current, Blanked(s.At(s.current), start)).(parser := erased.parser)
    requires ParserOk(r.parser) && r.parser.state == 0 && r == ExtendTail(erased).(parser := r.parser)
    ensures ErasedFrom(s, r, start)
  {
    TailExtended(erased);
    ParserApart(ExtendTail(erased), r.parser);
    ExtendsSame(erased, erased, ExtendTail(erased), r);
    forall l | s.first <= l <= s.last
      ensures r.At(l) == if l == s.current then Blanked(s.At(s.current), start) else s.At(l)
    {
      SetLineAt(s, s.current, Blanked(s.At(s.current), start), l);
      assert r.At(l) == erased.At(l);
    }
  }

  /** CSI 2 J clears everything and goes to the top left; with another parameter it erases nothing. */
  lemma ClearsScreen(s: Screen, digits: seq<Byte>)
    requires Inv(s) && s.parser.state == 0 && Decimal(digits) && Number(digits) <= 65535
    ensures var r := Feed(s, Sequence([digits], 74));
            if Number(digits) == 2 then Cleared(s, r) else Moved(s, r, s.current, s.column)
  {
    OneParameter(digits);
    SameInv(s, After([digits]), s.pen);
    var held := s.(parser := After([digits]));
    if Number(digits) == 2 {
      CommandFed(s, [digits], 74, Clear(held));
      ClearedTail(s, Clear(held), Feed(s, Sequence([digits], 74)));
    } else {
      CommandFed(s, [digits], 74, held);
      TailMoved(s, held, Feed(s, Sequence([digits], 74)));
    }
  }

  lemma ClearedTail(s: Screen, q: Screen, r: Screen)
    requires Inv(s) && Inv(q) && q == Clear(s).(parser := q.parser)
    requires ParserOk(r.parser) && r == ExtendTail(q).(parser := r.parser)
    ensures Cleared(s, r)
  {
  }

  /** One empty line, with the cursor at its start; colours, kept position and visibility stay. */
  predicate Cleared(s: Screen, r: Screen) {
    && r.Shape() && r.first == r.current == r.last == r.column == 0 && r.At(0) == BlankLine(s.columns)
    && r.pen == s.pen && r.savedLine == s.savedLine && r.savedColumn == s.savedColumn
    && r.cursorVisible == s.cursorVisible
  }

  // ----- Saving and restoring -----

  /** CSI s keeps where the cursor stands. */
  lemma SavesCursor(s: Screen)
    requires Inv(s) && s.parser.state == 0
    ensures Moved(s.(savedLine := s.current, savedColumn := s.column), Feed(s, Sequence([[]], 115)), s.current,
                  s.column)
  {
    OneParameter([]);
    var saved := s.(savedLine := s.current, savedColumn := s.column);
    KeptInv(s, s.current, s.column);
    ParserApart(s, After([[]]));
    ParserApart(saved, After([[]]));
    CommandFed(s, [[]], 115, saved.(parser := After([[]])));
    TailMoved(saved, saved.(parser := After([[]])), Feed(s, Sequence([[]], 115)));
  }

  lemma KeptInv(s: Screen, line: nat, column: nat)
    requires Inv(s)
    ensures Inv(s.(savedLine := line, savedColumn := column))
  {
  }

  lemma RestoredIsKept(s: Screen)
    requires Inv(s)
    ensures InWindow(s, s.savedLine) >= 0 && InLine(s, s.savedColumn) >= 0
    ensures RestoreCursor(s) == s.(current := InWindow(s, s.savedLine), column := InLine(s, s.savedColumn))
  {
    TopOfWindow(s);
  }

  /** CSI u goes back there, as far as it lies in the window and the columns there are now. */
  lemma RestoresCursor(s: Screen)
    requires Inv(s) && s.parser.state == 0
    ensures Moved(s, Feed(s, Sequence([[]], 117)), InWindow(s, s.savedLine), InLine(s, s.savedColumn))
  {
    OneParameter([]);
    RestoreFed(s, [[]], InWindow(s, s.savedLine), InLine(s, s.savedColumn));
  }

  lemma RestoreFed(s: Screen, list: seq<seq<Byte>>, line: int, column: int)
    requires Inv(s) && s.parser.state == 0 && Parameters(list)
    requires line == InWindow(s, s.savedLine) && column == InLine(s, s.savedColumn)
    ensures Moved(s, Feed(s, Sequence(list, 117)), line, column)
  {
    ParserApart(s, After(list));
    var held := s.(parser := After(list));
    RestoredIsKept(held);
    CommandFed(s, list, 117, RestoreCursor(held));
    TailMoved(s, RestoreCursor(held), Feed(s, Sequence(list, 117)));
  }

  lemma TwoFed(s: Screen, a: Byte, b: Byte)
    requires Inv(s)
    ensures Feed(s, [a, b]) == FeedByte(FeedByte(s, a), b)
  {
    FeedMore(s, [], a);
    FeedMore(s, [a], b);
    assert [] + [a] == [a] && [a] + [b] == [a, b];
  }

  /** ESC 7 keeps where the cursor stands, too. */
  lemma EscapeSaves(s: Screen)
    requires Inv(s) && s.parser.state == 0
    ensures var r := Feed(s, [27, 55]);
            r == s.(savedLine := s.current, savedColumn := s.column, parser := r.parser) && r.parser.state == 0
  {
    TwoFed(s, 27, 55);
  }

  /** And ESC 8 goes back there, but the text does not grow as far as the cursor. */
  lemma EscapeRestores(s: Screen)
    requires Inv(s) && s.parser.state == 0
    ensures InWindow(s, s.savedLine) >= 0 && InLine(s, s.savedColumn) >= 0
    ensures var r := Feed(s, [27, 56]);
            && r == s.(current := InWindow(s, s.savedLine), column := InLine(s, s.savedColumn), parser := r.parser)
            && r.parser.state == 0
  {
    TwoFed(s, 27, 56);
    RestoredIsKept(s);
  }

  /** CSI ? 25 h shows the cursor and CSI ? 25 l hides it. */
  lemma ShowsCursor(s: Screen, letter: Byte)
    requires Inv(s) && s.parser.state == 0 && (letter == 104 || letter == 108)
    ensures var r := Feed(s, [27, 91, 63, 50, 53, letter]);
            r == s.(cursorVisible := letter == 104, parser := r.parser) && r.parser.state == 0
  {
    EscapeRead(s);
    var begun := s.(parser := Parser(2, seq(8, _ => 0), 1, false, false));
    PrivateRead(begun, letter);
    FourFed(begun, 63, 50, 53, letter);
    SixFed(s, begun, 27, 91, 63, 50, 53, letter);
  }

  lemma SixFed(s: Screen, mid: Screen, a: Byte, b: Byte, c: Byte, d: Byte, e: Byte, f: Byte)
    requires Inv(s) && Feed(s, [a, b]) == mid
    ensures Feed(s, [a, b, c, d, e, f]) == Feed(mid, [c, d, e, f])
  {
    FeedSplit(s, [a, b], [c, d, e, f]);
    assert [a, b] + [c, d, e, f] == [a, b, c, d, e, f];
  }

  lemma FourFed(s: Screen, a: Byte, b: Byte, c: Byte, d: Byte)
    requires Inv(s)
    ensures Feed(s, [a, b, c, d]) == FeedByte(FeedByte(FeedByte(FeedByte(s, a), b), c), d)
  {
    TwoFed(s, a, b);
    TwoFed(Feed(s, [a, b]), c, d);
    FeedSplit(s, [a, b], [c, d]);
    assert [a, b] + [c, d] == [a, b, c, d];
  }

  lemma PrivateRead(s: Screen, letter: Byte)
    requires Inv(s) && s.parser == Parser(2, seq(8, _ => 0), 1, false, false) && (letter == 104 || letter == 108)
    ensures var r := FeedByte(FeedByte(FeedByte(FeedByte(s, 63), 50), 53), letter);
            r == s.(cursorVisible := letter == 104, parser := r.parser) && r.parser.state == 0
  {
    var p := s.parser.(isPrivate := true);
    QuestionRead(s);
    NumberRead(s.(parser := p), p);
    PrivateLetter(s.(parser := p.(values := p.values[0 := 25])), letter);
  }

  lemma QuestionRead(s: Screen)
    requires Inv(s) && s.parser == Parser(2, seq(8, _ => 0), 1, false, false)
    ensures FeedByte(s, 63) == s.(parser := s.parser.(isPrivate := true))
  {
  }

  lemma NumberRead(s: Screen, p: Parser)
    requires Inv(s) && s.parser == p && p.state == 2 && !p.invalid && p.count == 1 && p.values[0] == 0
    ensures FeedByte(FeedByte(s, 50), 53) == s.(parser := p.(values := p.values[0 := 25]))
  {
    assert p.values[0 := 0] == p.values;
    OneDigitRead(s, p, 0, 50);
    OneDigitRead(s.(parser := p.(values := p.values[0 := 2])), p, 2, 53);
  }

  lemma PrivateLetter(s: Screen, letter: Byte)
    requires Inv(s) && s.parser.state == 2 && s.parser.isPrivate && !s.parser.invalid
    requires letter == 104 || letter == 108
    requires s.parser.count == 1 && s.parser.values[0] == 25
    ensures FeedByte(s, letter) == s.(cursorVisible := letter == 104, parser := s.parser.(state := 0))
  {
  }

  // ----- Colours -----

  /** The eight colours and their bright forms, as the source has them. */
  function Colour(n: nat): nat
    requires n < 16
  {
    match n
    case 0 => 0x0000 case 1 => 0xf800 case 2 => 0x07e0 case 3 => 0xffe0
    case 4 => 0x001f case 5 => 0xf81f case 6 => 0x07ff case 7 => 0xffff
    case 8 => 0x7bef case 9 => 0xfcb2 case 10 => 0x87f0 case 11 => 0xfff7
    case 12 => 0x867f case 13 => 0xfc1f case 14 => 0x87ff case _ => 0xffff
  }

  /** What one code does to the pen. */
  function Coloured(pen: Pen, code: nat): Pen {
    match code
    case 0 => Pen(0xffff, 0, false)
    case 7 => Pen(pen.foreground, pen.background, true)
    case 27 => Pen(pen.foreground, pen.background, false)
    case 39 => Pen(0xffff, pen.background, pen.reverse)
    case 49 => Pen(pen.foreground, 0, pen.reverse)
    case _ =>
      if 30 <= code < 38 then Pen(Colour(code - 30), pen.background, pen.reverse)
      else if 40 <= code < 48 then Pen(pen.foreground, Colour(code - 40), pen.reverse)
      else if 90 <= code < 98 then Pen(Colour(code - 82), pen.background, pen.reverse)
      else if 100 <= code < 108 then Pen(pen.foreground, Colour(code - 92), pen.reverse)
      else pen
  }

  /** The codes of a list one after the other. */
  function AllColoured(pen: Pen, list: seq<seq<Byte>>): Pen
    requires forall i :: 0 <= i < |list| ==> Decimal(list[i])
  {
    if list == [] then pen
    else Coloured(AllColoured(pen, list[..|list| - 1]), Number(list[|list| - 1]))
  }

  lemma RenditionIs(pen: Pen, code: nat)
    ensures Rendition(pen, code) == Coloured(pen, code)
  {
  }

  lemma {:induction false} RenditionsAre(pen: Pen, list: seq<seq<Byte>>, values: seq<nat>)
    requires forall i :: 0 <= i < |list| ==> Decimal(list[i])
    requires |values| == |list| && forall i :: 0 <= i < |list| ==> values[i] == Number(list[i])
    ensures Renditions(pen, values) == AllColoured(pen, list)
    decreases |list|
  {
    if list != [] {
      var n := |list| - 1;
      RenditionsAre(pen, list[..n], values[..n]);
      RenditionIs(AllColoured(pen, list[..n]), values[n]);
    }
  }

  /** CSI codes m changes the pen code by code, and nothing else. */
  lemma ChangesPen(s: Screen, list: seq<seq<Byte>>)
    requires Inv(s) && s.parser.state == 0 && Parameters(list)
    ensures Moved(s.(pen := AllColoured(s.pen, list)), Feed(s, Sequence(list, 109)), s.current, s.column)
  {
    var held := s.(parser := After(list));
    RenditionsAre(s.pen, list, Values(list)[..|list|]);
    var coloured := s.(pen := AllColoured(s.pen, list));
    SameInv(s, After(list), coloured.pen);
    CommandFed(s, list, 109, held.(pen := AllColoured(s.pen, list)));
    TailMoved(coloured, held.(pen := AllColoured(s.pen, list)), Feed(s, Sequence(list, 109)));
  }

  lemma SameInv(s: Screen, p: Parser, pen: Pen)
    requires Inv(s) && ParserOk(p)
    ensures Inv(s.(parser := p)) && Inv(s.(pen := pen)) && Inv(s.(parser := p, pen := pen))
  {
  }

  // ----- Sequences that are not understood -----

  /** A sequence whose number does not fit 16 bits does nothing. */
  lemma Overflows(s: Screen, digits: seq<Byte>, letter: Byte)
    requires Inv(s) && s.parser.state == 0 && Decimal(digits) && Number(digits) > 65535 && Letter(letter)
    ensures var r := Feed(s, Sequence([digits], letter)); r == s.(parser := r.parser) && r.parser.state == 0
  {
    EscapeRead(s);
    var begun := s.(parser := Parser(2, seq(8, _ => 0), 1, false, false));
    DigitsOverflow(begun, digits);
    var read := Feed(begun, digits);
    InvalidLetter(read, letter);
    FeedThen(s, [27, 91], digits, begun, read);
    FeedMore(s, [27, 91] + digits, letter);
  }

  lemma InvalidLetter(s: Screen, letter: Byte)
    requires Inv(s) && s.parser.state == 2 && s.parser.invalid && Letter(letter)
    ensures FeedByte(s, letter) == s.(parser := s.parser.(state := 0))
  {
  }

  lemma InvalidDigit(s: Screen, b: Byte)
    requires Inv(s) && s.parser.state == 2 && s.parser.invalid && 48 <= b <= 57
    ensures var r := FeedByte(s, b); r == s.(parser := r.parser) && r.parser.state == 2 && r.parser.invalid
  {
  }

  lemma DigitTooMany(s: Screen, p: Parser, value: nat, b: Byte)
    requires Inv(s) && ParserOk(p) && p.state == 2 && 48 <= b <= 57 && value <= 65535 < value * 10 + (b - 48)
    requires s.parser == p.(values := p.values[p.count - 1 := value])
    ensures var r := FeedByte(s, b); r == s.(parser := r.parser) && r.parser.state == 2 && r.parser.invalid
  {
  }

  lemma {:induction false} DigitsOverflow(s: Screen, digits: seq<Byte>)
    requires Reading(s) && Decimal(digits) && Number(digits) > 65535
    ensures var r := Feed(s, digits); r == s.(parser := r.parser) && r.parser.state == 2 && r.parser.invalid
    decreases |digits|
  {
    var p, front, b := s.parser, digits[..|digits| - 1], digits[|digits| - 1];
    if Number(front) > 65535 {
      DigitsOverflow(s, front);
      InvalidDigit(Feed(s, front), b);
    } else {
      DigitsRead(s, front);
      DigitTooMany(Feed(s, front), p, Number(front), b);
    }
  }

  /** The letters of the commands there are. */
  predicate Known(letter: Byte) {
    letter in [65, 66, 67, 68, 71, 72, 74, 75, 102, 109, 115, 117]
  }

  lemma UnknownMovesNothing(s: Screen, letter: Byte)
    requires Inv(s) && !Known(letter)
    ensures PublicCommand(s, letter) == s
  {
  }

  /** A command there is none of does nothing. */
  lemma UnknownCommand(s: Screen, list: seq<seq<Byte>>, letter: Byte)
    requires Inv(s) && s.parser.state == 0 && Parameters(list) && Letter(letter) && !Known(letter)
    ensures Moved(s, Feed(s, Sequence(list, letter)), s.current, s.column)
  {
    ParserApart(s, After(list));
    var held := s.(parser := After(list));
    UnknownMovesNothing(held, letter);
    CommandFed(s, list, letter, held);
    TailMoved(s, held, Feed(s, Sequence(list, letter)));
  }

  /** ESC before any other byte is forgotten with it, and NUL is nothing anywhere. */
  lemma OtherEscape(s: Screen, b: Byte)
    requires Inv(s)
    ensures FeedByte(s, 0) == s
    ensures s.parser.state == 0 && b !in [0, 55, 56, 91] ==>
              var r := Feed(s, [27, b]); r == s.(parser := r.parser) && r.parser.state == 0
  {
    TwoFed(s, 27, b);
  }

  /** Inside a control sequence: a byte that is no letter, digit, semicolon or question mark, a question mark anywhere
      but right after the bracket, and a ninth parameter spoil it. */
  lemma SpoiledBy(s: Screen, b: Byte)
    requires Inv(s) && s.parser.state == 2 && b != 0 && !Letter(b) && !(48 <= b <= 57)
    requires if b == 59 then s.parser.count == 8
             else b == 63 ==> s.parser.count > 1 || s.parser.values[0] != 0 || s.parser.isPrivate
    ensures var r := FeedByte(s, b); r == s.(parser := r.parser) && r.parser.state == 2 && r.parser.invalid
  {
  }

  lemma SpoiledByte(s: Screen, b: Byte)
    requires Inv(s) && s.parser.state == 2 && s.parser.invalid && !Letter(b)
    ensures var r := FeedByte(s, b); r == s.(parser := r.parser) && r.parser.state == 2 && r.parser.invalid
  {
  }

  lemma {:induction false} SpoiledStays(s: Screen, bytes: seq<Byte>)
    requires Inv(s) && s.parser.state == 2 && s.parser.invalid && forall i :: 0 <= i < |bytes| ==> !Letter(bytes[i])
    ensures var r := Feed(s, bytes); r == s.(parser := r.parser) && r.parser.state == 2 && r.parser.invalid
    decreases |bytes|
  {
    if |bytes| > 0 {
      SpoiledStays(s, bytes[..|bytes| - 1]);
      SpoiledByte(Feed(s, bytes[..|bytes| - 1]), bytes[|bytes| - 1]);
    }
  }

  /** A spoiled sequence goes on to its letter and does nothing. */
  lemma SpoiledDoesNothing(s: Screen, bytes: seq<Byte>, letter: Byte)
    requires Inv(s) && s.parser.state == 2 && s.parser.invalid && Letter(letter)
    requires forall i :: 0 <= i < |bytes| ==> !Letter(bytes[i])
    ensures var r := Feed(s, bytes + [letter]); r == s.(parser := r.parser) && r.parser.state == 0
  {
    SpoiledStays(s, bytes);
    FeedMore(s, bytes, letter);
    InvalidLetter(Feed(s, bytes), letter);
  }

  /** A private sequence that is neither of the two does nothing. */
  lemma PrivateIgnored(s: Screen, letter: Byte)
    requires Inv(s) && s.parser.state == 2 && s.parser.isPrivate && Letter(letter)
    requires letter !in [104, 108] || s.parser.count != 1 || s.parser.values[0] != 25
    ensures FeedByte(s, letter) == s.(parser := s.parser.(state := 0))
  {
  }

  // ----- Bytes of text -----

  /** A carriage return goes to the start of the line; a tab goes to the next column that is a multiple of four, over
      spaces in the colours of the pen. */
  lemma ReturnGoesBack(s: Screen)
    requires Inv(s) && s.parser.state == 0
    ensures FeedByte(s, 13) == s.(column := 0)
  {
  }

  /** The cells from a column on, before another, are spaces in the colours of the pen. */
  predicate Spaced(was: seq<Cell>, now: seq<Cell>, from: nat, end: nat, pen: Pen) {
    && end <= |now| == |was|
    && forall c :: 0 <= c < |now| ==>
         now[c] == if from <= c < end then Cell(32, pen.foreground, pen.background, pen.reverse) else was[c]
  }

  lemma OneMoreSpace(was: seq<Cell>, now: seq<Cell>, from: nat, end: nat, pen: Pen)
    requires Spaced(was, now, from, end, pen) && from <= end < |now|
    ensures Spaced(was, now[end := Cell(32, pen.foreground, pen.background, pen.reverse)], from, end + 1, pen)
  {
  }

  /** The cursor stands at a column of a line that has spaces behind it from another column on, where the line held
      other cells before. */
  ghost predicate SpacesBehind(s: Screen, was: seq<Cell>, line: nat, from: nat, column: int, pen: Pen) {
    && Inv(s) && from <= s.column == column && s.current == line && s.pen == pen
    && Spaced(was, s.At(line).cells, from, s.column, pen)
  }

  lemma SpacePut(s: Screen)
    requires Inv(s) && s.column + 1 < s.columns
    ensures var r := PutCharacter(s, 32);
            && r.Shape() && r.current == s.current && r.column == s.column + 1 && r.pen == s.pen
            && r.At(s.current).cells
               == s.At(s.current).cells[s.column := Cell(32, s.pen.foreground, s.pen.background, s.pen.reverse)]
  {
  }

  lemma MoreSpaces(s: Screen, was: seq<Cell>, line: nat, from: nat, column: int, pen: Pen, r: Screen)
    requires SpacesBehind(s, was, line, from, column, pen) && column + 1 < s.columns && r == PutCharacter(s, 32)
    ensures SpacesBehind(r, was, line, from, column + 1, pen)
  {
    SpacePut(s);
    OneMoreSpace(was, s.At(s.current).cells, from, s.column, s.pen);
  }

  lemma OneMorePut(s: Screen, count: nat)
    requires Inv(s) && count > 0
    ensures PutSpaces(s, count) == PutCharacter(PutSpaces(s, count - 1), 32)
    ensures PutSpaces(s, count - 1).columns == s.columns
  {
  }

  lemma NonePut(s: Screen, was: seq<Cell>)
    requires Inv(s) && was == s.At(s.current).cells
    ensures SpacesBehind(PutSpaces(s, 0), was, s.current, s.column, s.column, s.pen)
  {
  }

  lemma MorePut(s: Screen, was: seq<Cell>, line: nat, from: nat, column: int, pen: Pen, count: nat)
    requires Inv(s) && count > 0 && SpacesBehind(PutSpaces(s, count - 1), was, line, from, column, pen)
    requires column + 1 < s.columns
    ensures SpacesBehind(PutSpaces(s, count), was, line, from, column + 1, pen)
  {
    OneMorePut(s, count);
    MoreSpaces(PutSpaces(s, count - 1), was, line, from, column, pen, PutSpaces(s, count));
  }

  lemma {:induction false} SpacesPut(s: Screen, was: seq<Cell>, count: nat, column: int)
    requires Inv(s) && was == s.At(s.current).cells && column == s.column + count && column < s.columns
    ensures SpacesBehind(PutSpaces(s, count), was, s.current, s.column, column, s.pen)
    decreases count
  {
    if count == 0 {
      NonePut(s, was);
    } else {
      SpacesPut(s, was, count - 1, column - 1);
      MorePut(s, was, s.current, s.column, column - 1, s.pen, count);
    }
  }

  lemma TabRead(s: Screen)
    requires Inv(s) && s.parser.state == 0
    ensures FeedByte(s, 9) == Tab(s)
  {
  }

  lemma TabPuts(s: Screen, count: nat)
    requires Inv(s) && count == 4 - s.column % 4
    ensures Tab(s) == PutSpaces(s, count)
  {
  }

  lemma NextStop(column: nat)
    ensures column + (4 - column % 4) == column / 4 * 4 + 4
  {
  }

  lemma TabGoesOn(s: Screen)
    requires Inv(s) && s.parser.state == 0 && s.column / 4 * 4 + 4 < s.columns
    ensures SpacesBehind(FeedByte(s, 9), s.At(s.current).cells, s.current, s.column, s.column / 4 * 4 + 4, s.pen)
  {
    NextStop(s.column);
    var count := 4 - s.column % 4;
    TabRead(s);
    TabPuts(s, count);
    SpacesPut(s, s.At(s.current).cells, count, s.column / 4 * 4 + 4);
  }

  /** Scrolling moves the viewport by that many lines, as far as there are retained lines above the window. */
  lemma ScrollsWithin(s: Screen, lines: int)
    requires Inv(s)
    ensures var at := s.viewport + lines;
            ScrollLines(s, lines).viewport
            == if at > WindowTop(s) then WindowTop(s) else if at < s.first then s.first else at
  {
    TopOfWindow(s);
  }

  // ----- What a resize leaves of everything but the text -----

  /** Where the cursor was kept, and whether it is shown. */
  predicate SameKept(a: Screen, b: Screen) {
    b.savedLine == a.savedLine && b.savedColumn == a.savedColumn && b.cursorVisible == a.cursorVisible
  }

  lemma BreakKeeps(s: Screen, hardBreak: bool)
    requires Inv(s)
    ensures SameKept(s, AppendLine(s, hardBreak))
  {
  }

  lemma CharacterKeeps(s: Screen, character: Byte)
    requires Inv(s) && character != NUL
    ensures SameKept(s, PutCharacter(s, character))
  {
    BreakKeeps(Ink(s, character), false);
  }

  lemma TokenKeeps(s: Screen, t: Token)
    requires Inv(s) && Printable(t)
    ensures SameKept(s, FeedToken(s, t))
  {
    match t
    case Break => BreakKeeps(s, true);
    case Glyph(cell) => CharacterKeeps(s.(pen := PenOf(cell)), cell.character);
  }

  lemma {:induction false} TokensKeep(s: Screen, ts: seq<Token>)
    requires Inv(s) && forall t :: t in ts ==> Printable(t)
    ensures SameKept(s, FeedTokens(s, ts))
  {
    if |ts| > 0 {
      var t := ts[|ts| - 1];
      assert t in ts;
      TokensKeep(s, ts[..|ts| - 1]);
      TokenKeeps(FeedTokens(s, ts[..|ts| - 1]), t);
    }
  }

  /** The view is as far from the live end as before, or as far as there are lines before it; the colours and whether
      the cursor is shown stay, and a kept position and a sequence half read are forgotten. */
  lemma ResizeKeepsView(s: Screen, columns: nat, rows: nat, scrollback: nat)
    requires Inv(s) && columns > 0 && rows > 0 && scrollback > 0
    ensures var r := Resize(s, columns, rows, scrollback);
            var back, most := WindowTop(s) - s.viewport, WindowTop(r) - r.first;
            && r.viewport == WindowTop(r) - (if back < most then back else most)
            && r.row == r.current - WindowTop(r)
            && r.pen == s.pen && r.cursorVisible == s.cursorVisible
            && r.savedLine == 0 && r.savedColumn == 0 && r.parser.state == 0
  {
    TokensPrintable(s, s.first, s.last + 1);
    var target := TerminalReflow.Target(s, columns, rows, scrollback);
    var flowed := FeedTokens(target, Tokens(s));
    TokensKeep(target, Tokens(s));
    RescrolledView(s, flowed);
  }

  lemma RescrolledView(s: Screen, flowed: Screen)
    requires Inv(s) && Inv(flowed)
    ensures var r := Rescroll(s, flowed);
            var back, most := WindowTop(s) - s.viewport, WindowTop(r) - r.first;
            && r.viewport == WindowTop(r) - (if back < most then back else most)
            && r.row == r.current - WindowTop(r) && r.pen == s.pen && SameKept(flowed, r) && r.parser == flowed.parser
  {
    TopOfWindow(s);
    TopOfWindow(Rescroll(s, flowed));
  }
}
