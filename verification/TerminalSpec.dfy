/** The terminal of graphics/terminal.c as a value: a ring of lines, a cursor, a pen
    and an escape-sequence parser.  Every operation is a total function on valid
    screens whose result is again a valid screen, so `Inv` holds after any byte string. */
module TerminalSpec {
  type Byte = x: int | 0 <= x < 256

  const NUL: Byte := 0
  const SPACE: Byte := 32
  const ESC: Byte := 0x1b

  /** All-zero cells are what the source's memset and `(terminal_cell_t) {0}` leave behind. */
  datatype Cell = Cell(character: Byte, foreground: nat, background: nat, reverse: bool)

  const BLANK := Cell(NUL, 0, 0, false)

  datatype Line = Line(cells: seq<Cell>, length: nat, hardBreak: bool)

  datatype Pen = Pen(foreground: nat, background: nat, reverse: bool)

  const DEFAULT_PEN := Pen(0xffff, 0x0000, false)

  /** `state` is 0 outside escapes, 1 after ESC, 2 inside a control sequence. */
  datatype Parser = Parser(state: nat, values: seq<nat>, count: nat, isPrivate: bool, invalid: bool)

  const VALUE_SLOTS := 8
  const VALUE_MAX := 0xffff
  const IDLE_PARSER := Parser(0, seq(VALUE_SLOTS, _ => 0), 0, false, false)

  function BlankLine(columns: nat): Line {
    Line(seq(columns, _ => BLANK), 0, false)
  }

  function Min(a: nat, b: nat): nat {
    if a < b then a else b
  }

  datatype Screen = Screen(
    columns: nat, rows: nat, capacity: nat,
    column: nat, row: nat, first: nat, current: nat, last: nat, viewport: nat,
    lines: seq<Line>, pen: Pen, parser: Parser,
    savedColumn: nat, savedLine: nat, cursorVisible: bool)
  {
    /** First line of the live window: never before the oldest retained line. */
    function Top(): nat {
      var visible := if last + 1 > rows then last + 1 - rows else 0;
      if visible > first then visible else first
    }

    /** Every geometry has at least one column, one row and one line of scrollback. */
    predicate Shape() {
      columns > 0 && rows > 0 && capacity > rows && |lines| == capacity
    }

    function Slot(line: nat): (slot: nat)
      requires Shape()
      ensures slot < |lines|
    {
      line % capacity
    }

    function At(line: nat): Line
      requires Shape()
    {
      lines[Slot(line)]
    }

    function SetLine(line: nat, value: Line): Screen
      requires Shape()
    {
      this.(lines := lines[Slot(line) := value])
    }
  }

  /** Cells at or past the length are blank, and only blank cells hold NUL. */
  ghost predicate LineOk(line: Line, columns: nat) {
    && |line.cells| == columns
    && line.length <= columns
    && (forall c :: line.length <= c < columns ==> line.cells[c] == BLANK)
    && (forall c :: 0 <= c < columns && line.cells[c].character == NUL ==> line.cells[c] == BLANK)
  }

  ghost predicate ParserOk(p: Parser) {
    && p.state <= 2
    && |p.values| == VALUE_SLOTS
    && p.count <= VALUE_SLOTS
    && (p.state == 2 ==> p.count >= 1)
    && (forall i :: 0 <= i < |p.values| ==> p.values[i] <= VALUE_MAX)
  }

  ghost predicate Core(s: Screen) {
    && s.Shape()
    && s.column < s.columns
    && s.first <= s.last
    && s.last - s.first < s.capacity
    && s.Top() <= s.current < s.Top() + s.rows
    && (forall i :: 0 <= i < |s.lines| ==> LineOk(s.lines[i], s.columns))
    && ParserOk(s.parser)
  }

  ghost predicate Inv(s: Screen) {
    Core(s) && s.first <= s.viewport <= s.Top()
  }

  ghost predicate SameShape(s: Screen, r: Screen) {
    s.columns == r.columns && s.rows == r.rows && s.capacity == r.capacity
  }

  function Fresh(columns: nat, rows: nat, scrollback: nat): (s: Screen)
    requires columns > 0 && rows > 0 && scrollback > 0
    ensures Inv(s)
  {
    Screen(columns, rows, rows + scrollback, 0, 0, 0, 0, 0, 0,
           seq(rows + scrollback, _ => BlankLine(columns)), DEFAULT_PEN, IDLE_PARSER, 0, 0, false)
  }

  function Follow(s: Screen): (r: Screen)
    requires Core(s)
    ensures Inv(r)
  {
    s.(viewport := s.Top(), row := s.current - s.Top())
  }

  /** Move the cursor to the start of the next line, evicting the oldest line of a full ring. */
  function StepLine(s: Screen): (r: Screen)
    requires s.Shape() && s.first <= s.current
    ensures r.Shape() && SameShape(s, r)
  {
    var current := s.current + 1;
    s.(first := if current - s.first + 1 > s.capacity then s.first + 1 else s.first,
       current := current, column := 0)
  }

  /** A cursor past the tail becomes the tail, on an empty line. */
  function CoverCursor(s: Screen): (r: Screen)
    requires s.Shape()
    ensures r.Shape() && SameShape(s, r)
  {
    if s.current > s.last then s.(last := s.current).SetLine(s.current, BlankLine(s.columns)) else s
  }

  /** Close the cursor's line and move to the start of the next, turning the ring when full. */
  function NextLine(s: Screen, hardBreak: bool): (r: Screen)
    requires Inv(s)
    ensures Core(r) && SameShape(s, r)
    ensures r.current <= r.last
    ensures r.parser == s.parser && r.pen == s.pen
  {
    CoverCursor(StepLine(s.SetLine(s.current, s.At(s.current).(hardBreak := hardBreak))))
  }

  function AppendLine(s: Screen, hardBreak: bool): (r: Screen)
    requires Inv(s)
    ensures Inv(r) && SameShape(s, r)
    ensures r.current <= r.last
    ensures r.parser == s.parser && r.pen == s.pen
  {
    Follow(NextLine(s, hardBreak))
  }

  /** Write a character under the cursor and lengthen the line over it. */
  function Ink(s: Screen, character: Byte): (r: Screen)
    requires Inv(s) && character != NUL
    ensures Inv(r) && SameShape(s, r)
    ensures r.parser == s.parser && r.pen == s.pen
    ensures r.column == s.column && r.current == s.current && r.last == s.last
  {
    var line := s.At(s.current);
    var cell := Cell(character, s.pen.foreground, s.pen.background, s.pen.reverse);
    var length := if line.length < s.column + 1 then s.column + 1 else line.length;
    s.SetLine(s.current, line.(cells := line.cells[s.column := cell], length := length))
  }

  function PutCharacter(s: Screen, character: Byte): (r: Screen)
    requires Inv(s) && character != NUL
    ensures Inv(r) && SameShape(s, r)
    ensures s.current <= s.last ==> r.current <= r.last
    ensures r.parser == s.parser && r.pen == s.pen
  {
    var inked := Ink(s, character);
    if s.column + 1 >= s.columns then AppendLine(inked, false) else inked.(column := s.column + 1)
  }

  /** Length of the shortest prefix of `cells[..length]` that keeps every non-NUL cell. */
  function Trimmed(cells: seq<Cell>, length: nat): (r: nat)
    requires length <= |cells|
    ensures r <= length
    ensures forall c :: r <= c < length ==> cells[c].character == NUL
    ensures r > 0 ==> cells[r - 1].character != NUL
  {
    if length > 0 && cells[length - 1].character == NUL then Trimmed(cells, length - 1) else length
  }

  function TrimLine(line: Line): Line
    requires line.length <= |line.cells|
  {
    line.(length := Trimmed(line.cells, line.length))
  }

  /** Erase the cell left of the cursor, which may stand just past the last column. */
  function EraseLeft(s: Screen): (r: Screen)
    requires Core(s.(column := 0)) && 0 < s.column <= s.columns
    ensures Core(r) && SameShape(s, r) && r.first == s.first
    ensures r.parser == s.parser
  {
    var line := s.At(s.current);
    var erased := line.(cells := line.cells[s.column - 1 := BLANK]);
    s.SetLine(s.current, TrimLine(erased)).(column := s.column - 1)
  }

  /** Leave the cursor's line, emptied; a tail left this way is given up. */
  function LeaveLine(s: Screen): (r: Screen)
    requires Inv(s) && s.current > s.first
    ensures r.Shape() && SameShape(s, r)
  {
    s.SetLine(s.current, BlankLine(s.columns))
     .(last := if s.last == s.current then s.last - 1 else s.last, current := s.current - 1)
  }

  /** Step back over a line start: the left line is cleared, the previous one becomes soft. */
  function JoinPrevious(s: Screen): (r: Screen)
    requires Inv(s) && s.column == 0 && s.current > s.first
    requires !(s.current == s.Top() && s.current < s.last)
    ensures Core(r.(column := 0)) && r.column <= r.columns && SameShape(s, r) && r.first == s.first
    ensures r.parser == s.parser
  {
    var left := LeaveLine(s);
    var previous := left.At(left.current);
    left.SetLine(left.current, previous.(hardBreak := false)).(column := Min(previous.length, s.columns))
  }

  /** Erase to the left unless the cursor stands at the start of its line. */
  function EraseAndFollow(s: Screen): (r: Screen)
    requires Core(s.(column := 0)) && s.column <= s.columns
    ensures Inv(r) && SameShape(s, r)
    ensures r.parser == s.parser && r.current == s.current && r.last == s.last
  {
    assert s.column == 0 ==> s == s.(column := 0);
    Follow(if s.column > 0 then EraseLeft(s) else s)
  }

  function Backspace(s: Screen): (r: Screen)
    requires Inv(s)
    ensures Inv(r) && SameShape(s, r)
    ensures s.current <= s.last ==> r.current <= r.last
    ensures r.parser == s.parser
  {
    if s.column > 0 then EraseAndFollow(s)
    else if s.current == s.first || (s.current == s.Top() && s.current < s.last) then s
    else EraseAndFollow(JoinPrevious(s))
  }

  function PutSpaces(s: Screen, count: nat): (r: Screen)
    requires Inv(s)
    ensures Inv(r) && SameShape(s, r)
    ensures s.current <= s.last ==> r.current <= r.last
    ensures r.parser == s.parser
    decreases count
  {
    if count == 0 then s else PutCharacter(PutSpaces(s, count - 1), SPACE)
  }

  function Tab(s: Screen): (r: Screen)
    requires Inv(s)
    ensures Inv(r) && SameShape(s, r)
    ensures s.current <= s.last ==> r.current <= r.last
    ensures r.parser == s.parser
  {
    PutSpaces(s, 4 - s.column % 4)
  }

  // ----- Control sequences -----

  const PALETTE: seq<nat> := [
    0x0000, 0xf800, 0x07e0, 0xffe0, 0x001f, 0xf81f, 0x07ff, 0xffff,
    0x7bef, 0xfcb2, 0x87f0, 0xfff7, 0x867f, 0xfc1f, 0x87ff, 0xffff]

  function Rendition(pen: Pen, value: nat): Pen {
    if value == 0 then DEFAULT_PEN
    else if 30 <= value <= 37 then pen.(foreground := PALETTE[value - 30])
    else if 90 <= value <= 97 then pen.(foreground := PALETTE[value - 90 + 8])
    else if 40 <= value <= 47 then pen.(background := PALETTE[value - 40])
    else if 100 <= value <= 107 then pen.(background := PALETTE[value - 100 + 8])
    else if value == 39 then pen.(foreground := 0xffff)
    else if value == 49 then pen.(background := 0x0000)
    else if value == 7 then pen.(reverse := true)
    else if value == 27 then pen.(reverse := false)
    else pen
  }

  function Renditions(pen: Pen, values: seq<nat>): Pen {
    if values == [] then pen
    else Rendition(Renditions(pen, values[..|values| - 1]), values[|values| - 1])
  }

  /** The saved line clamped to the live window. */
  function RestoredLine(s: Screen): nat
    requires Inv(s)
  {
    if s.savedLine < s.Top() then s.Top() else Min(s.savedLine, s.Top() + s.rows - 1)
  }

  /** Note that nothing here moves `last`: see RestoreOutrunsTail. */
  function RestoreCursor(s: Screen): (r: Screen)
    requires Inv(s)
    ensures Inv(r) && SameShape(s, r)
    ensures r.parser == s.parser && r.last == s.last && r.first == s.first
  {
    s.(column := if s.savedColumn < s.columns then s.savedColumn else s.columns - 1,
       current := RestoredLine(s))
  }

  function SaveCursor(s: Screen): (r: Screen)
    requires Inv(s)
    ensures Inv(r) && SameShape(s, r)
    ensures r.parser == s.parser && r.current == s.current && r.last == s.last
  {
    s.(savedColumn := s.column, savedLine := s.current)
  }

  function Clear(s: Screen): (r: Screen)
    requires s.Shape() && ParserOk(s.parser)
    ensures Inv(r) && SameShape(s, r)
    ensures r.parser == s.parser && r.current == r.last
  {
    s.(lines := seq(s.capacity, _ => BlankLine(s.columns)),
       column := 0, row := 0, first := 0, current := 0, last := 0, viewport := 0)
  }

  /** A line without its cells from a column on. */
  function Blanked(line: Line, start: nat): Line {
    var kept := seq(|line.cells|, c requires 0 <= c < |line.cells| => if c < start then line.cells[c] else BLANK);
    line.(cells := kept, length := start)
  }

  /** Erase the cursor's line, from the cursor on or (value 2) entirely. */
  function EraseLine(s: Screen, value: nat): (r: Screen)
    requires Inv(s)
    ensures Inv(r) && SameShape(s, r)
    ensures r.parser == s.parser && r.current == s.current && r.last == s.last
  {
    s.SetLine(s.current, Blanked(s.At(s.current), if value == 2 then 0 else s.column))
  }

  /** Take the line after the tail in, empty. */
  function TakeIn(s: Screen): Screen
    requires s.Shape()
  {
    s.(last := s.last + 1).SetLine(s.last + 1, BlankLine(s.columns))
  }

  /** Bring the tail up to the cursor, clearing each line it takes in. */
  function ExtendTail(s: Screen): (r: Screen)
    requires Inv(s)
    ensures Inv(r) && SameShape(s, r) && r.Top() == s.Top()
    ensures r.parser == s.parser && r.current == s.current <= r.last
    decreases s.current - s.last
  {
    if s.last < s.current then
      ExtendTail(TakeIn(s))
    else s
  }

  lemma ExtendStep(s: Screen)
    requires Inv(s) && s.last < s.current
    ensures Inv(TakeIn(s)) && ExtendTail(s) == ExtendTail(TakeIn(s))
  {
  }

  /** Where an absolute or relative cursor command puts the cursor, as (line, column). */
  function Target(s: Screen, command: Byte): (t: (nat, nat))
    requires Inv(s)
    ensures s.Top() <= t.0 < s.Top() + s.rows && t.1 < s.columns
  {
    var value := s.parser.values[0];
    var amount := if value == 0 then 1 else value;
    if command == 'H' as int || command == 'f' as int then
      var column := if s.parser.count > 1 && s.parser.values[1] > 0 then s.parser.values[1] - 1 else 0;
      (s.Top() + Min(amount - 1, s.rows - 1), Min(column, s.columns - 1))
    else if command == 'A' as int then (s.current - Min(amount, s.current - s.Top()), s.column)
    else if command == 'B' as int then (s.current + Min(amount, s.Top() + s.rows - 1 - s.current), s.column)
    else if command == 'C' as int then (s.current, s.column + Min(amount, s.columns - 1 - s.column))
    else if command == 'D' as int then (s.current, s.column - Min(amount, s.column))
    else if command == 'G' as int then (s.current, Min(amount - 1, s.columns - 1))
    else (s.current, s.column)
  }

  function MoveCursor(s: Screen, command: Byte): (r: Screen)
    requires Inv(s)
    ensures Inv(r) && SameShape(s, r)
    ensures r.parser == s.parser
  {
    s.(current := Target(s, command).0, column := Target(s, command).1)
  }

  function PrivateCommand(s: Screen, command: Byte): (r: Screen)
    requires Inv(s)
    ensures Inv(r) && SameShape(s, r)
    ensures r.parser == s.parser && r.current == s.current && r.last == s.last
  {
    if s.parser.count == 1 && s.parser.values[0] == 25 && (command == 'h' as int || command == 'l' as int)
    then s.(cursorVisible := command == 'h' as int)
    else s
  }

  function PublicCommand(s: Screen, command: Byte): (r: Screen)
    requires Inv(s)
    ensures Inv(r) && SameShape(s, r)
    ensures r.parser == s.parser
  {
    if command == 'J' as int && s.parser.values[0] == 2 then Clear(s)
    else if command == 'K' as int then EraseLine(s, s.parser.values[0])
    else if command == 'm' as int then s.(pen := Renditions(s.pen, s.parser.values[..s.parser.count]))
    else if command == 's' as int then SaveCursor(s)
    else if command == 'u' as int then RestoreCursor(s)
    else MoveCursor(s, command)
  }

  function AnsiCommand(s: Screen, command: Byte): (r: Screen)
    requires Inv(s)
    ensures Inv(r) && SameShape(s, r)
    ensures r.parser == s.parser
    ensures !s.parser.isPrivate ==> r.current <= r.last
  {
    if s.parser.isPrivate then PrivateCommand(s, command) else ExtendTail(PublicCommand(s, command))
  }

  function SetParser(s: Screen, p: Parser): (r: Screen)
    requires Inv(s) && ParserOk(p)
    ensures Inv(r) && SameShape(s, r) && r.parser == p
    ensures r.current == s.current && r.last == s.last
  {
    s.(parser := p)
  }

  /** A byte after ESC. */
  function EscapeByte(s: Screen, b: Byte): (r: Screen)
    requires Inv(s) && s.parser.state == 1
    ensures Inv(r) && SameShape(s, r)
  {
    if b == '[' as int then SetParser(s, Parser(2, seq(VALUE_SLOTS, _ => 0), 1, false, false))
    else
      var idle := SetParser(s, s.parser.(state := 0));
      if b == '7' as int then SaveCursor(idle)
      else if b == '8' as int then RestoreCursor(idle)
      else idle
  }

  function Digit(p: Parser, digit: nat): (r: Parser)
    requires ParserOk(p) && p.state == 2 && digit <= 9
    ensures ParserOk(r) && r.state == 2
  {
    var value := p.values[p.count - 1];
    if value > (VALUE_MAX - digit) / 10 then p.(invalid := true)
    else p.(values := p.values[p.count - 1 := value * 10 + digit])
  }

  /** The byte that ends a control sequence. */
  function FinalByte(s: Screen, b: Byte): (r: Screen)
    requires Inv(s)
    ensures Inv(r) && SameShape(s, r)
  {
    SetParser(if s.parser.invalid then s else AnsiCommand(s, b), s.parser.(state := 0))
  }

  /** A byte inside a control sequence. */
  function ControlByte(s: Screen, b: Byte): (r: Screen)
    requires Inv(s) && s.parser.state == 2
    ensures Inv(r) && SameShape(s, r)
  {
    var p := s.parser;
    if '0' as int <= b <= '9' as int then SetParser(s, Digit(p, b - '0' as int))
    else if b == ';' as int then
      SetParser(s, if p.count == VALUE_SLOTS then p.(invalid := true) else p.(count := p.count + 1))
    else if b == '?' as int && p.count == 1 && p.values[0] == 0 && !p.isPrivate then
      SetParser(s, p.(isPrivate := true))
    else if b < 0x40 || b > 0x7e then SetParser(s, p.(invalid := true))
    else FinalByte(s, b)
  }

  function TextByte(s: Screen, b: Byte): (r: Screen)
    requires Inv(s) && s.parser.state == 0 && b != NUL
    ensures Inv(r) && SameShape(s, r)
  {
    if b == ESC then SetParser(s, s.parser.(state := 1))
    else if b == '\n' as int then AppendLine(s, true)
    else if b == '\r' as int then s.(column := 0)
    else if b == 8 || b == 0x7f then Backspace(s)
    else if b == '\t' as int then Tab(s)
    else PutCharacter(s, b)
  }

  function FeedByte(s: Screen, b: Byte): (r: Screen)
    requires Inv(s)
    ensures Inv(r) && SameShape(s, r)
  {
    if b == NUL then s
    else if s.parser.state == 1 then EscapeByte(s, b)
    else if s.parser.state == 2 then ControlByte(s, b)
    else TextByte(s, b)
  }

  /** Every byte string keeps the invariant, from any valid screen. */
  function Feed(s: Screen, bytes: seq<Byte>): (r: Screen)
    requires Inv(s)
    ensures Inv(r) && SameShape(s, r)
  {
    if bytes == [] then s
    else FeedByte(Feed(s, bytes[..|bytes| - 1]), bytes[|bytes| - 1])
  }

  /** terminal_write_bytes: feed, then return the viewport to the live end. */
  function WriteBytes(s: Screen, bytes: seq<Byte>): (r: Screen)
    requires Inv(s)
    ensures Inv(r) && SameShape(s, r)
    ensures r.viewport == r.Top() && r.row == r.current - r.Top() < r.rows
  {
    Follow(Feed(s, bytes))
  }

  /** terminal_scroll_lines: move the viewport inside the retained history. */
  function ScrollLines(s: Screen, lines: int): (r: Screen)
    requires Inv(s)
    ensures Inv(r) && SameShape(s, r)
    ensures s.first <= s.viewport + lines <= s.Top() ==> r.viewport == s.viewport + lines
    ensures r == s.(viewport := r.viewport)
  {
    var desired := s.viewport + lines;
    s.(viewport := if desired < s.first then s.first else if desired > s.Top() then s.Top() else desired)
  }

  // ----- The one command that leaves the cursor past the tail -----

  /** One byte keeps the cursor at or before the last line exactly when it is not an
      ESC 8 whose saved line, clamped to the live window, lies past the last line. */
  lemma TailCoversCursor(s: Screen, b: Byte)
    requires Inv(s) && s.current <= s.last
    ensures FeedByte(s, b).current <= FeedByte(s, b).last
       <==> !(s.parser.state == 1 && b == '8' as int && RestoredLine(s) > s.last)
  {
    var idle := if s.parser.state == 1 then SetParser(s, s.parser.(state := 0)) else s;
    assert RestoredLine(idle) == RestoredLine(s);
  }

  lemma FeedOne(s: Screen, bytes: seq<Byte>, b: Byte)
    requires Inv(s)
    ensures Feed(s, bytes + [b]) == FeedByte(Feed(s, bytes), b)
  {
    assert (bytes + [b])[..|bytes + [b]| - 1] == bytes;
  }

  /** A fresh terminal fed a newline and ESC 7. */
  lemma SaveOnSecondLine(s: Screen)
    requires s == Fresh(80, 24, 256)
    ensures var r := Feed(s, ['\n' as int, ESC, '7' as int]);
            && r.savedLine == r.current == r.last == 1 && r.first == r.Top() == 0 && r.column == 0
            && r.parser.state == 0 && r.rows == 24 && r.capacity == 280 && r.columns == 80
            && r.At(0).length == 0
  {
    FeedOne(s, [], '\n' as int);
    var a := AppendLine(s, true);
    assert a.At(0).length == 0;
    FeedOne(s, ['\n' as int], ESC);
    FeedOne(s, ['\n' as int, ESC], '7' as int);
    assert [] + ['\n' as int] == ['\n' as int];
    assert ['\n' as int] + [ESC] == ['\n' as int, ESC];
    assert ['\n' as int, ESC] + ['7' as int] == ['\n' as int, ESC, '7' as int];
  }

  /** Newline, ESC 7, backspace, ESC 8: the cursor is on line 1 while the tail is line 0. */
  lemma RestoreOutrunsTail()
    ensures var r := Feed(Fresh(80, 24, 256), ['\n' as int, ESC, '7' as int] + [8] + [ESC] + ['8' as int]);
            r.current == 1 && r.last == 0
  {
    var s := Fresh(80, 24, 256);
    var bytes: seq<Byte> := ['\n' as int, ESC, '7' as int];
    SaveOnSecondLine(s);
    BackspaceToFirstLine(Feed(s, bytes));
    FeedOne(s, bytes, 8);
    FeedOne(s, bytes + [8], ESC);
    FeedOne(s, bytes + [8] + [ESC], '8' as int);
    RestoreToSecondLine(Feed(s, bytes + [8]));
  }

  lemma RestoreToSecondLine(s: Screen)
    requires Inv(s) && s.parser.state == 0 && s.savedLine == 1 && s.last == 0 && s.first == 0 && s.rows == 24
    ensures var r := FeedByte(FeedByte(s, ESC), '8' as int); r.current == 1 && r.last == 0
  {
  }

  lemma BackspaceToFirstLine(s: Screen)
    requires Inv(s) && s.column == 0 && s.current == s.last == 1 && s.first == 0 && s.rows == 24 && s.capacity == 280
    requires s.At(0).length == 0
    ensures var r := Backspace(s);
            r.current == r.last == r.first == 0 && r.savedLine == s.savedLine && r.rows == s.rows
  {
    var joined := JoinPrevious(s);
    assert joined.column == 0;
  }

  /** Splitting a write anywhere, even inside an escape sequence, changes nothing. */
  lemma {:induction false} FeedSplit(s: Screen, front: seq<Byte>, back: seq<Byte>)
    requires Inv(s)
    ensures Feed(s, front + back) == Feed(Feed(s, front), back)
  {
    if back == [] {
      assert front + back == front;
    } else {
      var n := |back| - 1;
      assert (front + back)[..|front + back| - 1] == front + back[..n];
      FeedSplit(s, front, back[..n]);
    }
  }
}
