/** The terminal object of graphics/terminal.c: a ring of cell rows updated in place.
    The ghost field `screen` is the TerminalSpec.Screen the fields stand for (`Linked`), and
    each method is proved to do to the object what the function of its name does to `screen`. */
module Terminal {
  import opened TerminalSpec
  import opened TerminalReflow

  /** The rows of the three buffers are the given lines. */
  ghost predicate RowsHold(lines: seq<Line>, cells: array2<Cell>, lengths: array<nat>, breaks: array<bool>)
    reads cells, lengths, breaks
  {
    && |lines| == cells.Length0 == lengths.Length == breaks.Length
    && (forall i :: 0 <= i < |lines| ==>
          |lines[i].cells| == cells.Length1 && lines[i].length == lengths[i] && lines[i].hardBreak == breaks[i])
    && (forall i, c :: 0 <= i < |lines| && 0 <= c < cells.Length1 ==> lines[i].cells[c] == cells[i, c])
  }

  class Terminal {
    ghost var screen: Screen
    const scrollback: nat
    var columns: nat
    var rows: nat
    var column: nat
    var row: nat
    var foreground: nat
    var background: nat
    var reverse: bool
    var cells: array2<Cell>
    var lineLengths: array<nat>
    var hardBreaks: array<bool>
    var lineCapacity: nat
    var firstLine: nat
    var currentLine: nat
    var lastLine: nat
    var viewportTop: nat
    var cursorVisible: bool
    var ansiState: nat
    var ansiValues: array<nat>
    var ansiCount: nat
    var ansiPrivate: bool
    var ansiInvalid: bool
    var savedColumn: nat
    var savedLine: nat

    /** The buffers have the sizes the geometry asks for. */
    ghost predicate Buffers()
      reads this
    {
      && columns > 0 && rows > 0 && scrollback > 0
      && lineCapacity == rows + scrollback
      && cells.Length0 == lineCapacity && cells.Length1 == columns
      && lineLengths.Length == lineCapacity && hardBreaks.Length == lineCapacity
      && ansiValues.Length == VALUE_SLOTS && ansiValues != lineLengths
    }

    ghost predicate ScalarsLinked()
      reads this, ansiValues
    {
      screen == Screen(columns, rows, lineCapacity, column, row, firstLine, currentLine, lastLine, viewportTop,
                       screen.lines, Pen(foreground, background, reverse),
                       Parser(ansiState, ansiValues[..], ansiCount, ansiPrivate, ansiInvalid),
                       savedColumn, savedLine, cursorVisible)
    }

    ghost predicate Linked()
      reads this, cells, lineLengths, hardBreaks, ansiValues
    {
      Buffers() && RowsHold(screen.lines, cells, lineLengths, hardBreaks) && ScalarsLinked()
    }

    ghost predicate Valid()
      reads this, cells, lineLengths, hardBreaks, ansiValues
    {
      Linked() && Inv(screen)
    }

    twostate predicate SameBuffers()
      reads this
    {
      && cells == old(cells) && lineLengths == old(lineLengths) && hardBreaks == old(hardBreaks)
      && ansiValues == old(ansiValues)
    }

    /** terminal_init on a geometry it accepts. */
    constructor (columns: nat, rows: nat, scrollback: nat)
      requires columns > 0 && rows > 0 && scrollback > 0
      ensures Valid() && screen == Fresh(columns, rows, scrollback)
      ensures this.scrollback == scrollback
      ensures fresh(cells) && fresh(lineLengths) && fresh(hardBreaks) && fresh(ansiValues)
    {
      this.scrollback := scrollback;
      this.columns, this.rows, lineCapacity := columns, rows, rows + scrollback;
      foreground, background, reverse := DEFAULT_PEN.foreground, DEFAULT_PEN.background, false;
      cells := new Cell[rows + scrollback, columns]((i, c) => BLANK);
      lineLengths := new nat[rows + scrollback](i => 0);
      hardBreaks := new bool[rows + scrollback](i => false);
      ansiValues := new nat[VALUE_SLOTS](i => 0);
      column, row, firstLine, currentLine, lastLine, viewportTop := 0, 0, 0, 0, 0, 0;
      cursorVisible, ansiState, ansiCount, ansiPrivate, ansiInvalid := false, 0, 0, false, false;
      savedColumn, savedLine := 0, 0;
      screen := Fresh(columns, rows, scrollback);
      new;
      assert ansiValues[..] == IDLE_PARSER.values;
    }

    function LineSlot(line: nat): (slot: nat)
      requires Buffers()
      reads this
      ensures slot < lineCapacity
    {
      line % lineCapacity
    }

    function LiveViewportTop(): (top: nat)
      reads this, ansiValues
      ensures ScalarsLinked() ==> top == screen.Top()
    {
      var firstVisible := if lastLine + 1 > rows then lastLine + 1 - rows else 0;
      if firstVisible > firstLine then firstVisible else firstLine
    }

    // ----- One field at a time -----

    method SetColumn(value: nat)
      requires Linked()
      modifies this`column, this`screen
      ensures Linked() && screen == old(screen).(column := value)
    {
      column := value;
      screen := screen.(column := value);
    }

    method SetRow(value: nat)
      requires Linked()
      modifies this`row, this`screen
      ensures Linked() && screen == old(screen).(row := value)
    {
      row := value;
      screen := screen.(row := value);
    }

    method SetFirst(value: nat)
      requires Linked()
      modifies this`firstLine, this`screen
      ensures Linked() && screen == old(screen).(first := value)
    {
      firstLine := value;
      screen := screen.(first := value);
    }

    method SetCurrent(value: nat)
      requires Linked()
      modifies this`currentLine, this`screen
      ensures Linked() && screen == old(screen).(current := value)
    {
      currentLine := value;
      screen := screen.(current := value);
    }

    method SetLast(value: nat)
      requires Linked()
      modifies this`lastLine, this`screen
      ensures Linked() && screen == old(screen).(last := value)
    {
      lastLine := value;
      screen := screen.(last := value);
    }

    method SetViewportTop(value: nat)
      requires Linked()
      modifies this`viewportTop, this`screen
      ensures Linked() && screen == old(screen).(viewport := value)
    {
      viewportTop := value;
      screen := screen.(viewport := value);
    }

    method SetForeground(value: nat)
      requires Linked()
      modifies this`foreground, this`screen
      ensures Linked() && screen == old(screen).(pen := old(screen).pen.(foreground := value))
    {
      foreground := value;
      screen := screen.(pen := screen.pen.(foreground := value));
    }

    method SetBackground(value: nat)
      requires Linked()
      modifies this`background, this`screen
      ensures Linked() && screen == old(screen).(pen := old(screen).pen.(background := value))
    {
      background := value;
      screen := screen.(pen := screen.pen.(background := value));
    }

    method SetReverse(value: bool)
      requires Linked()
      modifies this`reverse, this`screen
      ensures Linked() && screen == old(screen).(pen := old(screen).pen.(reverse := value))
    {
      reverse := value;
      screen := screen.(pen := screen.pen.(reverse := value));
    }

    method SetState(value: nat)
      requires Linked()
      modifies this`ansiState, this`screen
      ensures Linked() && screen == old(screen).(parser := old(screen).parser.(state := value))
    {
      ansiState := value;
      screen := screen.(parser := screen.parser.(state := value));
    }

    method SetCount(value: nat)
      requires Linked()
      modifies this`ansiCount, this`screen
      ensures Linked() && screen == old(screen).(parser := old(screen).parser.(count := value))
    {
      ansiCount := value;
      screen := screen.(parser := screen.parser.(count := value));
    }

    method SetPrivate(value: bool)
      requires Linked()
      modifies this`ansiPrivate, this`screen
      ensures Linked() && screen == old(screen).(parser := old(screen).parser.(isPrivate := value))
    {
      ansiPrivate := value;
      screen := screen.(parser := screen.parser.(isPrivate := value));
    }

    method SetInvalid(value: bool)
      requires Linked()
      modifies this`ansiInvalid, this`screen
      ensures Linked() && screen == old(screen).(parser := old(screen).parser.(invalid := value))
    {
      ansiInvalid := value;
      screen := screen.(parser := screen.parser.(invalid := value));
    }

    method SetSavedColumn(value: nat)
      requires Linked()
      modifies this`savedColumn, this`screen
      ensures Linked() && screen == old(screen).(savedColumn := value)
    {
      savedColumn := value;
      screen := screen.(savedColumn := value);
    }

    method SetSavedLine(value: nat)
      requires Linked()
      modifies this`savedLine, this`screen
      ensures Linked() && screen == old(screen).(savedLine := value)
    {
      savedLine := value;
      screen := screen.(savedLine := value);
    }

    method SetCursorVisible(value: bool)
      requires Linked()
      modifies this`cursorVisible, this`screen
      ensures Linked() && screen == old(screen).(cursorVisible := value)
    {
      cursorVisible := value;
      screen := screen.(cursorVisible := value);
    }

    // ----- The operations of the source -----

    method FollowLiveOutput()
      requires Linked() && Core(screen)
      modifies this`viewportTop, this`row, this`screen
      ensures Valid() && screen == Follow(old(screen))
    {
      SetViewportTop(LiveViewportTop());
      SetRow(currentLine - viewportTop);
    }

    method ClearLine(line: nat)
      requires Linked()
      modifies cells, lineLengths, hardBreaks, this`screen
      ensures Linked() && screen == old(screen).SetLine(line, BlankLine(columns))
    {
      var slot := LineSlot(line);
      for c := 0 to columns
        modifies cells
        invariant forall k :: 0 <= k < c ==> cells[slot, k] == BLANK
        invariant forall i, k :: 0 <= i < lineCapacity && 0 <= k < columns && i != slot ==>
                    cells[i, k] == old(cells[i, k])
      {
        cells[slot, c] := BLANK;
      }
      lineLengths[slot] := 0;
      hardBreaks[slot] := false;
      screen := screen.SetLine(line, BlankLine(columns));
    }

    method MarkBreak(line: nat, hardBreak: bool)
      requires Linked()
      modifies hardBreaks, this`screen
      ensures Linked() && screen == old(screen).SetLine(line, old(screen).At(line).(hardBreak := hardBreak))
    {
      hardBreaks[LineSlot(line)] := hardBreak;
      screen := screen.SetLine(line, screen.At(line).(hardBreak := hardBreak));
    }

    method StepLine()
      requires Linked() && firstLine <= currentLine
      modifies this`currentLine, this`firstLine, this`column, this`screen
      ensures Linked() && screen == TerminalSpec.StepLine(old(screen))
    {
      SetCurrent(currentLine + 1);
      if currentLine - firstLine + 1 > lineCapacity {
        SetFirst(firstLine + 1);
      }
      SetColumn(0);
    }

    method CoverCursor()
      requires Linked()
      modifies cells, lineLengths, hardBreaks, this`lastLine, this`screen
      ensures Linked() && screen == TerminalSpec.CoverCursor(old(screen))
    {
      if currentLine > lastLine {
        SetLast(currentLine);
        ClearLine(currentLine);
      }
    }

    method AppendLine(hardBreak: bool)
      requires Valid()
      modifies this, cells, lineLengths, hardBreaks
      ensures Valid() && SameBuffers() && screen == TerminalSpec.AppendLine(old(screen), hardBreak)
    {
      MarkBreak(currentLine, hardBreak);
      StepLine();
      CoverCursor();
      assert screen == NextLine(old(screen), hardBreak);
      FollowLiveOutput();
    }

    method StoreCell(line: nat, at: nat, cell: Cell)
      requires Linked() && at < columns
      modifies cells, this`screen
      ensures Linked()
      ensures var was := old(screen).At(line);
              screen == old(screen).SetLine(line, was.(cells := was.cells[at := cell]))
    {
      cells[LineSlot(line), at] := cell;
      screen := screen.SetLine(line, screen.At(line).(cells := screen.At(line).cells[at := cell]));
    }

    method SetLength(line: nat, length: nat)
      requires Linked()
      modifies lineLengths, this`screen
      ensures Linked() && screen == old(screen).SetLine(line, old(screen).At(line).(length := length))
    {
      lineLengths[LineSlot(line)] := length;
      screen := screen.SetLine(line, screen.At(line).(length := length));
    }

    /** Write a character under the cursor and lengthen the line over it. */
    method Ink(character: Byte)
      requires Valid() && character != NUL
      modifies cells, lineLengths, this`screen
      ensures Valid() && screen == TerminalSpec.Ink(old(screen), character)
    {
      StoreCell(currentLine, column, Cell(character, foreground, background, reverse));
      var slot := LineSlot(currentLine);
      if lineLengths[slot] < column + 1 {
        SetLength(currentLine, column + 1);
      }
      assert screen == TerminalSpec.Ink(old(screen), character);
    }

    method PutCharacter(character: Byte)
      requires Valid() && character != NUL
      modifies this, cells, lineLengths, hardBreaks
      ensures Valid() && SameBuffers() && screen == TerminalSpec.PutCharacter(old(screen), character)
    {
      Ink(character);
      if column + 1 >= columns {
        AppendLine(false);
      } else {
        SetColumn(column + 1);
      }
    }

    method TrimLine(line: nat)
      requires Linked() && screen.At(line).length <= columns
      modifies lineLengths, this`screen
      ensures Linked() && screen == old(screen).SetLine(line, TerminalSpec.TrimLine(old(screen).At(line)))
    {
      var slot := LineSlot(line);
      ghost var length := lineLengths[slot];
      while lineLengths[slot] > 0 && cells[slot, lineLengths[slot] - 1].character == NUL
        modifies lineLengths
        invariant lineLengths[slot] <= columns
        invariant Trimmed(screen.At(line).cells, lineLengths[slot]) == Trimmed(screen.At(line).cells, length)
        invariant forall i :: 0 <= i < lineCapacity && i != slot ==> lineLengths[i] == old(lineLengths[i])
        decreases lineLengths[slot]
      {
        lineLengths[slot] := lineLengths[slot] - 1;
      }
      screen := screen.SetLine(line, TerminalSpec.TrimLine(screen.At(line)));
    }

    method EraseLeft()
      requires Linked() && Core(screen.(column := 0)) && 0 < column <= columns
      modifies this`column, this`screen, cells, lineLengths
      ensures Linked() && screen == TerminalSpec.EraseLeft(old(screen))
    {
      StoreCell(currentLine, column - 1, BLANK);
      SetColumn(column - 1);
      TrimLine(currentLine);
    }

    method LeaveLine()
      requires Valid() && currentLine > firstLine
      modifies this`lastLine, this`currentLine, this`screen, cells, lineLengths, hardBreaks
      ensures Linked() && screen == TerminalSpec.LeaveLine(old(screen))
    {
      ClearLine(currentLine);
      StepBack();
    }

    method StepBack()
      requires Linked() && currentLine > 0
      modifies this`lastLine, this`currentLine, this`screen
      ensures Linked()
      ensures screen == old(screen).(current := old(currentLine) - 1,
                                     last := if old(lastLine) == old(currentLine) then old(lastLine) - 1
                                             else old(lastLine))
    {
      if lastLine == currentLine {
        SetLast(lastLine - 1);
      }
      SetCurrent(currentLine - 1);
    }

    method JoinPrevious()
      requires Valid() && column == 0 && currentLine > firstLine
      requires !(currentLine == LiveViewportTop() && currentLine < lastLine)
      modifies this`lastLine, this`currentLine, this`column, this`screen, cells, lineLengths, hardBreaks
      ensures Linked() && screen == TerminalSpec.JoinPrevious(old(screen))
    {
      LeaveLine();
      var previousLength := lineLengths[LineSlot(currentLine)];
      MarkBreak(currentLine, false);
      SetColumn(Min(previousLength, columns));
    }

    method Backspace()
      requires Valid()
      modifies this, cells, lineLengths, hardBreaks
      ensures Valid() && SameBuffers() && screen == TerminalSpec.Backspace(old(screen))
    {
      if column == 0 {
        if currentLine == firstLine || (currentLine == LiveViewportTop() && currentLine < lastLine) {
          return;
        }
        JoinPrevious();
      }
      EraseAndFollow();
    }

    method EraseAndFollow()
      requires Linked() && Core(screen.(column := 0)) && column <= columns
      modifies this`column, this`viewportTop, this`row, this`screen, cells, lineLengths
      ensures Valid() && screen == TerminalSpec.EraseAndFollow(old(screen))
    {
      if column > 0 {
        EraseLeft();
      }
      assert column == 0 ==> screen == screen.(column := 0);
      FollowLiveOutput();
    }

    method PutSpaces(count: nat)
      requires Valid()
      modifies this, cells, lineLengths, hardBreaks
      ensures Valid() && SameBuffers() && screen == TerminalSpec.PutSpaces(old(screen), count)
    {
      for index := 0 to count
        invariant Valid() && SameBuffers()
        invariant screen == TerminalSpec.PutSpaces(old(screen), index)
      {
        PutCharacter(SPACE);
      }
    }

    method Tab()
      requires Valid()
      modifies this, cells, lineLengths, hardBreaks
      ensures Valid() && SameBuffers() && screen == TerminalSpec.Tab(old(screen))
    {
      PutSpaces(4 - column % 4);
    }

    method AnsiSgr(value: nat)
      requires Linked()
      modifies this`foreground, this`background, this`reverse, this`screen
      ensures Linked() && screen == old(screen).(pen := Rendition(old(screen).pen, value))
    {
      var ink, paper, swapped := foreground, background, reverse;
      if value == 0 {
        ink, paper, swapped := 0xffff, 0x0000, false;
      } else if 30 <= value <= 37 {
        ink := PALETTE[value - 30];
      } else if 90 <= value <= 97 {
        ink := PALETTE[value - 90 + 8];
      } else if 40 <= value <= 47 {
        paper := PALETTE[value - 40];
      } else if 100 <= value <= 107 {
        paper := PALETTE[value - 100 + 8];
      } else if value == 39 {
        ink := 0xffff;
      } else if value == 49 {
        paper := 0x0000;
      } else if value == 7 {
        swapped := true;
      } else if value == 27 {
        swapped := false;
      }
      assert Pen(ink, paper, swapped) == Rendition(screen.pen, value);
      SetPen(Pen(ink, paper, swapped));
    }

    method SetPen(pen: Pen)
      requires Linked()
      modifies this`foreground, this`background, this`reverse, this`screen
      ensures Linked() && screen == old(screen).(pen := pen)
    {
      SetForeground(pen.foreground);
      SetBackground(pen.background);
      SetReverse(pen.reverse);
    }

    /** Apply every parameter of an 'm' command in order. */
    method AnsiSgrAll()
      requires Valid()
      modifies this`foreground, this`background, this`reverse, this`screen
      ensures Valid()
      ensures screen == old(screen).(pen := Renditions(old(screen).pen, old(screen).parser.values[..ansiCount]))
    {
      ghost var values := screen.parser.values;
      for index := 0 to ansiCount
        invariant Linked()
        invariant screen == old(screen).(pen := Renditions(old(screen).pen, values[..index]))
      {
        AnsiSgr(ansiValues[index]);
        assert values[..index + 1][..index] == values[..index];
      }
    }

    method SaveCursor()
      requires Valid()
      modifies this`savedColumn, this`savedLine, this`screen
      ensures Valid() && screen == TerminalSpec.SaveCursor(old(screen))
    {
      SetSavedColumn(column);
      SetSavedLine(currentLine);
      assert screen == TerminalSpec.SaveCursor(old(screen));
    }

    method RestoreCursor()
      requires Valid()
      modifies this`column, this`currentLine, this`screen
      ensures Valid() && screen == TerminalSpec.RestoreCursor(old(screen))
    {
      var top := LiveViewportTop();
      var bottom := top + rows - 1;
      var line := if savedLine < top then top else savedLine;
      PlaceCursor(if line > bottom then bottom else line,
                  if savedColumn < columns then savedColumn else columns - 1);
    }

    /** Blank every row of the ring. */
    method ClearRing()
      requires Linked()
      modifies cells, lineLengths, hardBreaks, this`screen
      ensures Linked() && screen == old(screen).(lines := screen.lines)
      ensures forall i :: 0 <= i < lineCapacity ==> screen.lines[i] == BlankLine(columns)
    {
      for slot := 0 to lineCapacity
        modifies cells, lineLengths, hardBreaks
        invariant forall i :: 0 <= i < slot ==> lineLengths[i] == 0 && !hardBreaks[i]
        invariant forall i, k :: 0 <= i < slot && 0 <= k < columns ==> cells[i, k] == BLANK
      {
        for c := 0 to columns
          modifies cells
          invariant forall i, k :: 0 <= i < slot && 0 <= k < columns ==> cells[i, k] == BLANK
          invariant forall k :: 0 <= k < c ==> cells[slot, k] == BLANK
        {
          cells[slot, c] := BLANK;
        }
        lineLengths[slot] := 0;
        hardBreaks[slot] := false;
      }
      ghost var width := columns;
      screen := screen.(lines := seq(lineCapacity, _ => BlankLine(width)));
    }

    /** The first line is the only one. */
    method Rewind()
      requires Linked()
      modifies this`firstLine, this`lastLine, this`viewportTop, this`screen
      ensures Linked() && screen == old(screen).(first := 0, last := 0, viewport := 0)
    {
      SetFirst(0);
      SetLast(0);
      SetViewportTop(0);
    }

    method Clear()
      requires Valid()
      modifies this, cells, lineLengths, hardBreaks
      ensures Valid() && SameBuffers() && screen == TerminalSpec.Clear(old(screen))
    {
      ClearRing();
      assert screen.lines == TerminalSpec.Clear(old(screen)).lines;
      PlaceCursor(0, 0);
      SetRow(0);
      Rewind();
      assert screen == TerminalSpec.Clear(old(screen));
    }

    /** Blank a row from a column on. */
    method BlankFrom(line: nat, start: nat)
      requires Linked() && start <= columns
      modifies cells, lineLengths, this`screen
      ensures Linked() && screen == old(screen).SetLine(line, Blanked(old(screen).At(line), start))
    {
      var slot := LineSlot(line);
      for c := start to columns
        modifies cells
        invariant forall k :: start <= k < c ==> cells[slot, k] == BLANK
        invariant forall i, k :: 0 <= i < lineCapacity && 0 <= k < columns && (i != slot || k < start) ==>
                    cells[i, k] == old(cells[i, k])
      {
        cells[slot, c] := BLANK;
      }
      lineLengths[slot] := start;
      screen := screen.SetLine(line, Blanked(screen.At(line), start));
    }

    method EraseLine(value: nat)
      requires Valid()
      modifies cells, lineLengths, this`screen
      ensures Valid() && screen == TerminalSpec.EraseLine(old(screen), value)
    {
      BlankFrom(currentLine, if value == 2 then 0 else column);
      assert screen == TerminalSpec.EraseLine(old(screen), value);
    }

    /** Where the absolute and relative cursor commands put the cursor; any other command leaves it. */
    method CursorTarget(command: Byte) returns (line: nat, at: nat)
      requires Valid()
      ensures (line, at) == TerminalSpec.Target(screen, command)
    {
      var value := ansiValues[0];
      var amount := if value == 0 then 1 else value;
      var top := LiveViewportTop();
      line, at := currentLine, column;
      if command == 'H' as int || command == 'f' as int {
        var target := if ansiCount > 1 && ansiValues[1] > 0 then ansiValues[1] - 1 else 0;
        line := top + if amount - 1 < rows then amount - 1 else rows - 1;
        at := if target < columns then target else columns - 1;
      } else if command == 'A' as int {
        line := currentLine - Min(amount, currentLine - top);
      } else if command == 'B' as int {
        line := currentLine + Min(amount, top + rows - 1 - currentLine);
      } else if command == 'C' as int {
        at := column + Min(amount, columns - 1 - column);
      } else if command == 'D' as int {
        at := column - Min(amount, column);
      } else if command == 'G' as int {
        at := if amount < columns then amount - 1 else columns - 1;
      }
    }

    method MoveCursor(command: Byte)
      requires Valid()
      modifies this`column, this`currentLine, this`screen
      ensures Valid() && screen == TerminalSpec.MoveCursor(old(screen), command)
    {
      var line, at := CursorTarget(command);
      PlaceCursor(line, at);
      assert screen == TerminalSpec.MoveCursor(old(screen), command);
    }

    method PlaceCursor(line: nat, at: nat)
      requires Linked()
      modifies this`column, this`currentLine, this`screen
      ensures Linked() && screen == old(screen).(current := line, column := at)
    {
      SetCurrent(line);
      SetColumn(at);
    }

    /** Take the line after the tail into the live range, empty. */
    method ExtendLine()
      requires Linked()
      modifies cells, lineLengths, hardBreaks, this`lastLine, this`screen
      ensures Linked() && screen == TakeIn(old(screen))
    {
      SetLast(lastLine + 1);
      ClearLine(lastLine);
    }

    method ExtendTail()
      requires Valid()
      modifies this`lastLine, this`screen, cells, lineLengths, hardBreaks
      ensures Valid() && screen == TerminalSpec.ExtendTail(old(screen))
    {
      while lastLine < currentLine
        invariant Valid()
        invariant TerminalSpec.ExtendTail(screen) == TerminalSpec.ExtendTail(old(screen))
        decreases currentLine - lastLine
      {
        ExtendStep(screen);
        ExtendLine();
      }
    }

    method PublicCommand(command: Byte)
      requires Valid()
      modifies this, cells, lineLengths, hardBreaks
      ensures Valid() && SameBuffers() && screen == TerminalSpec.PublicCommand(old(screen), command)
    {
      if command == 'J' as int && ansiValues[0] == 2 {
        Clear();
      } else if command == 'K' as int {
        EraseLine(ansiValues[0]);
      } else if command == 'm' as int {
        AnsiSgrAll();
      } else if command == 's' as int {
        SaveCursor();
      } else if command == 'u' as int {
        RestoreCursor();
      } else {
        MoveCursor(command);
      }
    }

    method AnsiCommand(command: Byte)
      requires Valid()
      modifies this, cells, lineLengths, hardBreaks
      ensures Valid() && SameBuffers() && screen == TerminalSpec.AnsiCommand(old(screen), command)
    {
      if ansiPrivate {
        if ansiCount == 1 && ansiValues[0] == 25 && (command == 'h' as int || command == 'l' as int) {
          SetCursorVisible(command == 'h' as int);
        }
        return;
      }
      PublicCommand(command);
      ExtendTail();
    }

    /** Leave the current escape state for another, keeping the parameters. */
    method Enter(state: nat)
      requires Valid() && state <= 2 && (state == 2 ==> ansiCount >= 1)
      modifies this`ansiState, this`screen
      ensures Valid() && screen == SetParser(old(screen), old(screen).parser.(state := state))
    {
      SetState(state);
      assert screen == SetParser(old(screen), old(screen).parser.(state := state));
    }

    method ZeroParameters()
      requires Linked()
      modifies ansiValues, this`screen
      ensures Linked()
      ensures screen == old(screen).(parser := old(screen).parser.(values := seq(VALUE_SLOTS, _ => 0)))
    {
      for i := 0 to VALUE_SLOTS
        modifies ansiValues
        invariant forall k :: 0 <= k < i ==> ansiValues[k] == 0
      {
        ansiValues[i] := 0;
      }
      assert ansiValues[..] == seq(VALUE_SLOTS, _ => 0);
      screen := screen.(parser := screen.parser.(values := seq(VALUE_SLOTS, _ => 0)));
    }

    /** ESC [ starts a control sequence with all parameters zero. */
    method BeginControl()
      requires Valid()
      modifies this`ansiState, this`ansiCount, this`ansiPrivate, this`ansiInvalid, this`screen, ansiValues
      ensures Valid()
      ensures screen == SetParser(old(screen), Parser(2, seq(VALUE_SLOTS, _ => 0), 1, false, false))
    {
      ZeroParameters();
      SetState(2);
      SetCount(1);
      SetPrivate(false);
      SetInvalid(false);
      assert screen == SetParser(old(screen), Parser(2, seq(VALUE_SLOTS, _ => 0), 1, false, false));
    }

    method EscapeByte(b: Byte)
      requires Valid() && ansiState == 1
      modifies this, ansiValues
      ensures Valid() && SameBuffers() && screen == TerminalSpec.EscapeByte(old(screen), b)
    {
      if b == '[' as int {
        BeginControl();
      } else {
        Enter(0);
        if b == '7' as int {
          SaveCursor();
        } else if b == '8' as int {
          RestoreCursor();
        }
      }
    }

    method Digit(digit: nat)
      requires Valid() && ansiState == 2 && digit <= 9
      modifies ansiValues, this`ansiInvalid, this`screen
      ensures Valid() && screen == SetParser(old(screen), TerminalSpec.Digit(old(screen).parser, digit))
    {
      var value := ansiValues[ansiCount - 1];
      if value > (VALUE_MAX - digit) / 10 {
        ansiInvalid := true;
      } else {
        ansiValues[ansiCount - 1] := value * 10 + digit;
      }
      screen := SetParser(screen, TerminalSpec.Digit(screen.parser, digit));
    }

    method NextParameter()
      requires Valid() && ansiState == 2
      modifies this`ansiCount, this`ansiInvalid, this`screen
      ensures Valid()
      ensures var p := old(screen).parser;
              var next := if p.count == VALUE_SLOTS then p.(invalid := true) else p.(count := p.count + 1);
              screen == SetParser(old(screen), next)
    {
      if ansiCount == VALUE_SLOTS {
        SetInvalid(true);
      } else {
        SetCount(ansiCount + 1);
      }
    }

    method MarkPrivate()
      requires Valid()
      modifies this`ansiPrivate, this`screen
      ensures Valid() && screen == SetParser(old(screen), old(screen).parser.(isPrivate := true))
    {
      SetPrivate(true);
      assert screen == SetParser(old(screen), old(screen).parser.(isPrivate := true));
    }

    method Invalidate()
      requires Valid()
      modifies this`ansiInvalid, this`screen
      ensures Valid() && screen == SetParser(old(screen), old(screen).parser.(invalid := true))
    {
      SetInvalid(true);
      assert screen == SetParser(old(screen), old(screen).parser.(invalid := true));
    }

    method ControlByte(b: Byte)
      requires Valid() && ansiState == 2
      modifies this, cells, lineLengths, hardBreaks, ansiValues
      ensures Valid() && SameBuffers() && screen == TerminalSpec.ControlByte(old(screen), b)
    {
      if '0' as int <= b <= '9' as int {
        Digit(b - '0' as int);
      } else if b == ';' as int {
        NextParameter();
      } else if b == '?' as int && ansiCount == 1 && ansiValues[0] == 0 && !ansiPrivate {
        MarkPrivate();
      } else if b < 0x40 || b > 0x7e {
        Invalidate();
      } else {
        FinalByte(b);
      }
    }

    /** The byte that ends a control sequence. */
    method FinalByte(b: Byte)
      requires Valid()
      modifies this, cells, lineLengths, hardBreaks
      ensures Valid() && SameBuffers() && screen == TerminalSpec.FinalByte(old(screen), b)
    {
      if !ansiInvalid {
        AnsiCommand(b);
      }
      Enter(0);
    }

    method TextByte(b: Byte)
      requires Valid() && ansiState == 0 && b != NUL
      modifies this, cells, lineLengths, hardBreaks
      ensures Valid() && SameBuffers() && screen == TerminalSpec.TextByte(old(screen), b)
    {
      if b == ESC {
        Enter(1);
      } else if b == '\n' as int {
        AppendLine(true);
      } else if b == '\r' as int {
        SetColumn(0);
      } else if b == 8 || b == 0x7f {
        Backspace();
      } else if b == '\t' as int {
        Tab();
      } else {
        PutCharacter(b);
      }
    }

    /** One byte of output. */
    method FeedByte(b: Byte)
      requires Valid()
      modifies this, cells, lineLengths, hardBreaks, ansiValues
      ensures Valid() && SameBuffers() && screen == TerminalSpec.FeedByte(old(screen), b)
    {
      if b == NUL {
      } else if ansiState == 1 {
        EscapeByte(b);
      } else if ansiState == 2 {
        ControlByte(b);
      } else {
        TextByte(b);
      }
    }

    method WriteBytes(data: seq<Byte>)
      requires Valid()
      modifies this, cells, lineLengths, hardBreaks, ansiValues
      ensures Valid() && SameBuffers() && screen == TerminalSpec.WriteBytes(old(screen), data)
    {
      for i := 0 to |data|
        invariant Valid() && SameBuffers()
        invariant screen == Feed(old(screen), data[..i])
      {
        FeedOne(old(screen), data[..i], data[i]);
        assert data[..i + 1] == data[..i] + [data[i]];
        FeedByte(data[i]);
      }
      assert data[..|data|] == data;
      FollowLiveOutput();
    }

    method ScrollLines(lines: int)
      requires Valid()
      modifies this`viewportTop, this`screen
      ensures Valid() && screen == TerminalSpec.ScrollLines(old(screen), lines)
    {
      var maximum := LiveViewportTop();
      var desired := viewportTop + lines;
      if desired < firstLine {
        desired := firstLine;
      }
      if desired > maximum {
        desired := maximum;
      }
      SetViewportTop(desired);
    }

    /** No buffer of this terminal is a buffer of the other. */
    ghost predicate Apart(other: Terminal)
      reads this, other
    {
      && other != this
      && other.cells != cells && other.hardBreaks != hardBreaks
      && other.lineLengths != lineLengths && other.lineLengths != ansiValues
      && other.ansiValues != lineLengths && other.ansiValues != ansiValues
    }

    /** Write one old cell, in its own attributes, at the end of a terminal under construction. */
    method PourCell(cell: Cell, ghost target: Screen, ghost ts: seq<Token>)
      requires Valid() && Poured(target, ts, screen)
      modifies this, cells, lineLengths, hardBreaks
      ensures Valid() && SameBuffers() && Poured(target, ts + [Glyph(Visible(cell))], screen)
    {
      PourOne(target, ts, screen, Glyph(Visible(cell)));
      SetPen(PenOf(cell));
      PutCharacter(Visible(cell).character);
    }

    method PourBreak(ghost target: Screen, ghost ts: seq<Token>)
      requires Valid() && Poured(target, ts, screen)
      modifies this, cells, lineLengths, hardBreaks
      ensures Valid() && SameBuffers() && Poured(target, ts + [Break], screen)
    {
      PourOne(target, ts, screen, Break);
      AppendLine(true);
    }

    /** Pour one retained line at the end of a terminal under construction. */
    method PourLine(line: Line, ghost target: Screen, ghost ts: seq<Token>)
      requires Valid() && Poured(target, ts, screen) && line.length <= |line.cells|
      modifies this, cells, lineLengths, hardBreaks
      ensures Valid() && SameBuffers() && Poured(target, ts + LineTokens(line), screen)
    {
      LineTokensEnds(ts, line);
      for c := 0 to line.length
        invariant Valid() && SameBuffers()
        invariant Poured(target, ts + LineTokens(line)[..c], screen)
      {
        LineTokensStep(ts, line, c);
        PourCell(line.cells[c], target, ts + LineTokens(line)[..c]);
      }
      if line.hardBreak {
        PourBreak(target, ts + LineTokens(line)[..line.length]);
      }
    }

    /** Read one row of the ring. */
    method RowAt(line: nat) returns (row: Line)
      requires Valid()
      ensures row == screen.At(line)
    {
      var slot := LineSlot(line);
      var kept := [];
      for c := 0 to columns
        invariant kept == screen.At(line).cells[..c]
      {
        kept := kept + [cells[slot, c]];
      }
      row := Line(kept, lineLengths[slot], hardBreaks[slot]);
    }

    /** One more retained line read. */
    static lemma RetainOne(s: Screen, first: nat, line: nat, lines: seq<Line>)
      requires Inv(s) && first <= line && forall l :: l in lines ==> l.length <= |l.cells|
      requires TokensOfLines(lines) == TokensOf(s, first, line)
      ensures forall l :: l in lines + [s.At(line)] ==> l.length <= |l.cells|
      ensures TokensOfLines(lines + [s.At(line)]) == TokensOf(s, first, line + 1)
    {
      TokensOfLinesStep(lines, s.At(line));
    }

    /** Read the retained lines, oldest first. */
    method RetainedLines() returns (lines: seq<Line>)
      requires Valid()
      ensures forall l :: l in lines ==> l.length <= |l.cells|
      ensures TokensOfLines(lines) == Tokens(screen)
    {
      lines := [];
      for line := firstLine to lastLine + 1
        invariant forall l :: l in lines ==> l.length <= |l.cells|
        invariant TokensOfLines(lines) == TokensOf(screen, firstLine, line)
      {
        var row := RowAt(line);
        RetainOne(screen, firstLine, line, lines);
        lines := lines + [row];
      }
    }

    /** Pour old lines one after the other into a terminal under construction. */
    method PourLines(lines: seq<Line>)
      requires Valid() && forall l :: l in lines ==> l.length <= |l.cells|
      modifies this, cells, lineLengths, hardBreaks
      ensures Valid() && SameBuffers() && Poured(old(screen), TokensOfLines(lines), screen)
    {
      ghost var target := screen;
      for k := 0 to |lines|
        invariant Valid() && SameBuffers()
        invariant Poured(target, TokensOfLines(lines[..k]), screen)
      {
        TokensOfLinesStep(lines[..k], lines[k]);
        assert lines[..k + 1] == lines[..k] + [lines[k]];
        PourLine(lines[k], target, TokensOfLines(lines[..k]));
      }
      assert lines[..|lines|] == lines;
    }

    /** The empty terminal a resize pours into. */
    method NewTarget(newColumns: nat, newRows: nat) returns (resized: Terminal)
      requires Valid() && newColumns > 0 && newRows > 0
      ensures fresh(resized) && fresh(resized.cells) && fresh(resized.lineLengths)
      ensures fresh(resized.hardBreaks) && fresh(resized.ansiValues)
      ensures resized.Valid() && resized.scrollback == scrollback
      ensures resized.screen == TerminalReflow.Target(screen, newColumns, newRows, scrollback)
    {
      resized := new Terminal(newColumns, newRows, scrollback);
      resized.SetPen(Pen(foreground, background, false));
      resized.SetCursorVisible(cursorVisible);
    }

    method SetViewport(viewport: nat, row: nat)
      requires Linked()
      modifies this`viewportTop, this`row, this`screen
      ensures Linked() && screen == old(screen).(viewport := viewport, row := row)
    {
      SetViewportTop(viewport);
      SetRow(row);
    }

    /** Take back the writing pen and put the viewport as far from the live end as it was. */
    method Rescroll(resized: Terminal)
      requires Valid() && resized.Valid() && Apart(resized)
      modifies resized`foreground, resized`background, resized`reverse
      modifies resized`viewportTop, resized`row, resized`screen
      ensures resized.Valid() && resized.screen == TerminalReflow.Rescroll(screen, old(resized.screen))
    {
      var distanceFromEnd := LiveViewportTop() - viewportTop;
      var newLiveTop := resized.LiveViewportTop();
      var available := newLiveTop - resized.firstLine;
      resized.SetPen(Pen(foreground, background, reverse));
      resized.SetViewport(newLiveTop - Min(distanceFromEnd, available), resized.currentLine - newLiveTop);
    }

    /** A terminal of the new geometry with the retained lines poured into it. */
    method Reflow(newColumns: nat, newRows: nat) returns (resized: Terminal)
      requires Valid() && newColumns > 0 && newRows > 0
      ensures fresh(resized) && fresh(resized.cells) && fresh(resized.lineLengths)
      ensures fresh(resized.hardBreaks) && fresh(resized.ansiValues)
      ensures resized.Valid() && resized.scrollback == scrollback
      ensures Poured(TerminalReflow.Target(screen, newColumns, newRows, scrollback), Tokens(screen), resized.screen)
    {
      resized := NewTarget(newColumns, newRows);
      var lines := RetainedLines();
      resized.PourLines(lines);
    }

    /** terminal_resize: pour the retained lines into a terminal of the new geometry and take
        over its fields.  The old terminal is kept when the geometry is empty or memory is short. */
    method Resize(newColumns: nat, newRows: nat, memory: bool) returns (ok: bool)
      requires Valid()
      modifies this
      ensures Valid()
      ensures ok <==> newColumns > 0 && newRows > 0 && memory
      ensures ok ==> screen == TerminalReflow.Resize(old(screen), newColumns, newRows, scrollback)
      ensures !ok ==> screen == old(screen)
    {
      if newColumns == 0 || newRows == 0 || !memory {
        return false;
      }
      var resized := Reflow(newColumns, newRows);
      Replace(resized);
      return true;
    }

    ghost function Position(): (nat, nat, nat, nat, nat, nat, nat, nat)
      reads this`column, this`row, this`firstLine, this`currentLine, this`lastLine, this`viewportTop
      reads this`savedColumn, this`savedLine
    {
      (column, row, firstLine, currentLine, lastLine, viewportTop, savedColumn, savedLine)
    }

    ghost function Modes(): (nat, nat, bool, bool, nat, nat, bool, bool)
      reads this`foreground, this`background, this`reverse, this`cursorVisible
      reads this`ansiState, this`ansiCount, this`ansiPrivate, this`ansiInvalid
    {
      (foreground, background, reverse, cursorVisible, ansiState, ansiCount, ansiPrivate, ansiInvalid)
    }

    ghost predicate SameBuffersAs(other: Terminal)
      reads this, other
    {
      (columns, rows, lineCapacity, cells, lineLengths, hardBreaks, ansiValues)
      == (other.columns, other.rows, other.lineCapacity, other.cells, other.lineLengths, other.hardBreaks,
          other.ansiValues)
    }

    method TakeBuffers(other: Terminal)
      modifies this`columns, this`rows, this`lineCapacity, this`cells, this`lineLengths, this`hardBreaks
      modifies this`ansiValues
      ensures SameBuffersAs(other)
    {
      columns, rows, lineCapacity := other.columns, other.rows, other.lineCapacity;
      cells, lineLengths, hardBreaks, ansiValues := other.cells, other.lineLengths, other.hardBreaks, other.ansiValues;
    }

    method TakePosition(other: Terminal)
      modifies this`column, this`row, this`firstLine, this`currentLine, this`lastLine, this`viewportTop
      modifies this`savedColumn, this`savedLine
      ensures Position() == other.Position()
    {
      column, row := other.column, other.row;
      firstLine, currentLine, lastLine := other.firstLine, other.currentLine, other.lastLine;
      viewportTop := other.viewportTop;
      savedColumn, savedLine := other.savedColumn, other.savedLine;
    }

    method TakeModes(other: Terminal)
      modifies this`foreground, this`background, this`reverse, this`cursorVisible
      modifies this`ansiState, this`ansiCount, this`ansiPrivate, this`ansiInvalid
      ensures Modes() == other.Modes()
    {
      foreground, background, reverse := other.foreground, other.background, other.reverse;
      cursorVisible, ansiState := other.cursorVisible, other.ansiState;
      ansiCount, ansiPrivate, ansiInvalid := other.ansiCount, other.ansiPrivate, other.ansiInvalid;
    }

    method CopyFields(other: Terminal)
      requires other != this
      modifies this
      ensures SameBuffersAs(other) && Position() == other.Position() && Modes() == other.Modes()
      ensures screen == other.screen
    {
      TakeBuffers(other);
      TakePosition(other);
      TakeModes(other);
      screen := other.screen;
    }

    twostate lemma SameFieldsValid(other: Terminal)
      requires old(other.Valid()) && unchanged(other)
      requires unchanged(other.cells, other.lineLengths, other.hardBreaks, other.ansiValues)
      requires SameBuffersAs(other) && Position() == other.Position() && Modes() == other.Modes()
      requires scrollback == other.scrollback && screen == other.screen
      ensures Valid()
    {
    }

    /** The struct assignment that ends a resize. */
    method TakeOver(other: Terminal)
      requires other.Valid() && other != this && other.scrollback == scrollback
      modifies this
      ensures Valid() && screen == other.screen
    {
      CopyFields(other);
      SameFieldsValid(other);
    }

    /** The end of a resize: the rescrolled terminal takes the old one's place. */
    method Replace(resized: Terminal)
      requires Valid() && resized.Valid() && Apart(resized) && resized.scrollback == scrollback
      modifies this, resized
      ensures Valid() && screen == TerminalReflow.Rescroll(old(screen), old(resized.screen))
    {
      Rescroll(resized);
      TakeOver(resized);
    }
  }
}
