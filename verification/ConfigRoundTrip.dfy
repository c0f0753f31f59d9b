/** Quoting and unquoting are inverse, and an updated file reads back as the settings it was given. */
module ConfigRoundTrip {
  import opened ConfigSpec

  // ----- Quoting -----

  lemma {:induction false} UnquoteEscape(s: string, used: nat, capacity: nat)
    ensures UnquoteRest(Escape(s) + "\"", used, capacity)
         == if s == "" || used + |s| < capacity then Some(s) else None
    decreases |s|
  {
    if s == "" {
      assert Escape(s) + "\"" == "\"";
    } else {
      UnquoteEscape(s[1..], used + 1, capacity);
      var all := Escape(s) + "\"";
      var rest := Escape(s[1..]) + "\"";
      if Special(s[0]) {
        assert all == ['\\', s[0]] + rest && all[2..] == rest;
      } else {
        assert all == [s[0]] + rest && all[1..] == rest;
      }
      assert [s[0]] + s[1..] == s;
    }
  }

  lemma {:induction false} EscapeUnquote(q: string, used: nat, capacity: nat)
    requires UnquoteRest(q, used, capacity).Some?
    ensures q == Escape(UnquoteRest(q, used, capacity).value) + "\""
    decreases |q|
  {
    var s := UnquoteRest(q, used, capacity).value;
    if q[0] == '"' {
      assert q == "\"" && Escape(s) + "\"" == "\"";
    } else {
      var n := if q[0] == '\\' then 2 else 1;
      EscapeUnquote(q[n..], used + 1, capacity);
      assert s[1..] == UnquoteRest(q[n..], used + 1, capacity).value;
      assert q == q[..n] + q[n..];
      assert q[..n] == if Special(s[0]) then ['\\', s[0]] else [s[0]];
    }
  }

  /** A value unquotes to `s` exactly when it is the quoted form of `s` and fits the buffer. */
  lemma QuoteInverse(q: string, s: string, capacity: nat)
    ensures Unquote(q, capacity) == Some(s) <==> q == Quote(s) && |s| < capacity
  {
    if q == Quote(s) && capacity > 0 {
      UnquoteEscape(s, 0, capacity);
      assert q[1..] == Escape(s) + "\"";
    }
    if Unquote(q, capacity) == Some(s) {
      EscapeUnquote(q[1..], 0, capacity);
      assert q == "\"" + q[1..];
      UnquoteEscape(s, 0, capacity);
    }
  }

  // ----- Trimming -----

  lemma WholeString(s: string)
    requires NUL !in s
    ensures CString(s) == s
  {
  }

  lemma FirstIs(s: string, c: char, n: nat)
    requires n < |s| && s[n] == c && forall i :: 0 <= i < n ==> s[i] != c
    ensures IndexOf(s, c) == n
  {
  }

  lemma TightStays(s: string)
    requires Tight(s)
    ensures Trim(s) == s
  {
  }

  lemma {:induction false} RightKeeps(s: string, i: nat)
    requires i < |s| && !IsSpace(s[i])
    ensures |TrimRight(s)| > i && TrimRight(s) == s[..|TrimRight(s)|]
    decreases |s|
  {
    if IsSpace(s[|s| - 1]) {
      RightKeeps(s[..|s| - 1], i);
    }
  }

  /** Text that starts with a visible character is only trimmed at its end. */
  lemma TrimStart(s: string, i: nat)
    requires i < |s| && !IsSpace(s[0]) && !IsSpace(s[i])
    ensures i < |Trim(s)| <= |s| && Trim(s) == s[..|Trim(s)|]
  {
    assert TrimLeft(s) == s;
    RightKeeps(s, i);
  }

  // ----- Lines -----

  lemma LineThen(line: string, rest: string)
    requires '\n' !in line
    ensures var text := line + "\n" + rest;
            FirstLine(text) == line && AfterLine(text) == |line| + 1 && text[AfterLine(text)..] == rest
  {
    var text := line + "\n" + rest;
    assert text[..|line|] == line;
    FirstIs(text, '\n', |line|);
  }

  /** Reading goes line by line. */
  lemma ReadLineThen(read: (Reader, string) -> Option<Reader>, r: Reader, line: string, rest: string)
    requires '\n' !in line
    ensures ReadLines(read, r, line + "\n" + rest)
         == if read(r, line).None? then None else ReadLines(read, read(r, line).value, rest)
  {
    LineThen(line, rest);
  }

  predicate Ended(text: string) {
    text == "" || text[|text| - 1] == '\n'
  }

  /** The first line of ended text is followed by a line end. */
  lemma EndedFirst(text: string)
    requires text != "" && Ended(text)
    ensures text == FirstLine(text) + "\n" + text[AfterLine(text)..] && Ended(text[AfterLine(text)..])
  {
    assert IndexOf(text, '\n') < |text|;
  }

  lemma {:induction false} ReadAppend(read: (Reader, string) -> Option<Reader>, r: Reader, a: string, b: string)
    requires Ended(a)
    ensures ReadLines(read, r, a + b)
         == if ReadLines(read, r, a).None? then None else ReadLines(read, ReadLines(read, r, a).value, b)
    decreases |a|
  {
    if a == "" {
      assert a + b == b;
    } else {
      var line, rest := FirstLine(a), a[AfterLine(a)..];
      EndedFirst(a);
      assert a + b == line + "\n" + (rest + b);
      ReadLineThen(read, r, line, rest);
      ReadLineThen(read, r, line, rest + b);
      if read(r, line).Some? {
        ReadAppend(read, read(r, line).value, rest, b);
      }
    }
  }

  /** Text that does not end its last line is that line after ended text. */
  lemma {:induction false} LastLine(text: string) returns (a: string, line: string)
    requires !Ended(text)
    ensures text == a + line && Ended(a) && line != "" && '\n' !in line
    decreases |text|
  {
    var n := AfterLine(text);
    if n == |text| {
      a, line := "", text;
    } else {
      a, line := LastLine(text[n..]);
      LastLineStep(text, a, line);
      a := text[..n] + a;
    }
  }

  lemma LastLineStep(text: string, a: string, line: string)
    requires AfterLine(text) < |text| && text[AfterLine(text)..] == a + line && Ended(a)
    ensures text == text[..AfterLine(text)] + a + line && Ended(text[..AfterLine(text)] + a)
  {
    assert text == text[..AfterLine(text)] + text[AfterLine(text)..];
  }

  lemma ReadOne(read: (Reader, string) -> Option<Reader>, r: Reader, line: string)
    requires line != "" && '\n' !in line
    ensures ReadLines(read, r, line) == read(r, line)
  {
    assert IndexOf(line, '\n') == |line|;
    assert FirstLine(line) == line && line[AfterLine(line)..] == "";
  }

  /** A missing end of the last line makes no difference to a reader. */
  lemma ReadClosed(read: (Reader, string) -> Option<Reader>, r: Reader, text: string)
    ensures ReadLines(read, r, Closed(text)) == ReadLines(read, r, text)
  {
    if !Ended(text) {
      var a, line := LastLine(text);
      assert Closed(text) == a + (line + "\n" + "");
      ReadAppend(read, r, a, line);
      ReadAppend(read, r, a, line + "\n" + "");
      if ReadLines(read, r, a).Some? {
        ReadLineThen(read, ReadLines(read, r, a).value, line, "");
        ReadOne(read, ReadLines(read, r, a).value, line);
      }
    }
  }

  // ----- Which lines an update keeps -----

  /** A line that makes no reader fail, apart from the settings. */
  predicate Fine(line: string) {
    var t := Trim(line);
    Skipped(t) || (if t[0] == '[' then IsSection(t) else IndexOf(t, '=') < |t|)
  }

  /** Every line an update keeps can be read. */
  predicate AllFine(owned: (string, bool) -> bool, section: (string, bool) -> bool, fine: string -> bool, text: string,
                    wifi: bool)
    decreases |text|
  {
    text == "" ||
    (var line := FirstLine(text);
     var now := section(line, wifi);
     (owned(line, now) || fine(line)) && AllFine(owned, section, fine, text[AfterLine(text)..], now))
  }

  predicate KeptFine(text: string) {
    AllFine(Owned, SectionAfter, Fine, text, false)
  }

  lemma KeyStart(text: string, n: nat)
    requires 0 < n <= |text| && !IsSpace(text[0])
    ensures Trim(text[..n]) != "" && Trim(text[..n])[0] == text[0]
  {
    TrimStart(text[..n], 0);
  }

  /** A setting's key starts with a letter, so its line is no comment and no section. */
  lemma OwnedStart(t: string, wifi: bool)
    requires t != "" && !IsSpace(t[0]) && t[0] != '='
    requires OwnedKey(Trim(t[..IndexOf(t, '=')]), wifi)
    ensures 'a' <= t[0] <= 'z'
  {
    KeyStart(t, IndexOf(t, '='));
  }

  lemma TrimmedStart(s: string)
    ensures Trim(s) != "" ==> !IsSpace(Trim(s)[0])
  {
    var t := TrimLeft(s);
    if t != "" {
      RightKeeps(t, 0);
    }
  }

  lemma OwnedIsSetting(line: string, wifi: bool)
    requires NUL !in line && Owned(line, wifi)
    ensures !Skipped(Trim(line)) && Trim(line)[0] != '[' && SectionAfter(line, wifi) == wifi
  {
    WholeString(line);
    TrimmedStart(line);
    var t := Trim(line);
    if t[0] == '=' {
      assert t[..0] == "";
    } else {
      OwnedStart(t, wifi);
    }
  }

  lemma UnownedIgnored(r: Reader, key: string, value: string)
    requires !OwnedKey(key, r.wifi)
    ensures ReadSetting(r, key, value) == Some(r)
  {
  }

  /** What a reader makes of a line an update keeps. */
  lemma ReadKeptLine(r: Reader, line: string)
    requires NUL !in line && !Owned(line, SectionAfter(line, r.wifi))
    ensures ReadLine(r, line) == if Fine(line) then Some(r.(wifi := SectionAfter(line, r.wifi))) else None
  {
    WholeString(line);
    var t := Trim(line);
    if !Skipped(t) && t[0] != '[' && IndexOf(t, '=') < |t| {
      UnownedIgnored(r, Trim(t[..IndexOf(t, '=')]), Trim(t[IndexOf(t, '=') + 1..]));
    }
  }

  lemma OwnedSection(line: string, wifi: bool)
    requires NUL !in line && Owned(line, SectionAfter(line, wifi))
    ensures SectionAfter(line, wifi) == wifi
  {
    OwnedIsSetting(line, SectionAfter(line, wifi));
    WholeString(line);
  }

  /** A reader for which owned lines leave the section alone and other lines do nothing else. */
  ghost predicate Separates(owned: (string, bool) -> bool, section: (string, bool) -> bool, fine: string -> bool,
                            read: (Reader, string) -> Option<Reader>, line: string) {
    && (forall wifi :: owned(line, section(line, wifi)) ==> section(line, wifi) == wifi)
    && (forall r: Reader :: !owned(line, section(line, r.wifi)) ==>
          read(r, line) == if fine(line) then Some(r.(wifi := section(line, r.wifi))) else None)
  }

  lemma ReaderSeparates(line: string)
    requires NUL !in line
    ensures Separates(Owned, SectionAfter, Fine, ReadLine, line)
  {
    forall wifi | Owned(line, SectionAfter(line, wifi)) ensures SectionAfter(line, wifi) == wifi {
      OwnedSection(line, wifi);
    }
    forall r: Reader | !Owned(line, SectionAfter(line, r.wifi))
      ensures ReadLine(r, line) == if Fine(line) then Some(r.(wifi := SectionAfter(line, r.wifi))) else None
    {
      ReadKeptLine(r, line);
    }
  }

  lemma {:induction false} ReadKept(owned: (string, bool) -> bool, section: (string, bool) -> bool,
                                    fine: string -> bool, read: (Reader, string) -> Option<Reader>, r: Reader,
                                    text: string)
    requires NUL !in text
    requires forall line: string :: NUL !in line ==> Separates(owned, section, fine, read, line)
    ensures var k := KeptLines(owned, section, text, r.wifi);
            ReadLines(read, r, k.0)
            == if AllFine(owned, section, fine, text, r.wifi) then Some(r.(wifi := k.1)) else None
    decreases |text|
  {
    if text != "" {
      var line, n := FirstLine(text), AfterLine(text);
      var rest := text[n..];
      var now := section(line, r.wifi);
      var k := KeptLines(owned, section, rest, now);
      assert Separates(owned, section, fine, read, line);
      if owned(line, now) {
        ReadKept(owned, section, fine, read, r, rest);
      } else {
        if fine(line) {
          ReadKept(owned, section, fine, read, r.(wifi := now), rest);
        }
        if n > |line| {
          assert text[..n] + k.0 == line + "\n" + k.0;
          ReadLineThen(read, r, line, k.0);
        } else {
          assert rest == "" && text[..n] + k.0 == line;
          ReadOne(read, r, line);
        }
      }
    }
  }

  /** Whatever reads is fine to keep. */
  lemma {:induction false} ReadableIsFine(r: Reader, text: string)
    requires NUL !in text && ReadText(r, text).Some?
    ensures AllFine(Owned, SectionAfter, Fine, text, r.wifi)
    decreases |text|
  {
    if text != "" {
      var line := FirstLine(text);
      ReadableLine(r, line);
      ReadableIsFine(ReadLine(r, line).value, text[AfterLine(text)..]);
    }
  }

  lemma ReadableLine(r: Reader, line: string)
    requires NUL !in line && ReadLine(r, line).Some?
    ensures Fine(line) && ReadLine(r, line).value.wifi == SectionAfter(line, r.wifi)
  {
    WholeString(line);
    ReadableTrimmed(r, Trim(line));
  }

  lemma ReadableTrimmed(r: Reader, t: string)
    requires ReadTrimmed(r, t).Some?
    ensures Skipped(t) || (if t[0] == '[' then IsSection(t) else IndexOf(t, '=') < |t|)
    ensures ReadTrimmed(r, t).value.wifi == if IsSection(t) then NamesWifi(t) else r.wifi
  {
    if !Skipped(t) && t[0] != '[' {
      SettingKeepsSection(r, Trim(t[..IndexOf(t, '=')]), Trim(t[IndexOf(t, '=') + 1..]));
    }
  }

  lemma SettingKeepsSection(r: Reader, key: string, value: string)
    requires ReadSetting(r, key, value).Some?
    ensures ReadSetting(r, key, value).value.wifi == r.wifi
  {
  }
}
