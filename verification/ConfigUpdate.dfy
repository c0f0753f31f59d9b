/** What comes back from a Wi-Fi configuration file after an update, and what an update keeps of it. */
module ConfigUpdate {
  import opened ConfigSpec
  import opened ConfigRoundTrip

  // ----- One setting -----

  /** Usable on the left of an equals sign. */
  predicate Key(key: string) {
    && Tight(key) && '=' !in key && '\n' !in key && NUL !in key
    && key[0] != '#' && key[0] != ';' && key[0] != '['
  }

  lemma SettingTrimmed(key: string, value: string)
    requires Key(key) && Tight(value)
    ensures var line := key + "=" + value;
            && Trim(line) == line && !Skipped(line) && line[0] != '[' && !IsSection(line)
            && IndexOf(line, '=') == |key| && Trim(line[..|key|]) == key && Trim(line[|key| + 1..]) == value
  {
    var line := key + "=" + value;
    TightStays(line);
    TightStays(key);
    TightStays(value);
    assert line[..|key|] == key && line[|key| + 1..] == value;
    FirstIs(line, '=', |key|);
  }

  lemma SettingLine(r: Reader, key: string, value: string)
    requires Key(key) && Tight(value) && NUL !in value
    ensures ReadLine(r, key + "=" + value) == ReadSetting(r, key, value)
    ensures forall wifi :: Owned(key + "=" + value, wifi) == OwnedKey(key, wifi)
    ensures forall wifi :: SectionAfter(key + "=" + value, wifi) == wifi
  {
    SettingTrimmed(key, value);
    WholeString(key + "=" + value);
  }

  lemma {:induction false} EscapeChars(s: string, c: char)
    requires c != '\\'
    ensures c in Escape(s) <==> c in s
  {
    if s != "" {
      EscapeChars(s[1..], c);
      assert s == [s[0]] + s[1..];
    }
  }

  function EscapeOne(c: char): string {
    if Special(c) then ['\\', c] else [c]
  }

  lemma {:induction false} EscapeAppend(a: string, b: string)
    ensures Escape(a + b) == Escape(a) + Escape(b)
  {
    if a == "" {
      assert a + b == b;
    } else {
      var all := a + b;
      assert all[1..] == a[1..] + b && all[0] == a[0];
      EscapeAppend(a[1..], b);
      assert Escape(all) == EscapeOne(a[0]) + Escape(a[1..] + b);
      assert Escape(a) == EscapeOne(a[0]) + Escape(a[1..]);
      Regroup(EscapeOne(a[0]), Escape(a[1..]), Escape(b));
    }
  }

  lemma Regroup(a: string, b: string, c: string)
    ensures a + (b + c) == a + b + c
  {
  }

  lemma QuoteChars(s: string)
    requires NUL !in s
    ensures NUL !in Quote(s) && Tight(Quote(s)) && ('\n' in Quote(s) <==> '\n' in s)
  {
    EscapeChars(s, '\n');
    EscapeChars(s, NUL);
  }

  /** A quoted value cut short never unquotes. */
  lemma {:induction false} CutShort(s: string, n: nat, used: nat, capacity: nat)
    requires n <= |Escape(s)|
    ensures UnquoteRest(Escape(s)[..n], used, capacity).None?
    decreases |s|
  {
    if n > 0 {
      var step := if Special(s[0]) then 2 else 1;
      if n >= step {
        assert Escape(s)[..n][step..] == Escape(s[1..])[..n - step];
        CutShort(s[1..], n - step, used + 1, capacity);
      }
    }
  }

  /** No buffer is large enough to unquote the value. */
  ghost predicate Unclosed(v: string) {
    forall capacity :: Unquote(v, capacity).None?
  }

  lemma CutValue(a: string, v: string)
    requires v != "" && |v| <= |Escape(a)| + 1 && v == ("\"" + Escape(a))[..|v|]
    ensures Unclosed(v)
  {
    forall capacity ensures Unquote(v, capacity).None? {
      assert v[1..] == Escape(a)[..|v| - 1];
      CutShort(a, |v| - 1, 0, capacity);
    }
  }

  /** The start of a setting's line that reaches past the equals sign. */
  lemma SettingStart(key: string, rest: string, m: nat)
    requires Key(key) && |key| + 1 < m <= |key| + 1 + |rest|
    ensures var t := (key + "=" + rest)[..m];
            && !Skipped(t) && t[0] != '[' && IndexOf(t, '=') == |key| && Trim(t[..|key|]) == key
            && t[|key| + 1..] == rest[..m - |key| - 1]
  {
    var t := (key + "=" + rest)[..m];
    assert t[0] == key[0] && t[..|key|] == key;
    FirstIs(t, '=', |key|);
    TightStays(key);
  }

  /** A line that breaks off inside a quoted value, however its end is trimmed. */
  lemma CutTrimmed(key: string, a: string)
    requires Key(key)
    ensures var t := Trim(key + "=" + ("\"" + Escape(a)));
            && !Skipped(t) && t[0] != '[' && IndexOf(t, '=') == |key| < |t| && Trim(t[..|key|]) == key
            && Unclosed(Trim(t[|key| + 1..]))
  {
    var rest := "\"" + Escape(a);
    var line := key + "=" + rest;
    assert line[|key| + 1] == '"' && line[0] == key[0];
    TrimStart(line, |key| + 1);
    var m := |Trim(line)|;
    SettingStart(key, rest, m);
    CutAnywhere(a, m - |key| - 1);
  }

  lemma CutAnywhere(a: string, n: nat)
    requires 0 < n <= |Escape(a)| + 1
    ensures Unclosed(Trim(("\"" + Escape(a))[..n]))
  {
    var value := ("\"" + Escape(a))[..n];
    TrimStart(value, 0);
    CutValue(a, Trim(value));
  }

  lemma CutLine(r: Reader, key: string, a: string)
    requires r.wifi && (key == "ssid" || key == "password") && Key(key)
    ensures ReadLine(r, key + "=" + ("\"" + Escape(a))).None?
  {
    CutTrimmed(key, a);
    var t := Trim(key + "=" + ("\"" + Escape(a)));
    CutSetting(r, key, Trim(t[|key| + 1..]));
  }

  lemma CutSetting(r: Reader, key: string, value: string)
    requires r.wifi && (key == "ssid" || key == "password")
    requires Unclosed(value)
    ensures ReadSetting(r, key, value).None?
  {
    assert Unquote(value, SSID_MAX + 1).None? && Unquote(value, PASSWORD_MAX + 1).None?;
  }

  /** Reading `key="s"` and what follows. */
  lemma QuotedLine(r: Reader, key: string, s: string, rest: string)
    requires Key(key) && NUL !in s && '\n' !in s
    ensures ReadText(r, key + "=" + (Quote(s) + "\n") + rest)
         == var next := ReadSetting(r, key, Quote(s)); if next.None? then None else ReadText(next.value, rest)
  {
    QuoteChars(s);
    var line := key + "=" + Quote(s);
    assert key + "=" + (Quote(s) + "\n") + rest == line + "\n" + rest;
    SettingLine(r, key, Quote(s));
    ReadLineThen(ReadLine, r, line, rest);
  }

  /** Text escaped from a value that holds a line end breaks there. */
  lemma EscapeBreaks(s: string) returns (a: string, b: string)
    requires '\n' in s
    ensures Escape(s) == Escape(a) + "\n" + Escape(b) && '\n' !in Escape(a)
  {
    var n := IndexOf(s, '\n');
    a, b := s[..n], s[n + 1..];
    assert s == a + s[n..] && s[n..][1..] == b && s[n..][0] == '\n';
    EscapeAppend(a, s[n..]);
    assert Escape(s[n..]) == "\n" + Escape(b);
    Regroup(Escape(a), "\n", Escape(b));
    EscapeChars(a, '\n');
  }

  /** A value that holds a line end cannot be read back. */
  lemma CutText(r: Reader, key: string, s: string, rest: string)
    requires r.wifi && (key == "ssid" || key == "password") && Key(key) && '\n' in s
    ensures ReadText(r, key + "=" + (Quote(s) + "\n") + rest).None?
  {
    var a, b := EscapeBreaks(s);
    CutLine(r, key, a);
    Breaks(r, key, Escape(a), Escape(b), rest);
    assert Quote(s) == "\"" + (Escape(a) + "\n" + Escape(b)) + "\"";
  }

  lemma Breaks(r: Reader, key: string, a: string, b: string, rest: string)
    requires Key(key) && '\n' !in a && ReadLine(r, key + "=" + ("\"" + a)).None?
    ensures ReadText(r, key + "=" + ("\"" + (a + "\n" + b) + "\"" + "\n") + rest).None?
  {
    var line, more := key + "=" + ("\"" + a), b + "\"\n" + rest;
    assert key + "=" + ("\"" + (a + "\n" + b) + "\"" + "\n") + rest == line + "\n" + more;
    ReadLineThen(ReadLine, r, line, more);
  }

  // ----- All the settings -----

  /** The settings that come back. */
  function Effective(config: Config): Config {
    config.(name := EffectiveName(config))
  }

  predicate OneLine(config: Config) {
    '\n' !in config.ssid && '\n' !in config.password
  }

  predicate NoNul(config: Config) {
    NUL !in config.ssid && NUL !in config.password && NUL !in config.name
  }

  lemma KeysAreKeys()
    ensures Key("ssid") && Key("password") && Key("name") && Key("auto_connect") && Key("version")
  {
  }

  lemma QuotedSetting(r: Reader, s: string)
    requires r.wifi && NUL !in s
    ensures 0 < |s| <= SSID_MAX ==>
              ReadSetting(r, "ssid", Quote(s)) == Some(r.(config := r.config.(ssid := s), ssid := true))
    ensures |s| <= PASSWORD_MAX ==>
              ReadSetting(r, "password", Quote(s)) == Some(r.(config := r.config.(password := s)))
    ensures ValidHostname(s) ==> ReadSetting(r, "name", Quote(s)) == Some(r.(config := r.config.(name := s)))
  {
    QuoteInverse(Quote(s), s, SSID_MAX + 1);
    QuoteInverse(Quote(s), s, PASSWORD_MAX + 1);
    QuoteInverse(Quote(s), s, NAME_MAX + 1);
  }

  lemma FlagSplit(value: string)
    ensures "auto_connect=" + value + "\n" == "auto_connect" + "=" + value + "\n" + ""
  {
  }

  lemma FlagLine(r: Reader, b: bool)
    requires r.wifi
    ensures ReadText(r, "auto_connect=" + Flag(b) + "\n") == Some(r.(config := r.config.(autoConnect := b)))
  {
    KeysAreKeys();
    FlagSplit(Flag(b));
    PlainLine(r, "auto_connect", Flag(b));
  }

  /** A line of a key and a value that needs no quotes. */
  lemma PlainLine(r: Reader, key: string, value: string)
    requires Key(key) && Tight(value) && NUL !in value && '\n' !in value
    ensures ReadText(r, key + "=" + value + "\n" + "") == ReadSetting(r, key, value)
  {
    SettingLine(r, key, value);
    ReadLineThen(ReadLine, r, key + "=" + value, "");
  }

  function FromName(config: Config): string {
    "name=" + (Quote(EffectiveName(config)) + "\n") + ("auto_connect=" + Flag(config.autoConnect) + "\n")
  }

  function FromPassword(config: Config): string {
    "password=" + (Quote(config.password) + "\n") + FromName(config)
  }

  function FromSsid(config: Config): string {
    "ssid=" + (Quote(config.ssid) + "\n") + FromPassword(config)
  }

  lemma HeaderSplit()
    ensures "\n[wifi]\nssid=" == "" + "\n" + ("[wifi]" + "\n" + "ssid=")
  {
  }

  lemma Rearrange(b: string, w: string, s: string, q1: string, p: string, q2: string, n: string, q3: string, a: string)
    ensures b + (w + s) + q1 + p + q2 + n + q3 + a == b + (w + (s + q1 + (p + q2 + (n + q3 + a))))
  {
  }

  lemma SettingsSplit(config: Config)
    ensures Settings(config) == "" + "\n" + ("[wifi]" + "\n" + FromSsid(config))
  {
    HeaderSplit();
    Rearrange("" + "\n", "[wifi]" + "\n", "ssid=", Quote(config.ssid) + "\n",
              "password=", Quote(config.password) + "\n", "name=", Quote(EffectiveName(config)) + "\n",
              "auto_connect=" + Flag(config.autoConnect) + "\n");
  }

  lemma DefaultIsHostname(config: Config)
    requires config.name == "" || ValidHostname(config.name)
    ensures ValidHostname(EffectiveName(config)) && NUL !in EffectiveName(config) && '\n' !in EffectiveName(config)
  {
  }

  lemma ReadFromName(r: Reader, config: Config)
    requires r.wifi && (config.name == "" || ValidHostname(config.name))
    ensures ReadText(r, FromName(config))
         == Some(r.(config := r.config.(name := EffectiveName(config), autoConnect := config.autoConnect)))
  {
    KeysAreKeys();
    DefaultIsHostname(config);
    var name := EffectiveName(config);
    assert "name=" == "name" + "=";
    QuotedSetting(r, name);
    QuotedLine(r, "name", name, "auto_connect=" + Flag(config.autoConnect) + "\n");
    FlagLine(r.(config := r.config.(name := name)), config.autoConnect);
  }

  lemma ReadFromPassword(r: Reader, config: Config)
    requires r.wifi && (config.name == "" || ValidHostname(config.name)) && |config.password| <= PASSWORD_MAX
    requires NUL !in config.password
    ensures ReadText(r, FromPassword(config))
         == if '\n' in config.password then None
            else Some(r.(config := Effective(config).(ssid := r.config.ssid)))
  {
    KeysAreKeys();
    assert "password=" == "password" + "=";
    if '\n' in config.password {
      CutText(r, "password", config.password, FromName(config));
    } else {
      QuotedSetting(r, config.password);
      QuotedLine(r, "password", config.password, FromName(config));
      ReadFromName(r.(config := r.config.(password := config.password)), config);
    }
  }

  lemma ReadFromSsid(r: Reader, config: Config)
    requires r.wifi && Acceptable("", config) && NoNul(config)
    ensures ReadText(r, FromSsid(config))
         == if OneLine(config) then Some(r.(config := Effective(config), ssid := true)) else None
  {
    KeysAreKeys();
    assert "ssid=" == "ssid" + "=";
    if '\n' in config.ssid {
      CutText(r, "ssid", config.ssid, FromPassword(config));
    } else {
      QuotedSetting(r, config.ssid);
      QuotedLine(r, "ssid", config.ssid, FromPassword(config));
      ReadFromPassword(r.(config := r.config.(ssid := config.ssid), ssid := true), config);
    }
  }

  lemma BlankLine(r: Reader)
    ensures ReadLine(r, "") == Some(r) && !Owned("", r.wifi) && SectionAfter("", r.wifi) == r.wifi
  {
  }

  lemma WifiLine(r: Reader, line: string)
    requires line == "[wifi]"
    ensures ReadLine(r, line) == Some(r.(wifi := true))
    ensures !Owned(line, true) && SectionAfter(line, r.wifi)
  {
    TightStays(line);
    TightStays("wifi");
    assert line[1..|line| - 1] == "wifi";
    WholeString(line);
    assert forall i :: 0 <= i < |line| ==> line[i] != '=';
  }

  lemma ReadPair(read: (Reader, string) -> Option<Reader>, r: Reader, next: Reader, blank: string, header: string,
                 rest: string)
    requires '\n' !in blank && read(r, blank) == Some(r) && '\n' !in header && read(r, header) == Some(next)
    ensures ReadLines(read, r, blank + "\n" + (header + "\n" + rest)) == ReadLines(read, next, rest)
  {
    ReadLineThen(read, r, blank, header + "\n" + rest);
    ReadLineThen(read, r, header, rest);
  }

  lemma TwoLines(r: Reader, blank: string, header: string, rest: string)
    requires blank == "" && header == "[wifi]"
    ensures ReadText(r, blank + "\n" + (header + "\n" + rest)) == ReadText(r.(wifi := true), rest)
  {
    BlankLine(r);
    WifiLine(r, header);
    ReadPair(ReadLine, r, r.(wifi := true), blank, header, rest);
  }

  lemma ReadSettings(r: Reader, config: Config)
    requires Acceptable("", config) && NoNul(config)
    ensures ReadText(r, Settings(config))
         == if OneLine(config) then Some(r.(config := Effective(config), wifi := true, ssid := true)) else None
  {
    SettingsSplit(config);
    TwoLines(r, "", "[wifi]", FromSsid(config));
    ReadFromSsid(r.(wifi := true), config);
  }

  // ----- The whole file -----

  /** A line outside the wifi section that an update replaces. */
  predicate Replaced(line: string) {
    '\n' !in line && Owned(line, false) && !SectionAfter(line, false)
  }

  lemma VersionLine(r: Reader)
    requires !r.wifi
    ensures ReadLine(r, "version=1") == Some(r.(version := true))
    ensures Replaced("version=1")
  {
    KeysAreKeys();
    assert "version=1" == "version" + "=" + "1";
    SettingLine(r, "version", "1");
  }

  lemma ReadStep(read: (Reader, string) -> Option<Reader>, r: Reader, next: Reader, line: string, rest: string)
    requires '\n' !in line && read(r, line) == Some(next)
    ensures ReadLines(read, r, line + "\n" + rest) == ReadLines(read, next, rest)
  {
    ReadLineThen(read, r, line, rest);
  }

  lemma VersionThen(r: Reader, k: string)
    requires !r.wifi
    ensures ReadText(r, "version=1" + "\n" + k) == ReadText(r.(version := true), k)
  {
    VersionLine(r);
    ReadStep(ReadLine, r, r.(version := true), "version=1", k);
  }

  lemma VersionSplit(k: string)
    ensures VERSION_LINE + k == "version=1" + "\n" + k
  {
  }

  lemma ReadVersionThen(k: string)
    ensures ReadText(START, Closed(VERSION_LINE + k)) == ReadText(START.(version := true), k)
  {
    ReadClosed(ReadLine, START, VERSION_LINE + k);
    VersionSplit(k);
    VersionThen(START, k);
  }

  lemma ReadKeptText(r: Reader, text: string)
    requires NUL !in text
    ensures ReadText(r, Kept(text, r.wifi).0)
         == if AllFine(Owned, SectionAfter, Fine, text, r.wifi) then Some(r.(wifi := Kept(text, r.wifi).1)) else None
  {
    forall line: string | NUL !in line ensures Separates(Owned, SectionAfter, Fine, ReadLine, line) {
      ReaderSeparates(line);
    }
    ReadKept(Owned, SectionAfter, Fine, ReadLine, r, text);
  }

  lemma ReadHead(existing: string)
    requires NUL !in existing
    ensures ReadText(START, Head(existing))
         == if KeptFine(existing) then Some(START.(version := true, wifi := Kept(existing, false).1)) else None
  {
    ReadVersionThen(Kept(existing, false).0);
    ReadKeptText(START.(version := true), existing);
  }

  lemma {:induction false} KeptChars(text: string, wifi: bool, c: char)
    requires c in Kept(text, wifi).0
    ensures c in text
    decreases |text|
  {
    var line, n := FirstLine(text), AfterLine(text);
    var rest := Kept(text[n..], SectionAfter(line, wifi));
    assert text == text[..n] + text[n..];
    if c in rest.0 {
      KeptChars(text[n..], SectionAfter(line, wifi), c);
    }
  }

  lemma HeadNoNul(existing: string)
    requires NUL !in existing
    ensures NUL !in Head(existing) && Head(existing) != "" && Ended(Head(existing))
  {
    if NUL in Kept(existing, false).0 {
      KeptChars(existing, false, NUL);
    }
  }

  lemma SettingsNoNul(config: Config)
    requires NoNul(config)
    ensures NUL !in Settings(config)
  {
    QuoteChars(config.ssid);
    QuoteChars(config.password);
    QuoteChars(EffectiveName(config));
  }

  /** An updated file reads back as the settings it was given exactly when it is not too long for a reader, no
      setting holds a line end, and every line kept from the old file can be read. */
  lemma UpdateReadsBack(existing: string, config: Config, capacity: nat)
    requires NoNul(config) && NUL !in existing && FormatUpdate(existing, config, capacity).Ok?
    ensures Parse(FormatUpdate(existing, config, capacity).value) == Ok(Effective(config))
       <==> |Output(existing, config)| <= FILE_MAX && OneLine(config) && KeptFine(existing)
  {
    var text := Output(existing, config);
    HeadNoNul(existing);
    SettingsNoNul(config);
    WholeString(text);
    ReadHead(existing);
    ReadAppend(ReadLine, START, Head(existing), Settings(config));
    if KeptFine(existing) {
      ReadSettings(START.(version := true, wifi := Kept(existing, false).1), config);
    }
  }

  /** So a file that was empty or readable always reads back, when the file stays small enough. */
  lemma UpdateOfReadable(existing: string, config: Config, capacity: nat)
    requires NoNul(config) && OneLine(config) && NUL !in existing && FormatUpdate(existing, config, capacity).Ok?
    requires existing == "" || Parse(existing).Ok?
    ensures Parse(FormatUpdate(existing, config, capacity).value) == Ok(Effective(config))
       <==> |Output(existing, config)| <= FILE_MAX
  {
    UpdateReadsBack(existing, config, capacity);
    if existing != "" {
      WholeString(existing);
      ReadableIsFine(START, existing);
    }
  }

  /** The save path gives the rewriter a buffer one byte longer than a reader accepts: what it writes always
      reads back. */
  lemma SavedFileReadsBack(existing: string, config: Config)
    requires NoNul(config) && OneLine(config) && NUL !in existing
    requires existing == "" || Parse(existing).Ok?
    ensures var r := FormatUpdate(existing, config, FILE_MAX + 1); r.Ok? ==> Parse(r.value) == Ok(Effective(config))
  {
    if FormatUpdate(existing, config, FILE_MAX + 1).Ok? {
      UpdateOfReadable(existing, config, FILE_MAX + 1);
    }
  }

  // ----- What an update keeps -----

  lemma KeptThen(owned: (string, bool) -> bool, section: (string, bool) -> bool, line: string, rest: string, wifi: bool)
    requires '\n' !in line
    ensures var now := section(line, wifi);
            var k := KeptLines(owned, section, rest, now);
            KeptLines(owned, section, line + "\n" + rest, wifi)
            == (if owned(line, now) then k.0 else line + "\n" + k.0, k.1)
  {
    var text := line + "\n" + rest;
    LineThen(line, rest);
    assert text[..|line| + 1] == line + "\n";
  }

  lemma KeptOwned(owned: (string, bool) -> bool, section: (string, bool) -> bool, line: string, rest: string,
                  wifi: bool)
    requires '\n' !in line && owned(line, wifi) && section(line, wifi) == wifi
    ensures KeptLines(owned, section, line + "\n" + rest, wifi) == KeptLines(owned, section, rest, wifi)
  {
    KeptThen(owned, section, line, rest, wifi);
  }

  lemma {:induction false} KeptAppend(owned: (string, bool) -> bool, section: (string, bool) -> bool, a: string,
                                      b: string, wifi: bool)
    requires Ended(a)
    ensures var k := KeptLines(owned, section, a, wifi);
            var l := KeptLines(owned, section, b, k.1);
            KeptLines(owned, section, a + b, wifi) == (k.0 + l.0, l.1)
    decreases |a|
  {
    if a == "" {
      assert a + b == b;
      var l := KeptLines(owned, section, b, wifi);
      assert "" + l.0 == l.0;
    } else {
      var line, rest := FirstLine(a), a[AfterLine(a)..];
      EndedFirst(a);
      assert a + b == line + "\n" + (rest + b);
      var now := section(line, wifi);
      KeptThen(owned, section, line, rest, wifi);
      KeptThen(owned, section, line, rest + b, wifi);
      KeptAppend(owned, section, rest, b, now);
      var k := KeptLines(owned, section, rest, now);
      Regroup(line + "\n", k.0, KeptLines(owned, section, b, k.1).0);
    }
  }

  /** Replaced lines do not open or close a section. */
  ghost predicate Steady(owned: (string, bool) -> bool, section: (string, bool) -> bool, line: string) {
    forall wifi :: owned(line, section(line, wifi)) ==> section(line, wifi) == wifi
  }

  lemma ClosedAfter(line: string, rest: string)
    ensures Closed(line + "\n" + rest) == line + "\n" + Closed(rest)
  {
  }

  lemma KeptAgainLine(owned: (string, bool) -> bool, section: (string, bool) -> bool, line: string, rest: string,
                      wifi: bool)
    requires '\n' !in line && !owned(line, section(line, wifi))
    requires var k := KeptLines(owned, section, rest, section(line, wifi));
             KeptLines(owned, section, Closed(k.0), section(line, wifi)) == (Closed(k.0), k.1)
    ensures var k := KeptLines(owned, section, line + "\n" + rest, wifi);
            KeptLines(owned, section, Closed(k.0), wifi) == (Closed(k.0), k.1)
  {
    var k := KeptLines(owned, section, rest, section(line, wifi));
    KeptThen(owned, section, line, rest, wifi);
    ClosedAfter(line, k.0);
    KeptThen(owned, section, line, Closed(k.0), wifi);
  }

  /** A kept line without its end is kept with it. */
  lemma KeptAlone(owned: (string, bool) -> bool, section: (string, bool) -> bool, line: string, wifi: bool)
    requires line != "" && '\n' !in line && !owned(line, section(line, wifi))
    ensures KeptLines(owned, section, line, wifi) == (line, section(line, wifi))
    ensures KeptLines(owned, section, Closed(line), wifi) == (Closed(line), section(line, wifi))
  {
    var now := section(line, wifi);
    assert IndexOf(line, '\n') == |line|;
    assert FirstLine(line) == line && line[AfterLine(line)..] == "";
    assert KeptLines(owned, section, "", now) == ("", now) && line[..|line|] + "" == line;
    assert Closed(line) == line + "\n" + "";
    KeptThen(owned, section, line, "", wifi);
  }

  /** What was kept of a text is kept as a whole by a second update. */
  ghost predicate KeepsKept(owned: (string, bool) -> bool, section: (string, bool) -> bool, text: string, wifi: bool) {
    var k := KeptLines(owned, section, text, wifi);
    KeptLines(owned, section, Closed(k.0), wifi) == (Closed(k.0), k.1)
  }

  lemma KeptAgainOwned(owned: (string, bool) -> bool, section: (string, bool) -> bool, text: string, wifi: bool)
    requires text != "" && Steady(owned, section, FirstLine(text))
    requires owned(FirstLine(text), section(FirstLine(text), wifi))
    requires KeepsKept(owned, section, text[AfterLine(text)..], section(FirstLine(text), wifi))
    ensures KeepsKept(owned, section, text, wifi)
  {
    var line, rest := FirstLine(text), text[AfterLine(text)..];
    assert section(line, wifi) == wifi;
    assert KeptLines(owned, section, text, wifi) == KeptLines(owned, section, rest, wifi);
  }

  lemma KeptAgainStep(owned: (string, bool) -> bool, section: (string, bool) -> bool, text: string, wifi: bool)
    requires text != "" && Steady(owned, section, FirstLine(text))
    requires KeepsKept(owned, section, text[AfterLine(text)..], section(FirstLine(text), wifi))
    ensures KeepsKept(owned, section, text, wifi)
  {
    var line, rest := FirstLine(text), text[AfterLine(text)..];
    var now := section(line, wifi);
    if owned(line, now) {
      KeptAgainOwned(owned, section, text, wifi);
    } else if AfterLine(text) > |line| {
      assert text == line + "\n" + rest;
      KeptAgainLine(owned, section, line, rest, wifi);
    } else {
      assert text == line;
      KeptAlone(owned, section, line, wifi);
    }
  }

  /** Nothing that was kept is dropped by a second update. */
  lemma {:induction false} KeptAgain(owned: (string, bool) -> bool, section: (string, bool) -> bool, text: string,
                                     wifi: bool)
    requires NUL !in text && forall line: string :: NUL !in line ==> Steady(owned, section, line)
    ensures KeepsKept(owned, section, text, wifi)
    decreases |text|
  {
    if text == "" {
      assert KeptLines(owned, section, "", wifi) == ("", wifi);
    } else {
      KeptAgain(owned, section, text[AfterLine(text)..], section(FirstLine(text), wifi));
      KeptAgainStep(owned, section, text, wifi);
    }
  }

  /** A line of settings leaves no trace. */
  lemma KeptSetting(key: string, value: string, rest: string)
    requires Key(key) && Tight(value) && NUL !in value && '\n' !in value && OwnedKey(key, true)
    ensures Kept(key + "=" + (value + "\n") + rest, true) == Kept(rest, true)
  {
    var line := key + "=" + value;
    assert key + "=" + (value + "\n") + rest == line + "\n" + rest;
    SettingLine(START.(wifi := true), key, value);
    KeptThen(Owned, SectionAfter, line, rest, true);
  }

  lemma KeptFromSsid(config: Config)
    requires Acceptable("", config) && NoNul(config) && OneLine(config)
    ensures Kept(FromSsid(config), true) == ("", true)
  {
    KeysAreKeys();
    DefaultIsHostname(config);
    QuoteChars(config.ssid);
    QuoteChars(config.password);
    QuoteChars(EffectiveName(config));
    assert "ssid=" == "ssid" + "=" && "password=" == "password" + "=" && "name=" == "name" + "=";
    KeptSetting("ssid", Quote(config.ssid), FromPassword(config));
    KeptSetting("password", Quote(config.password), FromName(config));
    KeptSetting("name", Quote(EffectiveName(config)), "auto_connect=" + Flag(config.autoConnect) + "\n");
    KeptFlag(config.autoConnect);
  }

  lemma KeptFlag(b: bool)
    ensures Kept("auto_connect=" + Flag(b) + "\n", true) == ("", true)
  {
    KeysAreKeys();
    assert "auto_connect=" + Flag(b) + "\n" == "auto_connect" + "=" + (Flag(b) + "\n") + "";
    KeptSetting("auto_connect", Flag(b), "");
  }

  const SECTION_START := "\n[wifi]\n"

  lemma KeptPair(owned: (string, bool) -> bool, section: (string, bool) -> bool, blank: string, header: string,
                 rest: string, wifi: bool)
    requires '\n' !in blank && !owned(blank, wifi) && section(blank, wifi) == wifi
    requires '\n' !in header && !owned(header, true) && section(header, wifi)
    requires KeptLines(owned, section, rest, true) == ("", true)
    ensures KeptLines(owned, section, blank + "\n" + (header + "\n" + rest), wifi)
         == (blank + "\n" + (header + "\n"), true)
  {
    KeptThen(owned, section, header, rest, wifi);
    assert header + "\n" + "" == header + "\n";
    KeptThen(owned, section, blank, header + "\n" + rest, wifi);
  }

  lemma SectionSplit()
    ensures SECTION_START == "" + "\n" + ("[wifi]" + "\n")
  {
  }

  lemma KeptTwoLines(blank: string, header: string, rest: string, wifi: bool)
    requires blank == "" && header == "[wifi]" && Kept(rest, true) == ("", true)
    ensures Kept(blank + "\n" + (header + "\n" + rest), wifi) == (blank + "\n" + (header + "\n"), true)
  {
    BlankLine(START.(wifi := wifi));
    WifiLine(START.(wifi := wifi), header);
    KeptPair(Owned, SectionAfter, blank, header, rest, wifi);
  }

  lemma KeptSettings(config: Config, wifi: bool)
    requires Acceptable("", config) && NoNul(config) && OneLine(config)
    ensures Kept(Settings(config), wifi) == (SECTION_START, true)
  {
    SettingsSplit(config);
    KeptFromSsid(config);
    KeptTwoLines("", "[wifi]", FromSsid(config), wifi);
    SectionSplit();
  }

  lemma KeptHead(existing: string)
    requires NUL !in existing
    ensures Kept(Head(existing), false) == (Closed(Kept(existing, false).0), Kept(existing, false).1)
    ensures Head(existing) == VERSION_LINE + Closed(Kept(existing, false).0)
  {
    var k := Kept(existing, false).0;
    forall line: string | NUL !in line ensures Steady(Owned, SectionAfter, line) {
      ReaderSeparates(line);
    }
    KeptAgain(Owned, SectionAfter, existing, false);
    VersionSplit(k);
    VersionSplit(Closed(k));
    ClosedAfter("version=1", k);
    KeptVersion(Closed(k));
  }

  lemma KeptWithout(line: string, rest: string)
    requires Replaced(line)
    ensures Kept(line + "\n" + rest, false) == Kept(rest, false)
  {
    KeptOwned(Owned, SectionAfter, line, rest, false);
  }

  lemma KeptVersion(rest: string)
    ensures Kept("version=1" + "\n" + rest, false) == Kept(rest, false)
  {
    VersionLine(START);
    KeptWithout("version=1", rest);
  }

  /** Every line an update does not own survives it in order, byte for byte; the only line ends and lines it
      adds are that of the last line, a blank line and the section header. */
  lemma UnownedLinesSurvive(existing: string, config: Config)
    requires Acceptable(existing, config) && NoNul(config) && OneLine(config) && NUL !in existing
    ensures Kept(Output(existing, config), false) == (Closed(Kept(existing, false).0) + SECTION_START, true)
  {
    HeadNoNul(existing);
    KeptHead(existing);
    KeptSettings(config, Kept(existing, false).1);
    KeptAppend(Owned, SectionAfter, Head(existing), Settings(config), false);
  }

  lemma ClosedSection(version: string, kept: string, section: string)
    requires section != "" && Ended(section)
    ensures Closed(version + (kept + section)) == version + kept + section
  {
  }
}
