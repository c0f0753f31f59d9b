/** The lines of a Wi-Fi configuration file: what each means to a reader and which of them an update replaces. */
module ConfigTexts {
  import opened ConfigRoundTrip
  import opened ConfigSpec
  import opened ConfigUpdate

  // ----- Padding -----

  /** Space, tab, line feed, vertical tab, form feed and carriage return. */
  predicate IsBlank(c: char) {
    c == ' ' || 9 as char <= c <= 13 as char
  }

  predicate Blank(s: string) {
    forall i :: 0 <= i < |s| ==> IsBlank(s[i])
  }

  /** Text with no blank at either end. */
  predicate Bare(s: string) {
    s != "" && !IsBlank(s[0]) && !IsBlank(s[|s| - 1])
  }

  lemma BareIsTight(s: string)
    ensures Bare(s) <==> Tight(s)
  {
  }

  lemma {:induction false} LeftPadding(a: string, s: string)
    requires Blank(a) && s != "" && !IsSpace(s[0])
    ensures TrimLeft(a + s) == s
    decreases |a|
  {
    if a == "" {
      assert a + s == s;
    } else {
      assert (a + s)[1..] == a[1..] + s && (a + s)[0] == a[0];
      LeftPadding(a[1..], s);
    }
  }

  lemma {:induction false} RightPadding(s: string, b: string)
    requires Blank(b) && s != "" && !IsSpace(s[|s| - 1])
    ensures TrimRight(s + b) == s
    decreases |b|
  {
    if b == "" {
      assert s + b == s;
    } else {
      var n := |b| - 1;
      assert (s + b)[..|s + b| - 1] == s + b[..n] && (s + b)[|s + b| - 1] == b[n];
      RightPadding(s, b[..n]);
    }
  }

  lemma Padding(a: string, s: string, b: string)
    requires Blank(a) && Bare(s) && Blank(b)
    ensures Trim(a + s + b) == s
  {
    BareIsTight(s);
    assert a + s + b == a + (s + b);
    LeftPadding(a, s + b);
    RightPadding(s, b);
  }

  lemma AllBlank(a: string)
    requires Blank(a)
    ensures Trim(a) == ""
    decreases |a|
  {
    if a != "" {
      AllBlank(a[1..]);
    }
  }

  // ----- Lines -----

  /** A setting with any blanks around its key and its value. */
  function Line(a: string, key: string, b: string, c: string, value: string, d: string): string {
    a + key + b + "=" + (c + value + d)
  }

  /** The blanks of a line. */
  predicate Pads(a: string, b: string, c: string, d: string) {
    Blank(a) && Blank(b) && Blank(c) && Blank(d)
  }

  predicate IsKey(key: string) {
    Bare(key) && '=' !in key && key[0] != '#' && key[0] != ';' && key[0] != '['
  }

  /** A line as text: no line end and no NUL in it. */
  predicate IsLine(line: string) {
    '\n' !in line && NUL !in line
  }

  /** The part before the equals sign holds none itself. */
  lemma EqualsFirst(key: string, b: string, rest: string)
    requires '=' !in key && Blank(b)
    ensures var core := key + b + "=" + rest;
            && IndexOf(core, '=') == |key| + |b| < |core|
            && core[..|key| + |b|] == key + b && core[|key| + |b| + 1..] == rest
  {
    var core := key + b + "=" + rest;
    forall i | 0 <= i < |key| + |b| ensures core[i] != '=' {
      assert core[i] == if i < |key| then key[i] else b[i - |key|];
    }
    FirstIs(core, '=', |key| + |b|);
  }

  lemma TrimEnd(key: string, b: string)
    requires Bare(key) && Blank(b)
    ensures Trim(key + b) == key && Trim(b + key) == key
  {
    Padding("", key, b);
    Padding(b, key, "");
    assert "" + key + b == key + b && b + key + "" == b + key;
  }

  lemma LineTrimmed(a: string, key: string, b: string, c: string, value: string, d: string)
    requires Pads(a, b, c, d) && IsKey(key) && Bare(value)
    ensures var core := key + b + "=" + (c + value);
            && Trim(Line(a, key, b, c, value, d)) == core && |core| > 0 && core[0] == key[0]
  {
    var core := key + b + "=" + (c + value);
    assert Line(a, key, b, c, value, d) == a + core + d;
    assert core[0] == key[0] && core[|core| - 1] == value[|value| - 1];
    Padding(a, core, d);
  }

  /** A setting is taken apart at its equals sign, and the blanks go. */
  lemma SettingRead(r: Reader, a: string, key: string, b: string, c: string, value: string, d: string)
    requires Pads(a, b, c, d) && IsKey(key) && Bare(value)
    ensures ReadLine(r, Line(a, key, b, c, value, d)) == ReadSetting(r, key, value)
  {
    LineTrimmed(a, key, b, c, value, d);
    EqualsFirst(key, b, c + value);
    TrimEnd(key, b);
    TrimEnd(value, c);
  }

  /** What a value in quotes says: quotes and backslashes have a backslash before them. */
  function Shielded(s: string): string {
    if s == "" then ""
    else
      var last := s[|s| - 1];
      Shielded(s[..|s| - 1]) + (if last == '"' || last == '\\' then ['\\', last] else [last])
  }

  lemma {:induction false} EscapeShields(s: string)
    ensures Escape(s) == Shielded(s)
    decreases |s|
  {
    if s != "" {
      var n := |s| - 1;
      EscapeShields(s[..n]);
      EscapeAppend(s[..n], s[n..]);
      assert s == s[..n] + s[n..];
      assert s[n..] == [s[n]] && Escape(s[n..][1..]) == "";
      assert Escape(s[n..]) == if Special(s[n]) then ['\\', s[n]] else [s[n]];
    }
  }

  /** A host name: letters, digits and inner hyphens. */
  predicate HostName(s: string) {
    && 1 <= |s| <= 32
    && (forall i :: 0 <= i < |s| ==>
          'a' <= s[i] <= 'z' || 'A' <= s[i] <= 'Z' || '0' <= s[i] <= '9' || (s[i] == '-' && 0 < i < |s| - 1))
  }

  lemma HostNameIs(s: string)
    ensures HostName(s) <==> ValidHostname(s)
  {
  }

  /** What a setting in the wifi section does to the settings read so far: `text` is what its value says in quotes. */
  predicate Sets(r: Reader, key: string, text: string, next: Option<Reader>) {
    var c := r.config;
    match key
    case "ssid" => next == if 1 <= |text| <= 32 then Some(r.(config := c.(ssid := text), ssid := true)) else None
    case "password" => next == if |text| <= 64 then Some(r.(config := c.(password := text))) else None
    case "name" => next == if HostName(text) then Some(r.(config := c.(name := text))) else None
    case _ => true
  }

  lemma UnquoteIs(s: string, capacity: nat)
    ensures Unquote("\"" + Shielded(s) + "\"", capacity) == if |s| < capacity then Some(s) else None
  {
    var q := "\"" + Shielded(s) + "\"";
    EscapeShields(s);
    QuoteInverse(q, s, capacity);
    if Unquote(q, capacity).Some? {
      var t := Unquote(q, capacity).value;
      QuoteInverse(q, t, capacity);
      SameQuoted(s, t);
    }
  }

  lemma SameQuoted(s: string, t: string)
    requires Quote(s) == Quote(t)
    ensures s == t
  {
    QuoteInverse(Quote(s), s, |s| + |t| + 1);
    QuoteInverse(Quote(s), t, |s| + |t| + 1);
  }

  lemma BareQuoted(s: string)
    ensures Bare("\"" + Shielded(s) + "\"")
  {
  }

  lemma QuotedSets(r: Reader, key: string, text: string, value: string)
    requires r.wifi && value == "\"" + Shielded(text) + "\""
    ensures key in ["ssid", "password", "name"] ==> Sets(r, key, text, ReadSetting(r, key, value))
  {
    UnquoteIs(text, 33);
    UnquoteIs(text, 65);
    HostNameIs(text);
  }

  lemma KeysAre(key: string)
    requires key in ["ssid", "password", "name", "auto_connect", "version"]
    ensures IsKey(key)
  {
  }

  /** A quoted setting of the wifi section is read for what it says, whatever blanks are around it. */
  lemma QuotedSettingRead(r: Reader, a: string, key: string, b: string, c: string, text: string, d: string)
    requires Pads(a, b, c, d) && r.wifi && key in ["ssid", "password", "name"]
    ensures Sets(r, key, text, ReadLine(r, Line(a, key, b, c, "\"" + Shielded(text) + "\"", d)))
  {
    KeysAre(key);
    BareQuoted(text);
    SettingRead(r, a, key, b, c, "\"" + Shielded(text) + "\"", d);
    QuotedSets(r, key, text, "\"" + Shielded(text) + "\"");
  }

  /** A value of these three settings is accepted only in quotes. */
  lemma AcceptedIsQuoted(r: Reader, key: string, value: string) returns (text: string)
    requires r.wifi && key in ["ssid", "password", "name"] && ReadSetting(r, key, value).Some?
    ensures value == "\"" + Shielded(text) + "\""
  {
    var capacity := if key == "password" then 65 else 33;
    text := Unquote(value, capacity).value;
    QuoteInverse(value, text, capacity);
    EscapeShields(text);
  }

  /** What the other settings do: the version is 1 and stands outside the wifi section, a connection flag is true or
      false and stands inside, and what is not known is passed over. */
  lemma PlainSettingRead(r: Reader, key: string, value: string)
    requires key !in ["ssid", "password", "name"] || !r.wifi
    ensures ReadSetting(r, key, value)
         == if key == "version" && !r.wifi then if value == "1" then Some(r.(version := true)) else None
            else if key == "auto_connect" && r.wifi then
              if value == "true" || value == "false" then Some(r.(config := r.config.(autoConnect := value == "true")))
              else None
            else Some(r)
  {
  }

  // ----- Files of lines -----

  /** A setting, a section header, or another line that is blank or a comment. */
  datatype Item =
    | Setting(a: string, key: string, b: string, rest: string)
    | Header(a: string, b: string, name: string, c: string, d: string)
    | Remark(line: string)
  {
    ghost predicate Valid() {
      && IsLine(Text())
      && match this
         case Setting(a, key, b, _) => Blank(a) && IsKey(key) && Blank(b)
         case Header(a, b, name, c, d) => Blank(a) && Blank(b) && Bare(name) && Blank(c) && Blank(d)
         case Remark(line) => '=' !in line && '[' !in line
    }

    function Text(): string {
      match this
      case Setting(a, key, b, rest) => a + (key + b + "=" + rest)
      case Header(a, b, name, c, d) => a + ("[" + (b + name + c) + "]") + d
      case Remark(line) => line
    }

    /** Whether an update replaces it, in or outside the wifi section. */
    predicate Replaces(wifi: bool) {
      Setting? && if wifi then key in ["ssid", "password", "name", "auto_connect"] else key == "version"
    }

    /** Whether the lines after it are in the wifi section. */
    predicate Opens(wifi: bool) {
      if Header? then name == "wifi" else wifi
    }
  }

  function FileOf(items: seq<Item>): string {
    if items == [] then "" else items[0].Text() + "\n" + FileOf(items[1..])
  }

  ghost predicate AllValid(items: seq<Item>) {
    forall i :: 0 <= i < |items| ==> items[i].Valid()
  }

  lemma OnlyRightGoes(s: string, i: nat)
    requires i < |s| && !IsBlank(s[0]) && !IsBlank(s[i])
    ensures i < |Trim(s)| <= |s| && Trim(s) == s[..|Trim(s)|]
  {
    TrimStart(s, i);
  }

  lemma PaddingLeft(a: string, s: string)
    requires Blank(a) && s != "" && !IsBlank(s[0])
    ensures Trim(a + s) == Trim(s)
  {
    LeftPadding(a, s);
    LeftPadding("", s);
    assert "" + s == s;
  }

  lemma SettingTrimmed(key: string, b: string, rest: string, core: string) returns (t: string)
    requires IsKey(key) && Blank(b) && core == key + b + "=" + rest
    ensures t == Trim(core) && t != "" && t[0] == key[0]
    ensures IndexOf(t, '=') == |key| + |b| < |t| && Trim(t[..|key| + |b|]) == key
  {
    var n := |key| + |b|;
    EqualsFirst(key, b, rest);
    assert core[0] == key[0];
    OnlyRightGoes(core, n);
    t := Trim(core);
    FirstIs(t, '=', n);
    assert t[..n] == core[..n];
    TrimEnd(key, b);
  }

  lemma PaddedSetting(a: string, key: string, b: string, rest: string) returns (t: string)
    requires Blank(a) && IsKey(key) && Blank(b)
    ensures t == Trim(a + (key + b + "=" + rest)) && t != "" && t[0] == key[0]
    ensures IndexOf(t, '=') == |key| + |b| < |t| && Trim(t[..|key| + |b|]) == key
  {
    var core := key + b + "=" + rest;
    assert core[0] == key[0];
    PaddingLeft(a, core);
    t := SettingTrimmed(key, b, rest, core);
  }

  lemma TrimmedSetting(item: Item) returns (t: string)
    requires item.Valid() && item.Setting?
    ensures t == Trim(item.Text()) && t != "" && t[0] == item.key[0]
    ensures IndexOf(t, '=') == |item.key| + |item.b| < |t| && Trim(t[..|item.key| + |item.b|]) == item.key
  {
    t := PaddedSetting(item.a, item.key, item.b, item.rest);
  }

  lemma TrimmedHeader(item: Item)
    requires item.Valid() && item.Header?
    ensures var t := "[" + (item.b + item.name + item.c) + "]";
            && Trim(item.Text()) == t && IsSection(t) && Trim(t[1..|t| - 1]) == item.name
  {
    var t := "[" + (item.b + item.name + item.c) + "]";
    Padding(item.a, t, item.d);
    assert t[1..|t| - 1] == item.b + item.name + item.c;
    Padding(item.b, item.name, item.c);
  }

  lemma {:induction false} LeftPart(s: string)
    ensures |TrimLeft(s)| <= |s| && TrimLeft(s) == s[|s| - |TrimLeft(s)|..]
    decreases |s|
  {
    if s != "" && IsSpace(s[0]) {
      LeftPart(s[1..]);
    }
  }

  lemma {:induction false} RightPart(s: string)
    ensures |TrimRight(s)| <= |s| && TrimRight(s) == s[..|TrimRight(s)|]
    decreases |s|
  {
    if s != "" && IsSpace(s[|s| - 1]) {
      RightPart(s[..|s| - 1]);
    }
  }

  /** Trimming adds nothing. */
  lemma TrimmedChars(s: string, c: char)
    requires c !in s
    ensures c !in Trim(s)
  {
    LeftPart(s);
    RightPart(TrimLeft(s));
  }

  lemma RemarkTrimmed(line: string)
    requires '=' !in line && '[' !in line
    ensures IndexOf(Trim(line), '=') == |Trim(line)| && !IsSection(Trim(line))
  {
    TrimmedChars(line, '=');
    TrimmedChars(line, '[');
  }

  /** Which lines an update replaces, and which sections lines stand in. */
  lemma ItemKept(item: Item, wifi: bool)
    requires item.Valid()
    ensures Owned(item.Text(), wifi) == item.Replaces(wifi) && SectionAfter(item.Text(), wifi) == item.Opens(wifi)
  {
    WholeString(item.Text());
    if item.Setting? {
      var t := TrimmedSetting(item);
    } else if item.Header? {
      HeaderNotOwned(item, wifi);
    } else {
      RemarkTrimmed(item.line);
    }
  }

  lemma KeyAtBracket(t: string, n: nat, wifi: bool)
    requires 0 < n <= |t| && t[0] == '['
    ensures !OwnedKey(Trim(t[..n]), wifi)
  {
    KeyStart(t, n);
  }

  lemma HeaderNotOwned(item: Item, wifi: bool)
    requires item.Valid() && item.Header?
    ensures !Owned(item.Text(), wifi) && SectionAfter(item.Text(), wifi) == (item.name == "wifi")
  {
    WholeString(item.Text());
    TrimmedHeader(item);
    var t := Trim(item.Text());
    assert t[0] == '[';
    if IndexOf(t, '=') < |t| {
      KeyAtBracket(t, IndexOf(t, '='), wifi);
    }
  }

  /** The items an update keeps. */
  function Left(items: seq<Item>, wifi: bool): seq<Item> {
    if items == [] then []
    else
      var now := items[0].Opens(wifi);
      (if items[0].Replaces(now) then [] else [items[0]]) + Left(items[1..], now)
  }

  /** A rewriter that replaces a line and goes by sections as the item says. */
  ghost predicate Agrees(owned: (string, bool) -> bool, section: (string, bool) -> bool, item: Item) {
    && '\n' !in item.Text()
    && forall wifi :: owned(item.Text(), wifi) == item.Replaces(wifi) && section(item.Text(), wifi) == item.Opens(wifi)
  }

  /** What is left of an item, with its line end. */
  function LeftOf(item: Item, wifi: bool): string {
    if item.Replaces(item.Opens(wifi)) then "" else item.Text() + "\n"
  }

  lemma AgreedItem(owned: (string, bool) -> bool, section: (string, bool) -> bool, item: Item, rest: string,
                   wifi: bool, left: string)
    requires Agrees(owned, section, item) && KeptLines(owned, section, rest, item.Opens(wifi)).0 == left
    ensures KeptLines(owned, section, item.Text() + "\n" + rest, wifi)
         == (LeftOf(item, wifi) + left, KeptLines(owned, section, rest, item.Opens(wifi)).1)
  {
    KeptThen(owned, section, item.Text(), rest, wifi);
    assert "" + left == left;
  }

  lemma LeftFirst(items: seq<Item>, wifi: bool)
    requires items != []
    ensures FileOf(Left(items, wifi)) == LeftOf(items[0], wifi) + FileOf(Left(items[1..], items[0].Opens(wifi)))
  {
    var now := items[0].Opens(wifi);
    if items[0].Replaces(now) {
      assert [] + Left(items[1..], now) == Left(items[1..], now);
    } else {
      assert ([items[0]] + Left(items[1..], now))[1..] == Left(items[1..], now);
    }
  }

  /** Whether the lines after the items are in the wifi section. */
  function Inside(items: seq<Item>, wifi: bool): bool {
    if items == [] then wifi else Inside(items[1..], items[0].Opens(wifi))
  }

  lemma NothingKept(owned: (string, bool) -> bool, section: (string, bool) -> bool, wifi: bool)
    ensures KeptLines(owned, section, FileOf([]), wifi) == (FileOf(Left([], wifi)), Inside([], wifi))
  {
  }

  lemma {:induction false} AgreedKept(owned: (string, bool) -> bool, section: (string, bool) -> bool, items: seq<Item>,
                                      wifi: bool)
    requires forall i :: 0 <= i < |items| ==> Agrees(owned, section, items[i])
    ensures KeptLines(owned, section, FileOf(items), wifi) == (FileOf(Left(items, wifi)), Inside(items, wifi))
    decreases |items|
  {
    if |items| == 0 {
      NothingKept(owned, section, wifi);
    } else {
      var item, rest := items[0], items[1..];
      var now := item.Opens(wifi);
      AgreedKept(owned, section, rest, now);
      AgreedItem(owned, section, item, FileOf(rest), wifi, FileOf(Left(rest, now)));
      LeftFirst(items, wifi);
    }
  }

  lemma ItemsKept(items: seq<Item>, wifi: bool)
    requires AllValid(items)
    ensures Kept(FileOf(items), wifi) == (FileOf(Left(items, wifi)), Inside(items, wifi))
  {
    forall i | 0 <= i < |items| ensures Agrees(Owned, SectionAfter, items[i]) {
      assert items[i].Valid();
      forall wifi {
        ItemKept(items[i], wifi);
      }
    }
    AgreedKept(Owned, SectionAfter, items, wifi);
  }

  // ----- The file an update writes -----

  /** The wifi section with the settings. */
  function Tail(config: Config): string {
    "\n[wifi]\nssid=\"" + Shielded(config.ssid) + "\"\npassword=\"" + Shielded(config.password)
    + "\"\nname=\"" + Shielded(if config.name == "" then "TabOS" else config.name)
    + "\"\nauto_connect=" + (if config.autoConnect then "true" else "false") + "\n"
  }

  /** The version, the items kept, and the settings. */
  function NewFile(kept: seq<Item>, config: Config): string {
    "version=1\n" + FileOf(kept) + Tail(config)
  }

  lemma Regrouped(a: string, s: string, b: string, p: string, c: string, n: string, d: string, f: string, e: string,
                  q: string, ls: string, lp: string, ln: string, la: string)
    requires a == ls + q && b == q + e + lp + q && c == q + e + ln + q && d == q + e + la
    ensures ls + ((q + s + q) + e) + (lp + ((q + p + q) + e)) + (ln + ((q + n + q) + e)) + (la + f + e)
         == a + s + b + p + c + n + d + f + e
  {
  }

  lemma Literals()
    ensures "\n[wifi]\nssid=\"" == "\n[wifi]\nssid=" + "\""
    ensures "\"\npassword=\"" == "\"" + "\n" + "password=" + "\""
    ensures "\"\nname=\"" == "\"" + "\n" + "name=" + "\""
    ensures "\"\nauto_connect=" == "\"" + "\n" + "auto_connect="
  {
  }

  lemma QuotedIs(s: string, quoted: string)
    requires quoted == Quote(s)
    ensures quoted == "\"" + Shielded(s) + "\""
  {
    EscapeShields(s);
  }

  /** The same settings, piece by piece. */
  function Pieces(ssid: string, password: string, name: string, flag: string): string {
    "\n[wifi]\nssid=" + (ssid + "\n") + ("password=" + (password + "\n")) + ("name=" + (name + "\n"))
    + ("auto_connect=" + flag + "\n")
  }

  lemma SettingsPieces(config: Config)
    ensures Settings(config)
         == Pieces(Quote(config.ssid), Quote(config.password), Quote(EffectiveName(config)), Flag(config.autoConnect))
  {
    PiecesAre("\n[wifi]\nssid=", Quote(config.ssid) + "\n", "password=", Quote(config.password) + "\n", "name=",
              Quote(EffectiveName(config)) + "\n", "auto_connect=" + Flag(config.autoConnect) + "\n");
  }

  lemma PiecesAre(a: string, s: string, b: string, p: string, c: string, n: string, f: string)
    ensures a + s + b + p + c + n + f == a + s + (b + p) + (c + n) + f
  {
  }

  lemma TailPieces(config: Config, name: string)
    requires name == if config.name == "" then "TabOS" else config.name
    ensures Tail(config)
         == Pieces("\"" + Shielded(config.ssid) + "\"", "\"" + Shielded(config.password) + "\"",
                   "\"" + Shielded(name) + "\"", Flag(config.autoConnect))
  {
    Literals();
    Regrouped("\n[wifi]\nssid=\"", Shielded(config.ssid), "\"\npassword=\"", Shielded(config.password),
              "\"\nname=\"", Shielded(name), "\"\nauto_connect=", Flag(config.autoConnect), "\n", "\"",
              "\n[wifi]\nssid=", "password=", "name=", "auto_connect=");
  }

  lemma SettingsText(config: Config)
    ensures Settings(config) == Tail(config)
  {
    QuotedIs(config.ssid, Quote(config.ssid));
    QuotedIs(config.password, Quote(config.password));
    QuotedIs(EffectiveName(config), Quote(EffectiveName(config)));
    SettingsPieces(config);
    TailPieces(config, EffectiveName(config));
  }

  lemma {:induction false} FileEnds(items: seq<Item>)
    ensures FileOf(items) == "" || FileOf(items)[|FileOf(items)| - 1] == '\n'
    decreases |items|
  {
    if items != [] {
      FileEnds(items[1..]);
    }
  }

  lemma HeadIs(existing: string, kept: string)
    requires Kept(existing, false).0 == kept && (kept == "" || kept[|kept| - 1] == '\n')
    ensures Head(existing) == VERSION_LINE + kept
  {
  }

  lemma OutputIs(items: seq<Item>, config: Config)
    requires AllValid(items)
    ensures Output(FileOf(items), config) == NewFile(Left(items, false), config)
  {
    ItemsKept(items, false);
    FileEnds(Left(items, false));
    HeadIs(FileOf(items), FileOf(Left(items, false)));
    SettingsText(config);
  }

  /** An update of a file of such lines writes exactly this, or says why not. */
  lemma UpdateWrites(items: seq<Item>, config: Config, capacity: nat)
    requires AllValid(items)
    ensures var text := NewFile(Left(items, false), config);
            FormatUpdate(FileOf(items), config, capacity)
            == if !(1 <= |config.ssid| <= 32 && |config.password| <= 64 && (config.name == "" || HostName(config.name))
                    && |FileOf(items)| <= 4096) then Failed(Invalid)
               else if |text| >= capacity then Failed(TooLarge)
               else Ok(text)
  {
    HostNameIs(config.name);
    OutputIs(items, config);
  }

  lemma LastItem(owned: (string, bool) -> bool, section: (string, bool) -> bool, item: Item, wifi: bool)
    requires Agrees(owned, section, item) && item.Text() != ""
    ensures KeptLines(owned, section, item.Text(), wifi).0
         == if item.Replaces(item.Opens(wifi)) then "" else item.Text()
  {
    var line := item.Text();
    assert IndexOf(line, '\n') == |line|;
    assert FirstLine(line) == line && line[AfterLine(line)..] == "" && line[..|line|] == line;
    assert line + "" == line;
  }

  lemma LeftOne(item: Item, wifi: bool)
    ensures FileOf(Left([item], wifi)) == LeftOf(item, wifi)
  {
    LeftFirst([item], wifi);
    assert [item][1..] == [] && FileOf(Left([], item.Opens(wifi))) == "";
    assert LeftOf(item, wifi) + "" == LeftOf(item, wifi);
  }

  lemma Associated(a: string, b: string, c: string)
    ensures a + (b + c) == a + b + c
  {
  }

  lemma {:induction false} LeftMore(items: seq<Item>, item: Item, wifi: bool)
    ensures FileOf(Left(items + [item], wifi)) == FileOf(Left(items, wifi)) + LeftOf(item, Inside(items, wifi))
    decreases |items|
  {
    if |items| == 0 {
      assert items + [item] == [item];
      LeftOne(item, wifi);
      assert FileOf(Left(items, wifi)) == "" && "" + LeftOf(item, wifi) == LeftOf(item, wifi);
    } else {
      var now := items[0].Opens(wifi);
      assert (items + [item])[1..] == items[1..] + [item];
      LeftFirst(items + [item], wifi);
      LeftMore(items[1..], item, now);
      LeftFirst(items, wifi);
      Associated(LeftOf(items[0], wifi), FileOf(Left(items[1..], now)), LeftOf(item, Inside(items[1..], now)));
    }
  }

  lemma ClosedLast(kept: string, text: string)
    requires kept == "" || kept[|kept| - 1] == '\n'
    requires text != "" && '\n' !in text
    ensures Closed(VERSION_LINE + (kept + text)) == VERSION_LINE + (kept + (text + "\n"))
  {
    var all := VERSION_LINE + (kept + text);
    assert all[|all| - 1] == text[|text| - 1];
  }

  lemma UnendedKept(items: seq<Item>, item: Item)
    requires AllValid(items) && item.Valid() && item.Text() != ""
    ensures Head(FileOf(items) + item.Text()) == VERSION_LINE + FileOf(Left(items + [item], false))
  {
    var kept, wifi := FileOf(Left(items, false)), Inside(items, false);
    ItemsKept(items, false);
    FileEnds(items);
    FileEnds(Left(items, false));
    KeptAppend(Owned, SectionAfter, FileOf(items), item.Text(), false);
    forall wifi {
      ItemKept(item, wifi);
    }
    LastItem(Owned, SectionAfter, item, wifi);
    LeftMore(items, item, false);
    if item.Replaces(item.Opens(wifi)) {
      assert kept + "" == kept;
      HeadIs(FileOf(items) + item.Text(), kept);
    } else {
      ClosedLast(kept, item.Text());
    }
  }

  /** A last line without its end is treated like one with it. */
  lemma UnendedWrites(items: seq<Item>, item: Item, config: Config)
    requires AllValid(items) && item.Valid() && item.Text() != ""
    ensures Output(FileOf(items) + item.Text(), config) == NewFile(Left(items + [item], false), config)
  {
    UnendedKept(items, item);
    SettingsText(config);
  }

  // ----- Reading such lines -----

  /** A header opens or leaves the wifi section. */
  lemma HeaderRead(r: Reader, item: Item)
    requires item.Valid() && item.Header?
    ensures ReadLine(r, item.Text()) == Some(r.(wifi := item.name == "wifi"))
  {
    TrimmedHeader(item);
  }

  /** Blank lines and comments are passed over; any other line without an equals sign or a bracket is refused. */
  lemma RemarkRead(r: Reader, a: string, line: string, b: string)
    requires Blank(a) && Blank(b)
    ensures ReadLine(r, a) == Some(r)
    ensures Bare(line) && (line[0] == '#' || line[0] == ';') ==> ReadLine(r, a + line + b) == Some(r)
    ensures Bare(line) && line[0] != '#' && line[0] != ';' && line[0] != '[' && '=' !in line ==>
              ReadLine(r, a + line + b) == None
    ensures Bare(line) && line[0] == '[' && line[|line| - 1] != ']' ==> ReadLine(r, a + line + b) == None
  {
    AllBlank(a);
    if Bare(line) {
      Padding(a, line, b);
    }
  }

  /** The file with nothing but the version and a name of the network. */
  function SmallFile(text: string): string {
    "version=1" + "\n" + ("[wifi]" + "\n" + ("ssid" + "=" + ("\"" + Shielded(text) + "\"") + "\n" + ""))
  }

  lemma SmallFileText(text: string)
    requires NUL !in text
    ensures CString(SmallFile(text)) == SmallFile(text)
  {
    ShieldedChars(text, NUL);
    WholeString(SmallFile(text));
  }

  lemma {:induction false} ShieldedChars(s: string, c: char)
    requires c !in s && c != '\\'
    ensures c !in Shielded(s)
  {
    if s != "" {
      ShieldedChars(s[..|s| - 1], c);
    }
  }

  lemma SsidLine(r: Reader, text: string, line: string, next: Reader)
    requires r.wifi && 1 <= |text| <= 32 && NUL !in text && line == "ssid" + "=" + Quote(text)
    requires next == r.(config := r.config.(ssid := text), ssid := true)
    ensures ReadLine(r, line) == Some(next)
  {
    KeysAreKeys();
    QuoteChars(text);
    SettingLine(r, "ssid", Quote(text));
    QuotedSetting(r, text);
  }

  lemma ThreeLines(r0: Reader, r1: Reader, r2: Reader, r3: Reader, a: string, b: string, c: string)
    requires '\n' !in a && '\n' !in b && '\n' !in c
    requires ReadLine(r0, a) == Some(r1) && ReadLine(r1, b) == Some(r2) && ReadLine(r2, c) == Some(r3)
    ensures ReadText(r0, a + "\n" + (b + "\n" + (c + "\n" + ""))) == Some(r3)
  {
    ReadStep(ReadLine, r0, r1, a, b + "\n" + (c + "\n" + ""));
    ReadStep(ReadLine, r1, r2, b, c + "\n" + "");
    ReadStep(ReadLine, r2, r3, c, "");
  }

  lemma VersionRead(v: string, seen: Reader)
    requires v == "version=1" && seen == START.(version := true)
    ensures '\n' !in v && ReadLine(START, v) == Some(seen)
  {
    VersionLine(START);
  }

  lemma SectionRead(w: string, seen: Reader, inside: Reader)
    requires w == "[wifi]" && inside == seen.(wifi := true)
    ensures '\n' !in w && ReadLine(seen, w) == Some(inside)
  {
    WifiLine(seen, w);
  }

  lemma SmallFileLines(text: string, v: string, w: string, line: string, seen: Reader, inside: Reader, r: Reader)
    requires v == "version=1" && w == "[wifi]" && '\n' !in line
    requires 1 <= |text| <= 32 && NUL !in text && line == "ssid" + "=" + Quote(text)
    requires seen == START.(version := true) && inside == seen.(wifi := true)
    requires r == inside.(config := inside.config.(ssid := text), ssid := true)
    ensures ReadText(START, v + "\n" + (w + "\n" + (line + "\n" + ""))) == Some(r)
  {
    VersionRead(v, seen);
    SectionRead(w, seen, inside);
    SsidLine(inside, text, line, r);
    ThreeLines(START, seen, inside, r, v, w, line);
  }

  /** What a reader takes when nothing else is set: no password, the name of the system, and connecting by itself. */
  lemma DefaultsRead(text: string)
    requires 1 <= |text| <= 32 && NUL !in text && '\n' !in text
    ensures |SmallFile(text)| <= 4096 ==> Parse(SmallFile(text)) == Ok(Config(text, "", "TabOS", true))
  {
    ShieldedChars(text, '\n');
    EscapeShields(text);
    SmallFileText(text);
    var seen := START.(version := true);
    var inside := seen.(wifi := true);
    SmallFileLines(text, "version=1", "[wifi]", "ssid" + "=" + Quote(text), seen, inside,
                   inside.(config := inside.config.(ssid := text), ssid := true));
  }

  /** A file that is too long is refused as such, before anything is read, and only then. */
  lemma TooLongIsSaid(text: string)
    ensures |text| > 4096 <==> Parse(text) == Failed(TooLarge)
  {
  }
}
