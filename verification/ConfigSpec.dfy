/** The Wi-Fi configuration file of net/config.c: reading it, and rewriting it around new settings. */
module ConfigSpec {
  datatype Option<T> = None | Some(value: T)

  datatype Error = Invalid | TooLarge

  datatype Result<T> = Ok(value: T) | Failed(error: Error)

  /** The settings; the strings are C strings, so none of them holds a NUL. */
  datatype Config = Config(ssid: string, password: string, name: string, autoConnect: bool)

  const NUL: char := '\0'
  const SSID_MAX: nat := 32
  const PASSWORD_MAX: nat := 64
  const NAME_MAX: nat := 32
  const FILE_MAX: nat := 4096
  const DEFAULT_NAME := "TabOS"

  // ----- Strings -----

  predicate IsSpace(c: char) {
    c == ' ' || c == '\t' || c == '\n' || c == '\r' || c == 11 as char || c == 12 as char
  }

  predicate IsAlphanumeric(c: char) {
    'a' <= c <= 'z' || 'A' <= c <= 'Z' || '0' <= c <= '9'
  }

  /** Position of the first `c`, or the length. */
  function IndexOf(s: string, c: char): (n: nat)
    ensures n <= |s|
    ensures n < |s| ==> s[n] == c
    ensures forall i :: 0 <= i < n ==> s[i] != c
  {
    if s == "" || s[0] == c then 0 else 1 + IndexOf(s[1..], c)
  }

  /** What C string functions see of a buffer. */
  function CString(s: string): string {
    s[..IndexOf(s, NUL)]
  }

  function TrimLeft(s: string): (r: string)
    ensures |r| <= |s|
    ensures r != "" ==> !IsSpace(r[0])
  {
    if s != "" && IsSpace(s[0]) then TrimLeft(s[1..]) else s
  }

  function TrimRight(s: string): (r: string)
    ensures |r| <= |s|
    ensures r != "" ==> !IsSpace(r[|r| - 1])
  {
    if s != "" && IsSpace(s[|s| - 1]) then TrimRight(s[..|s| - 1]) else s
  }

  function Trim(s: string): (r: string) {
    TrimRight(TrimLeft(s))
  }

  predicate Tight(s: string) {
    s != "" && !IsSpace(s[0]) && !IsSpace(s[|s| - 1])
  }

  // ----- Quoting -----

  predicate Special(c: char) {
    c == '\\' || c == '"'
  }

  function Escape(s: string): string {
    if s == "" then ""
    else (if Special(s[0]) then ['\\', s[0]] else [s[0]]) + Escape(s[1..])
  }

  function Quote(s: string): string {
    "\"" + Escape(s) + "\""
  }

  /** The rest of a quoted value after `used` characters were taken from it. */
  function UnquoteRest(s: string, used: nat, capacity: nat): Option<string> {
    if s == "" then None
    else if s[0] == '"' then if |s| > 1 then None else Some("")
    else
      var escaped := s[0] == '\\';
      if escaped && (|s| == 1 || !Special(s[1])) then None
      else if used + 1 >= capacity then None
      else
        var c := if escaped then s[1] else s[0];
        var rest := UnquoteRest(s[if escaped then 2 else 1..], used + 1, capacity);
        if rest.None? then None else Some([c] + rest.value)
  }

  function Unquote(s: string, capacity: nat): Option<string> {
    if s == "" || s[0] != '"' || capacity == 0 then None else UnquoteRest(s[1..], 0, capacity)
  }

  // ----- Reading -----

  predicate ValidHostname(s: string) {
    && 0 < |s| <= NAME_MAX && s[0] != '-' && s[|s| - 1] != '-'
    && forall i :: 0 <= i < |s| ==> IsAlphanumeric(s[i]) || s[i] == '-'
  }

  datatype Reader = Reader(config: Config, version: bool, wifi: bool, ssid: bool)

  const START := Reader(Config("", "", DEFAULT_NAME, true), false, false, false)

  function ReadSetting(r: Reader, key: string, value: string): Option<Reader> {
    if !r.wifi && key == "version" then
      if value == "1" then Some(r.(version := true)) else None
    else if r.wifi && key == "ssid" then
      var s := Unquote(value, SSID_MAX + 1);
      if s.None? || s.value == "" then None else Some(r.(config := r.config.(ssid := s.value), ssid := true))
    else if r.wifi && key == "password" then
      var s := Unquote(value, PASSWORD_MAX + 1);
      if s.None? then None else Some(r.(config := r.config.(password := s.value)))
    else if r.wifi && key == "name" then
      var s := Unquote(value, NAME_MAX + 1);
      if s.None? || !ValidHostname(s.value) then None else Some(r.(config := r.config.(name := s.value)))
    else if r.wifi && key == "auto_connect" then
      if value == "true" then Some(r.(config := r.config.(autoConnect := true)))
      else if value == "false" then Some(r.(config := r.config.(autoConnect := false)))
      else None
    else Some(r)
  }

  predicate IsSection(line: string) {
    |line| >= 3 && line[0] == '[' && line[|line| - 1] == ']'
  }

  predicate NamesWifi(line: string)
    requires IsSection(line)
  {
    Trim(line[1..|line| - 1]) == "wifi"
  }

  predicate Skipped(line: string) {
    line == "" || line[0] == '#' || line[0] == ';'
  }

  /** A line after trimming. */
  function ReadTrimmed(r: Reader, line: string): Option<Reader> {
    if Skipped(line) then Some(r)
    else if line[0] == '[' then if IsSection(line) then Some(r.(wifi := NamesWifi(line))) else None
    else
      var equals := IndexOf(line, '=');
      if equals == |line| then None else ReadSetting(r, Trim(line[..equals]), Trim(line[equals + 1..]))
  }

  function ReadLine(r: Reader, line: string): Option<Reader> {
    ReadTrimmed(r, Trim(line))
  }

  /** Where the line after the first one starts. */
  function AfterLine(text: string): (n: nat)
    ensures n <= |text| && (text != "" ==> n > 0)
  {
    var n := IndexOf(text, '\n');
    if n < |text| then n + 1 else n
  }

  function FirstLine(text: string): (line: string)
    ensures |line| <= AfterLine(text) && '\n' !in line
  {
    text[..IndexOf(text, '\n')]
  }

  /** Read text line by line with a reader's step. */
  function ReadLines(read: (Reader, string) -> Option<Reader>, r: Reader, text: string): Option<Reader>
    decreases |text|
  {
    if text == "" then Some(r)
    else
      var next := read(r, FirstLine(text));
      if next.None? then None else ReadLines(read, next.value, text[AfterLine(text)..])
  }

  function ReadText(r: Reader, text: string): Option<Reader> {
    ReadLines(ReadLine, r, text)
  }

  function Parse(text: string): Result<Config> {
    if |text| > FILE_MAX then Failed(TooLarge)
    else
      var r := ReadText(START, CString(text));
      if r.None? || !r.value.version || !r.value.ssid then Failed(Invalid) else Ok(r.value.config)
  }

  // ----- Rewriting -----

  predicate OwnedKey(key: string, wifi: bool) {
    if wifi then key == "ssid" || key == "password" || key == "name" || key == "auto_connect" else key == "version"
  }

  /** Whether an update replaces the line. */
  predicate Owned(line: string, wifi: bool) {
    var text := Trim(CString(line));
    var equals := IndexOf(text, '=');
    equals < |text| && OwnedKey(Trim(text[..equals]), wifi)
  }

  /** Whether the line after this one is inside the wifi section. */
  function SectionAfter(line: string, wifi: bool): bool {
    var text := Trim(CString(line));
    if IsSection(text) then NamesWifi(text) else wifi
  }

  /** The lines of a file that are not owned, with their line ends, and the section reached. */
  function KeptLines(owned: (string, bool) -> bool, section: (string, bool) -> bool, text: string, wifi: bool)
    : (string, bool)
    decreases |text|
  {
    if text == "" then ("", wifi)
    else
      var line := FirstLine(text);
      var now := section(line, wifi);
      var rest := KeptLines(owned, section, text[AfterLine(text)..], now);
      (if owned(line, now) then rest.0 else text[..AfterLine(text)] + rest.0, rest.1)
  }

  /** What an update keeps of a file. */
  function Kept(text: string, wifi: bool): (string, bool) {
    KeptLines(Owned, SectionAfter, text, wifi)
  }

  /** End the last line. */
  function Closed(text: string): string {
    if text != "" && text[|text| - 1] != '\n' then text + "\n" else text
  }

  const VERSION_LINE := "version=1\n"

  function Head(existing: string): string {
    Closed(VERSION_LINE + Kept(existing, false).0)
  }

  function EffectiveName(config: Config): string {
    if config.name != "" then config.name else DEFAULT_NAME
  }

  function Flag(b: bool): string {
    if b then "true" else "false"
  }

  function Settings(config: Config): string {
    "\n[wifi]\nssid=" + (Quote(config.ssid) + "\n")
    + "password=" + (Quote(config.password) + "\n")
    + "name=" + (Quote(EffectiveName(config)) + "\n")
    + ("auto_connect=" + Flag(config.autoConnect) + "\n")
  }

  function Output(existing: string, config: Config): string {
    Head(existing) + Settings(config)
  }

  /** What an update demands of the settings and of the old file. */
  predicate Acceptable(existing: string, config: Config) {
    && 0 < |config.ssid| <= SSID_MAX && |config.password| <= PASSWORD_MAX
    && (config.name == "" || ValidHostname(config.name))
    && |existing| <= FILE_MAX
  }

  function FormatUpdate(existing: string, config: Config, capacity: nat): Result<string> {
    if !Acceptable(existing, config) then Failed(Invalid)
    else if |Output(existing, config)| >= capacity then Failed(TooLarge)
    else Ok(Output(existing, config))
  }
}
