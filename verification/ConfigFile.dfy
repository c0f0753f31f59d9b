/** The parser and the rewriter of net/config.c on their buffers: a line is cut up by writing NULs into it,
    the new file grows in an output buffer with a running length. */
module ConfigFile {
  import opened ConfigSpec

  method FindChar(buffer: array<char>, from: nat, to: nat, c: char) returns (at: nat)
    requires from <= to <= buffer.Length
    ensures from <= at <= to && at - from == IndexOf(buffer[from..to], c)
  {
    at := from;
    while at < to && buffer[at] != c
      invariant from <= at <= to
      invariant at - from + IndexOf(buffer[at..to], c) == IndexOf(buffer[from..to], c)
    {
      assert buffer[at..to][1..] == buffer[at + 1..to];
      at := at + 1;
    }
  }

  /** A C string from `from` to its terminator at `to`. */
  ghost predicate IsString(buffer: array<char>, from: nat, to: nat)
    reads buffer
  {
    from <= to < buffer.Length && buffer[to] == NUL && NUL !in buffer[from..to]
  }

  method SkipSpace(buffer: array<char>, from: nat, to: nat) returns (start: nat)
    requires IsString(buffer, from, to)
    ensures from <= start <= to && buffer[start..to] == TrimLeft(buffer[from..to])
  {
    start := from;
    while IsSpace(buffer[start])
      invariant from <= start <= to && !IsSpace(buffer[to])
      invariant TrimLeft(buffer[start..to]) == TrimLeft(buffer[from..to])
      decreases buffer.Length - start
    {
      assert start < to;
      assert buffer[start..to][1..] == buffer[start + 1..to];
      start := start + 1;
    }
  }

  method DropSpace(buffer: array<char>, start: nat, to: nat) returns (end: nat)
    requires start <= to <= buffer.Length
    ensures start <= end <= to && buffer[start..end] == TrimRight(buffer[start..to])
  {
    end := to;
    while end > start && IsSpace(buffer[end - 1])
      invariant start <= end <= to
      invariant TrimRight(buffer[start..end]) == TrimRight(buffer[start..to])
    {
      assert buffer[start..end][..end - start - 1] == buffer[start..end - 1];
      end := end - 1;
    }
  }

  /** trim: skip leading space and put the terminator before trailing space. */
  method TrimInPlace(buffer: array<char>, from: nat, to: nat) returns (start: nat, end: nat)
    requires IsString(buffer, from, to)
    modifies buffer
    ensures from <= start <= end <= to && buffer[end] == NUL
    ensures buffer[start..end] == Trim(old(buffer[from..to]))
    ensures forall i :: 0 <= i < buffer.Length && i != end ==> buffer[i] == old(buffer[i])
  {
    start := SkipSpace(buffer, from, to);
    end := DropSpace(buffer, start, to);
    ghost var text := buffer[start..end];
    buffer[end] := NUL;
    assert buffer[start..end] == text;
  }

  method ParseQuoted(source: string, capacity: nat) returns (r: Option<string>)
    ensures r == Unquote(source, capacity)
  {
    if source == "" || source[0] != '"' || capacity == 0 {
      return None;
    }
    var destination := "";
    var index := 1;
    EmptyFirst(UnquoteRest(source[1..], 0, capacity));
    while index < |source|
      invariant 1 <= index <= |source| && |destination| <= index
      invariant var rest := UnquoteRest(source[index..], |destination|, capacity);
                Unquote(source, capacity) == if rest.None? then None else Some(destination + rest.value)
    {
      ghost var rest := source[index..];
      var value := source[index];
      if value == '"' {
        assert destination + "" == destination;
        return if index + 1 < |source| then None else Some(destination);
      }
      if value == '\\' {
        index := index + 1;
        if index == |source| || (source[index] != '\\' && source[index] != '"') {
          return None;
        }
        value := source[index];
        assert rest[2..] == source[index + 1..];
      } else {
        assert rest[1..] == source[index + 1..];
      }
      if |destination| + 1 >= capacity {
        return None;
      }
      Carried(destination, value, UnquoteRest(source[index + 1..], |destination| + 1, capacity));
      destination := destination + [value];
      index := index + 1;
    }
    return None;
  }

  lemma EmptyFirst(rest: Option<string>)
    ensures rest.Some? ==> "" + rest.value == rest.value
  {
  }

  lemma Carried(a: string, c: char, rest: Option<string>)
    ensures rest.Some? ==> a + ([c] + rest.value) == a + [c] + rest.value
  {
  }

  /** What the key and the value of a line do to the settings read so far. */
  method ApplySetting(r: Reader, key: string, value: string) returns (next: Option<Reader>)
    ensures next == ReadSetting(r, key, value)
  {
    if !r.wifi && key == "version" {
      return if value == "1" then Some(r.(version := true)) else None;
    }
    if r.wifi && key == "ssid" {
      var ssid := ParseQuoted(value, SSID_MAX + 1);
      if ssid.None? || ssid.value == "" {
        return None;
      }
      return Some(r.(config := r.config.(ssid := ssid.value), ssid := true));
    }
    if r.wifi && key == "password" {
      var password := ParseQuoted(value, PASSWORD_MAX + 1);
      if password.None? {
        return None;
      }
      return Some(r.(config := r.config.(password := password.value)));
    }
    if r.wifi && key == "name" {
      var name := ParseQuoted(value, NAME_MAX + 1);
      if name.None? || !ValidHostname(name.value) {
        return None;
      }
      return Some(r.(config := r.config.(name := name.value)));
    }
    return ReadSetting(r, key, value);
  }

  method TrimmedPart(buffer: array<char>, from: nat, to: nat) returns (part: string)
    requires IsString(buffer, from, to)
    modifies buffer
    ensures part == Trim(old(buffer[from..to])) && buffer[to] == NUL
    ensures forall i :: 0 <= i < buffer.Length && !(from <= i <= to) ==> buffer[i] == old(buffer[i])
  {
    var start, end := TrimInPlace(buffer, from, to);
    return buffer[start..end];
  }

  method ReadSection(buffer: array<char>, start: nat, end: nat) returns (wifi: bool)
    requires IsString(buffer, start, end) && IsSection(buffer[start..end])
    modifies buffer
    ensures wifi == NamesWifi(old(buffer[start..end])) && buffer[end] == NUL
    ensures forall i :: 0 <= i < buffer.Length && !(start <= i <= end) ==> buffer[i] == old(buffer[i])
  {
    ghost var line := buffer[start..end];
    buffer[end - 1] := NUL;
    assert buffer[start + 1..end - 1] == line[1..|line| - 1];
    assert forall c :: c in line[1..|line| - 1] ==> c in line;
    var name := TrimmedPart(buffer, start + 1, end - 1);
    return name == "wifi";
  }

  method CutSetting(buffer: array<char>, start: nat, end: nat) returns (found: bool, key: string, value: string)
    requires IsString(buffer, start, end)
    modifies buffer
    ensures var line := old(buffer[start..end]);
            var n := IndexOf(line, '=');
            && found == (n < |line|)
            && (found ==> key == Trim(line[..n]) && value == Trim(line[n + 1..]))
    ensures buffer[end] == NUL
    ensures forall i :: 0 <= i < buffer.Length && !(start <= i <= end) ==> buffer[i] == old(buffer[i])
  {
    var equals := FindChar(buffer, start, end, '=');
    if equals == end {
      return false, "", "";
    }
    ghost var line := buffer[start..end];
    ghost var left, right := buffer[start..equals], buffer[equals + 1..end];
    assert left == line[..equals - start] && right == line[equals - start + 1..];
    assert NUL !in left && NUL !in right by {
      assert forall c :: c in left || c in right ==> c in line;
    }
    buffer[equals] := NUL;
    assert buffer[start..equals] == left;
    key := TrimmedPart(buffer, start, equals);
    assert buffer[equals + 1..end] == right;
    value := TrimmedPart(buffer, equals + 1, end);
    found := true;
  }

  /** A trimmed line. */
  method ReadTrimmedInPlace(buffer: array<char>, start: nat, end: nat, r: Reader) returns (next: Option<Reader>)
    requires IsString(buffer, start, end)
    modifies buffer
    ensures next == ReadTrimmed(r, old(buffer[start..end])) && buffer[end] == NUL
    ensures forall i :: 0 <= i < buffer.Length && !(start <= i <= end) ==> buffer[i] == old(buffer[i])
  {
    if start == end || buffer[start] == '#' || buffer[start] == ';' {
      return Some(r);
    }
    if buffer[start] == '[' {
      if end - start < 3 || buffer[end - 1] != ']' {
        return None;
      }
      var wifi := ReadSection(buffer, start, end);
      return Some(r.(wifi := wifi));
    }
    var found, key, value := CutSetting(buffer, start, end);
    if !found {
      return None;
    }
    next := ApplySetting(r, key, value);
  }

  /** One line of the file, cut out of the buffer from `from` to its terminator at `to`. */
  method ReadLineInPlace(buffer: array<char>, from: nat, to: nat, r: Reader) returns (next: Option<Reader>)
    requires IsString(buffer, from, to)
    modifies buffer
    ensures next == ReadLine(r, old(buffer[from..to])) && buffer[to] == NUL
    ensures forall i :: 0 <= i < buffer.Length && !(from <= i <= to) ==> buffer[i] == old(buffer[i])
  {
    ghost var line := buffer[from..to];
    var start, end := TrimInPlace(buffer, from, to);
    assert NUL !in buffer[start..end] by {
      assert forall i :: start <= i < end ==> buffer[i] in line;
    }
    next := ReadTrimmedInPlace(buffer, start, end, r);
  }

  /** Trimming takes a carriage return at the end of a line with it. */
  lemma CarriageReturn(line: string)
    requires line != "" && line[|line| - 1] == '\r'
    ensures Trim(line[..|line| - 1]) == Trim(line)
  {
    TrimLeftKeeps(line);
  }

  lemma {:induction false} TrimLeftKeeps(line: string)
    requires line != "" && line[|line| - 1] == '\r'
    ensures var s := TrimLeft(line);
            var t := TrimLeft(line[..|line| - 1]);
            if t == "" then TrimRight(s) == "" else s == t + "\r"
    decreases |line|
  {
    if |line| == 1 {
      assert line[1..] == "" && line[..0] == "";
    } else if IsSpace(line[0]) {
      assert line[1..][..|line| - 2] == line[..|line| - 1][1..];
      TrimLeftKeeps(line[1..]);
    }
  }

  method Copy(buffer: array<char>, text: string)
    requires |text| < buffer.Length
    modifies buffer
    ensures buffer[..|text|] == text && buffer[|text|] == NUL
  {
    for i := 0 to |text|
      invariant buffer[..i] == text[..i]
    {
      buffer[i] := text[i];
    }
    buffer[|text|] := NUL;
  }

  method BufferLineEnd(buffer: array<char>, from: nat, ghost length: nat, ghost text: string) returns (end: nat)
    requires from < length < buffer.Length && buffer[length] == NUL && NUL !in text && buffer[from..length] == text
    ensures from <= end <= length && end - from == IndexOf(text, '\n')
    ensures buffer[end] == '\n' <==> end < length
  {
    assert forall i :: from <= i < length ==> buffer[i] == text[i - from] && text[i - from] in text;
    end := from;
    while buffer[end] != '\n' && buffer[end] != NUL
      invariant from <= end <= length
      invariant forall i :: from <= i < end ==> buffer[i] != '\n'
      decreases length - end
    {
      end := end + 1;
    }
  }

  /** Find the end of the line at `from`, put its terminator there and step over it. */
  method NextLine(buffer: array<char>, from: nat, ghost length: nat, ghost text: string) returns (next: nat, end: nat)
    requires from < length < buffer.Length && buffer[length] == NUL && NUL !in text && buffer[from..length] == text
    modifies buffer
    ensures IsString(buffer, from, end) && buffer[from..end] == FirstLine(text)
    ensures next == from + AfterLine(text) && end < next + 1 && end <= next <= length
    ensures buffer[length] == NUL && buffer[next..length] == text[AfterLine(text)..]
    ensures end < next || end == length
  {
    end := BufferLineEnd(buffer, from, length, text);
    if buffer[end] == '\n' {
      buffer[end] := NUL;
      next := end + 1;
    } else {
      next := end;
    }
    assert forall c :: c in FirstLine(text) ==> c in text;
  }

  /** Take a carriage return off the end of a line. */
  method StripReturn(buffer: array<char>, from: nat, end: nat) returns (stop: nat)
    requires IsString(buffer, from, end)
    modifies buffer
    ensures IsString(buffer, from, stop) && stop <= end
    ensures Trim(buffer[from..stop]) == Trim(old(buffer[from..end]))
    ensures forall i :: 0 <= i < buffer.Length && !(from <= i < end) ==> buffer[i] == old(buffer[i])
  {
    if end == from || buffer[end - 1] != '\r' {
      return end;
    }
    ghost var content := buffer[from..end];
    CarriageReturn(content);
    buffer[end - 1] := NUL;
    assert buffer[from..end - 1] == content[..|content| - 1];
    assert forall c :: c in content[..|content| - 1] ==> c in content;
    return end - 1;
  }

  /** Read the line at `cursor` and step over it; `rest` is what is left of the text. */
  method ReadNext(buffer: array<char>, cursor: nat, r: Reader, ghost length: nat, ghost rest: string)
    returns (next: nat, read: Option<Reader>)
    requires cursor < length < buffer.Length && buffer[length] == NUL && NUL !in rest && buffer[cursor..length] == rest
    modifies buffer
    ensures read == ReadLine(r, FirstLine(rest)) && next == cursor + AfterLine(rest) <= length
    ensures buffer[length] == NUL && buffer[next..length] == rest[AfterLine(rest)..]
  {
    var end;
    next, end := NextLine(buffer, cursor, length, rest);
    ghost var after := buffer[next..length];
    end := StripReturn(buffer, cursor, end);
    read := ReadLineInPlace(buffer, cursor, end, r);
    assert buffer[next..length] == after;
  }

  lemma NothingLeft(rest: string)
    requires NUL !in rest && (rest != "" ==> rest[0] == NUL)
    ensures rest == ""
  {
  }

  /** Cut a copy of the text up line by line; a line ends at a line end, a NUL or the end of the text. */
  method ParseConfig(text: string) returns (result: Result<Config>)
    ensures result == Parse(text)
  {
    if |text| > FILE_MAX {
      return Failed(TooLarge);
    }
    var buffer := new char[FILE_MAX + 1];
    Copy(buffer, text);
    ghost var rest := CString(text);
    ghost var length := |rest|;
    assert buffer[..length] == rest;
    var r := START;
    var cursor: nat := 0;
    while buffer[cursor] != NUL
      invariant cursor <= length < buffer.Length && fresh(buffer) && buffer[length] == NUL
      invariant NUL !in rest && buffer[cursor..length] == rest
      invariant ReadText(r, rest) == ReadText(START, CString(text))
      decreases |rest|
    {
      assert rest != "";
      var read;
      cursor, read := ReadNext(buffer, cursor, r, length, rest);
      if read.None? {
        return Failed(Invalid);
      }
      r := read.value;
      rest := rest[AfterLine(rest)..];
    }
    NothingLeft(rest);
    if !r.version || !r.ssid {
      return Failed(Invalid);
    }
    return Ok(r.config);
  }

  // ----- Writing -----

  /** append_bytes: all of the bytes or none. */
  method AppendBytes(output: array<char>, used: nat, bytes: string) returns (ok: bool, now: nat)
    requires used <= output.Length
    modifies output
    ensures ok == (used + |bytes| <= output.Length)
    ensures ok ==> now == used + |bytes| && output[..now] == old(output[..used]) + bytes
  {
    if |bytes| > output.Length - used {
      return false, used;
    }
    for i := 0 to |bytes|
      invariant output[..used] == old(output[..used]) && output[used..used + i] == bytes[..i]
    {
      output[used + i] := bytes[i];
    }
    assert output[..used + |bytes|] == output[..used] + output[used..used + |bytes|];
    return true, used + |bytes|;
  }

  /** append_quoted: the quoted value and the end of its line. */
  method AppendQuoted(output: array<char>, used: nat, value: string) returns (ok: bool, now: nat)
    requires used <= output.Length
    modifies output
    ensures ok == (used + |Quote(value)| + 1 <= output.Length)
    ensures ok ==> now == used + |Quote(value)| + 1 && output[..now] == old(output[..used]) + (Quote(value) + "\n")
  {
    ghost var before := output[..used];
    ok, now := AppendBytes(output, used, "\"");
    if !ok {
      return false, used;
    }
    for i := 0 to |value|
      invariant used < now <= output.Length && now - used + |Escape(value[i..])| == 1 + |Escape(value)|
      invariant output[..now] + Escape(value[i..]) == before + "\"" + Escape(value)
    {
      ghost var rest := Escape(value[i + 1..]);
      assert value[i..][1..] == value[i + 1..];
      if Special(value[i]) {
        EscapedMore(output[..now], '\\', [value[i]] + rest);
        ok, now := AppendBytes(output, now, "\\");
        if !ok {
          return false, used;
        }
      }
      EscapedMore(output[..now], value[i], rest);
      ok, now := AppendBytes(output, now, [value[i]]);
      if !ok {
        return false, used;
      }
    }
    assert output[..now] == before + "\"" + Escape(value) by {
      assert Escape(value[|value|..]) == "" && output[..now] + "" == output[..now];
    }
    ok, now := AppendBytes(output, now, "\"\n");
    Ends(before, Escape(value));
  }

  lemma EscapedMore(a: string, c: char, rest: string)
    ensures a + ([c] + rest) == a + [c] + rest
  {
  }

  lemma Ends(before: string, escaped: string)
    ensures before + "\"" + escaped + "\"\n" == before + ("\"" + escaped + "\"" + "\n")
  {
  }

  /** One key and its quoted value. */
  method AppendSetting(output: array<char>, used: nat, key: string, value: string) returns (ok: bool, now: nat)
    requires used <= output.Length
    modifies output
    ensures var text := key + (Quote(value) + "\n");
            && ok == (used + |text| <= output.Length)
            && (ok ==> now == used + |text| && output[..now] == old(output[..used]) + text)
  {
    ghost var before := output[..used];
    ok, now := AppendBytes(output, used, key);
    if !ok {
      return false, used;
    }
    ok, now := AppendQuoted(output, now, value);
    Join(before, key, Quote(value) + "\n");
  }

  method AppendSettings(output: array<char>, used: nat, config: Config) returns (ok: bool, now: nat)
    requires used <= output.Length
    modifies output
    ensures ok == (used + |Settings(config)| <= output.Length)
    ensures ok ==> now == used + |Settings(config)| && output[..now] == old(output[..used]) + Settings(config)
  {
    ghost var before := output[..used];
    ok, now := AppendSecrets(output, used, config);
    if !ok {
      return false, used;
    }
    var name := if config.name != "" then config.name else DEFAULT_NAME;
    ok, now := AppendSetting(output, now, "name=", name);
    if !ok {
      return false, used;
    }
    ok, now := AppendBytes(output, now, if config.autoConnect then "auto_connect=true\n" else "auto_connect=false\n");
    FlagText(config.autoConnect);
    SettingsParts(before, config);
  }

  lemma FlagText(b: bool)
    ensures "auto_connect=" + Flag(b) + "\n" == if b then "auto_connect=true\n" else "auto_connect=false\n"
  {
  }

  lemma SettingsParts(before: string, config: Config)
    ensures before + Secrets(config) + ("name=" + (Quote(EffectiveName(config)) + "\n"))
              + ("auto_connect=" + Flag(config.autoConnect) + "\n")
         == before + Settings(config)
    ensures |Settings(config)|
         == |Secrets(config)| + |"name=" + (Quote(EffectiveName(config)) + "\n")|
            + |"auto_connect=" + Flag(config.autoConnect) + "\n"|
  {
    Parts(before, "\n[wifi]\nssid=" + (Quote(config.ssid) + "\n"), "password=", Quote(config.password) + "\n",
          "name=", Quote(EffectiveName(config)) + "\n", "auto_connect=" + Flag(config.autoConnect) + "\n");
  }

  lemma Parts(before: string, ssid: string, p: string, password: string, n: string, name: string, flag: string)
    ensures before + (ssid + (p + password)) + (n + name) + flag == before + (ssid + p + password + n + name + flag)
    ensures |ssid + p + password + n + name + flag| == |ssid + (p + password)| + |n + name| + |flag|
  {
  }

  function Secrets(config: Config): string {
    "\n[wifi]\nssid=" + (Quote(config.ssid) + "\n") + ("password=" + (Quote(config.password) + "\n"))
  }

  method AppendSecrets(output: array<char>, used: nat, config: Config) returns (ok: bool, now: nat)
    requires used <= output.Length
    modifies output
    ensures ok == (used + |Secrets(config)| <= output.Length)
    ensures ok ==> now == used + |Secrets(config)| && output[..now] == old(output[..used]) + Secrets(config)
  {
    ghost var before := output[..used];
    ok, now := AppendSetting(output, used, "\n[wifi]\nssid=", config.ssid);
    if !ok {
      return false, used;
    }
    ok, now := AppendSetting(output, now, "password=", config.password);
    Join(before, "\n[wifi]\nssid=" + (Quote(config.ssid) + "\n"), "password=" + (Quote(config.password) + "\n"));
  }

  lemma Join(before: string, a: string, b: string)
    ensures before + a + b == before + (a + b)
  {
  }

  method CopyOf(line: string) returns (buffer: array<char>, end: nat)
    ensures fresh(buffer) && IsString(buffer, 0, end) && buffer[..end] == CString(line)
  {
    buffer := new char[|line| + 1];
    Copy(buffer, line);
    end := FindChar(buffer, 0, |line|, NUL);
    assert buffer[0..|line|] == line;
  }

  method TrackSection(line: string, wifi: bool) returns (now: bool)
    ensures now == SectionAfter(line, wifi)
  {
    var buffer, end := CopyOf(line);
    assert buffer[0..end] == CString(line);
    var start, stop := TrimInPlace(buffer, 0, end);
    if stop - start >= 3 && buffer[start] == '[' && buffer[stop - 1] == ']' {
      assert forall i :: start <= i < stop ==> buffer[i] in CString(line);
      now := ReadSection(buffer, start, stop);
    } else {
      now := wifi;
    }
  }

  method IsOwnedLine(line: string, wifi: bool) returns (owned: bool)
    ensures owned == Owned(line, wifi)
  {
    var buffer, end := CopyOf(line);
    assert buffer[0..end] == CString(line);
    var start, stop := TrimInPlace(buffer, 0, end);
    assert forall i :: start <= i < stop ==> buffer[i] in CString(line);
    var found, key, value := CutSetting(buffer, start, stop);
    if !found {
      return false;
    }
    if !wifi {
      return key == "version";
    }
    return key == "ssid" || key == "password" || key == "name" || key == "auto_connect";
  }

  /** memchr on the old file. */
  method LineEnd(existing: string, offset: nat) returns (end: nat)
    requires offset <= |existing|
    ensures offset <= end && end - offset == IndexOf(existing[offset..], '\n')
  {
    end := offset;
    while end < |existing| && existing[end] != '\n'
      invariant offset <= end <= |existing|
      invariant end - offset + IndexOf(existing[end..], '\n') == IndexOf(existing[offset..], '\n')
    {
      assert existing[end..][1..] == existing[end + 1..];
      end := end + 1;
    }
  }

  lemma LineAt(existing: string, offset: nat, end: nat, next: nat)
    requires offset < |existing| && offset <= end && end - offset == IndexOf(existing[offset..], '\n')
    requires next == if end < |existing| then end + 1 else end
    ensures var rest := existing[offset..];
            && existing[offset..end] == FirstLine(rest) && next - offset == AfterLine(rest)
            && existing[offset..next] == rest[..AfterLine(rest)] && existing[next..] == rest[AfterLine(rest)..]
  {
  }

  /** What is in the output so far, and what the rest of the old file will add, make the new file. */
  ghost predicate OnTheWay(written: string, rest: string, wifi: bool, existing: string) {
    written + Kept(rest, wifi).0 == VERSION_LINE + Kept(existing, false).0
  }

  method AppendKept(output: array<char>, existing: string) returns (ok: bool, used: nat)
    modifies output
    ensures ok == (|VERSION_LINE + Kept(existing, false).0| <= output.Length)
    ensures ok ==> used <= output.Length && output[..used] == VERSION_LINE + Kept(existing, false).0
  {
    ok, used := AppendBytes(output, 0, VERSION_LINE);
    if !ok {
      return false, 0;
    }
    assert output[..used] == VERSION_LINE;
    var wifi, offset := false, 0;
    assert existing[0..] == existing;
    while offset < |existing|
      invariant 0 <= offset <= |existing| && used <= output.Length
      invariant OnTheWay(output[..used], existing[offset..], wifi, existing)
    {
      ghost var rest := existing[offset..];
      var end := LineEnd(existing, offset);
      var next := if end < |existing| then end + 1 else end;
      var line := existing[offset..end];
      LineAt(existing, offset, end, next);
      wifi := TrackSection(line, wifi);
      var owned := IsOwnedLine(line, wifi);
      if !owned {
        ghost var more := Kept(existing[next..], wifi).0;
        Join3(output[..used], existing[offset..next], more);
        ok, used := AppendBytes(output, used, existing[offset..next]);
        if !ok {
          return false, 0;
        }
      }
      offset := next;
    }
    ok := true;
  }

  lemma Join3(a: string, b: string, c: string)
    ensures a + (b + c) == a + b + c
  {
  }

  method AppendHead(output: array<char>, existing: string) returns (ok: bool, used: nat)
    modifies output
    ensures ok == (|Head(existing)| <= output.Length)
    ensures ok ==> used <= output.Length && output[..used] == Head(existing)
  {
    ok, used := AppendKept(output, existing);
    if ok && used > 0 && output[used - 1] != '\n' {
      ok, used := AppendBytes(output, used, "\n");
    }
  }

  /** network_config_format_update; on success the output holds the new file and its terminator. */
  method Update(existing: string, config: Config, output: array<char>) returns (result: Result<nat>)
    modifies output
    ensures match FormatUpdate(existing, config, output.Length)
            case Failed(e) => result == Failed(e)
            case Ok(text) => result == Ok(|text|) && output[..|text|] == text && output[|text|] == NUL
  {
    if config.ssid == "" || |config.ssid| > SSID_MAX || |config.password| > PASSWORD_MAX
       || (config.name != "" && !ValidHostname(config.name)) || |existing| > FILE_MAX {
      return Failed(Invalid);
    }
    var ok, used := AppendHead(output, existing);
    if !ok {
      return Failed(TooLarge);
    }
    ok, used := AppendSettings(output, used, config);
    if !ok || used >= output.Length {
      return Failed(TooLarge);
    }
    output[used] := NUL;
    return Ok(used);
  }
}
