/** Saving the Wi-Fi configuration of net/config.c again and again, and settings that do not read back. */
module ConfigSaves {
  import opened ConfigRoundTrip
  import opened ConfigSpec
  import opened ConfigUpdate

  // ----- Saving one configuration after another -----

  /** Each update rewrites the file the one before it left; the first failure stays. */
  function Saved(existing: string, configs: seq<Config>, capacity: nat): Result<string> {
    if configs == [] then Ok(existing)
    else
      var before := Saved(existing, configs[..|configs| - 1], capacity);
      if before.Failed? then before else FormatUpdate(before.value, configs[|configs| - 1], capacity)
  }

  function Sections(n: nat): (r: string)
    ensures |r| == 8 * n
  {
    if n == 0 then "" else Sections(n - 1) + SECTION_START
  }

  /** What an update demands of the settings alone. */
  predicate Savable(config: Config) {
    Acceptable("", config) && NoNul(config) && OneLine(config)
  }

  predicate AllSavable(configs: seq<Config>) {
    forall i :: 0 <= i < |configs| ==> Savable(configs[i])
  }

  lemma OutputNoNul(existing: string, config: Config)
    requires NUL !in existing && NoNul(config)
    ensures NUL !in Output(existing, config)
  {
    HeadNoNul(existing);
    SettingsNoNul(config);
  }

  /** One more update keeps one more section header. */
  lemma HeadGrows(existing: string, config: Config)
    requires Acceptable(existing, config) && NoNul(config) && OneLine(config) && NUL !in existing
    ensures Head(Output(existing, config)) == Head(existing) + SECTION_START
  {
    UnownedLinesSurvive(existing, config);
    KeptHead(existing);
    ClosedSection(VERSION_LINE, Closed(Kept(existing, false).0), SECTION_START);
  }

  /** Each further update leaves one more blank line and section header behind: rewriting a file with the
      same settings is not idempotent, it grows by eight bytes. */
  lemma UpdatesGrow(existing: string, first: Config, second: Config)
    requires Acceptable(existing, first) && Acceptable(existing, second) && NoNul(first) && OneLine(first)
    requires NUL !in existing
    ensures Output(Output(existing, first), second) == Head(existing) + SECTION_START + Settings(second)
    ensures |Output(Output(existing, first), second)| == |Output(existing, second)| + 8
  {
    HeadGrows(existing, first);
  }

  /** The text keeps what an update would keep of the old file, and n blank lines and section headers. */
  ghost predicate Stacked(existing: string, text: string, n: nat) {
    NUL !in text && Head(text) == Head(existing) + Sections(n)
  }

  lemma {:induction false} SavedStacks(existing: string, configs: seq<Config>, capacity: nat)
    requires AllSavable(configs) && NUL !in existing && Saved(existing, configs, capacity).Ok?
    ensures Stacked(existing, Saved(existing, configs, capacity).value, |configs|)
  {
    if configs == [] {
      assert Head(existing) + Sections(0) == Head(existing);
    } else {
      var n := |configs| - 1;
      SavedLast(existing, configs, capacity);
      SavedStacks(existing, configs[..n], capacity);
      SavedStep(existing, Saved(existing, configs[..n], capacity).value, configs[n], n);
    }
  }

  /** As long as the updates succeed, each leaves one more blank line and section header in front of the
      newest settings. */
  lemma SavedIs(existing: string, configs: seq<Config>, capacity: nat)
    requires AllSavable(configs) && configs != [] && NUL !in existing && Saved(existing, configs, capacity).Ok?
    ensures Saved(existing, configs, capacity).value
         == Head(existing) + Sections(|configs| - 1) + Settings(configs[|configs| - 1])
  {
    var front, last := configs[..|configs| - 1], configs[|configs| - 1];
    SavedFront(existing, configs, capacity);
    StackedOutput(existing, Saved(existing, front, capacity).value, last, |front|,
                  Saved(existing, configs, capacity).value);
  }

  lemma SavedFront(existing: string, configs: seq<Config>, capacity: nat)
    requires AllSavable(configs) && configs != [] && NUL !in existing && Saved(existing, configs, capacity).Ok?
    ensures var front, last := configs[..|configs| - 1], configs[|configs| - 1];
            var before := Saved(existing, front, capacity);
            && before.Ok? && Savable(last) && Acceptable(before.value, last)
            && Stacked(existing, before.value, |front|)
            && Saved(existing, configs, capacity).value == Output(before.value, last)
  {
    SavedLast(existing, configs, capacity);
    SavedStacks(existing, configs[..|configs| - 1], capacity);
  }

  lemma StackedOutput(existing: string, before: string, config: Config, n: nat, text: string)
    requires Savable(config) && Acceptable(before, config) && Stacked(existing, before, n)
    requires text == Output(before, config)
    ensures text == Head(existing) + Sections(n) + Settings(config)
  {
    SavedStep(existing, before, config, n);
  }

  lemma SavedLast(existing: string, configs: seq<Config>, capacity: nat)
    requires configs != [] && Saved(existing, configs, capacity).Ok?
    ensures var before, last := Saved(existing, configs[..|configs| - 1], capacity), configs[|configs| - 1];
            && before.Ok? && Acceptable(before.value, last)
            && Saved(existing, configs, capacity).value == Output(before.value, last)
  {
  }

  lemma SavedStep(existing: string, before: string, config: Config, n: nat)
    requires Savable(config) && Acceptable(before, config) && Stacked(existing, before, n)
    ensures Output(before, config) == Head(existing) + Sections(n) + Settings(config)
    ensures Stacked(existing, Output(before, config), n + 1)
  {
    OutputNoNul(before, config);
    HeadGrows(before, config);
    OneSectionMore(Head(existing), n);
  }

  lemma OneSectionMore(head: string, n: nat)
    ensures head + Sections(n) + SECTION_START == head + Sections(n + 1)
  {
    Regroup(head, Sections(n), SECTION_START);
  }

  /** The n-th update succeeds exactly when all before it did, their file is one that can be read, and the
      eight bytes that each of them left behind still fit. */
  lemma SavedGrows(existing: string, configs: seq<Config>, capacity: nat)
    requires AllSavable(configs) && configs != [] && NUL !in existing
    ensures var n := |configs|;
            var before := Saved(existing, configs[..n - 1], capacity);
            && (Saved(existing, configs, capacity).Ok? <==>
                  && before.Ok? && |before.value| <= FILE_MAX
                  && |Output(existing, configs[n - 1])| + 8 * (n - 1) < capacity)
            && (before.Ok? && |before.value| <= FILE_MAX && Saved(existing, configs, capacity).Failed? ==>
                  Saved(existing, configs, capacity) == Failed(TooLarge))
            && (Saved(existing, configs, capacity).Ok? ==>
                  |Saved(existing, configs, capacity).value| == |Output(existing, configs[n - 1])| + 8 * (n - 1))
  {
    var n := |configs| - 1;
    var before := Saved(existing, configs[..n], capacity);
    if before.Ok? {
      SavedStacks(existing, configs[..n], capacity);
      assert |Output(before.value, configs[n])| == |Output(existing, configs[n])| + 8 * n;
    }
  }

  function Times(config: Config, n: nat): (r: seq<Config>)
    ensures |r| == n && forall i :: 0 <= i < n ==> r[i] == config
  {
    seq(n, _ => config)
  }

  /** Saving the same settings over and over with the buffer of the save path, which is one byte longer than a
      reader accepts: the n-th update succeeds exactly while eight bytes for each update before it fit, and the
      first that does not fails as too large. */
  lemma {:induction false} SameSettingsFillTheFile(existing: string, config: Config, n: nat)
    requires Savable(config) && NUL !in existing && n > 0 && |existing| <= FILE_MAX
    ensures var size := |Output(existing, config)| + 8 * (n - 1);
            var r := Saved(existing, Times(config, n), FILE_MAX + 1);
            if size <= FILE_MAX then r.Ok? && |r.value| == size else r == Failed(TooLarge)
  {
    var front := Times(config, n)[..n - 1];
    assert front == Times(config, n - 1);
    SavedGrows(existing, Times(config, n), FILE_MAX + 1);
    if n > 1 {
      SameSettingsFillTheFile(existing, config, n - 1);
    }
  }

  // ----- Settings that do not read back -----

  lemma {:induction false} EscapeLength(s: string)
    ensures |Escape(s)| <= 2 * |s|
  {
    if s != "" {
      EscapeLength(s[1..]);
    }
  }

  lemma SettingsLength(config: Config)
    requires Acceptable("", config)
    ensures |Settings(config)| < 400
  {
    EscapeLength(config.ssid);
    EscapeLength(config.password);
    EscapeLength(EffectiveName(config));
  }

  /** A network name of two lines is accepted and written, but does not read back. */
  lemma TwoLineNameIsLost()
    ensures var config := Config("a\nb", "", "", true);
            var r := FormatUpdate("", config, FILE_MAX + 1);
            NoNul(config) && r.Ok? && Parse(r.value) != Ok(Effective(config))
  {
    var config := Config("a\nb", "", "", true);
    SettingsLength(config);
    assert Head("") == VERSION_LINE;
    assert config.ssid[1] == '\n' && !OneLine(config);
    UpdateReadsBack("", config, FILE_MAX + 1);
  }

  function Comment(n: nat): (text: string)
    ensures |text| == n && forall i :: 0 <= i < n ==> text[i] == '#'
  {
    if n == 0 then "" else Comment(n - 1) + "#"
  }

  lemma CommentIsKept(text: string)
    requires text != "" && forall i :: 0 <= i < |text| ==> text[i] == '#'
    ensures Kept(text, false) == (text, false)
  {
    assert FirstLine(text) == text && AfterLine(text) == |text|;
    assert CString(text) == text && Trim(text) == text;
    assert !Owned(text, false) && SectionAfter(text, false) == false;
    assert text[AfterLine(text)..] == "" && text[..AfterLine(text)] + "" == text;
    assert KeptLines(Owned, SectionAfter, "", false) == ("", false);
  }

  /** A file filled by a comment is rewritten with any settings when the caller's buffer allows for it, but the
      file it becomes is longer than a reader accepts. */
  lemma LongFileIsLost(config: Config, capacity: nat)
    requires Acceptable("", config) && capacity >= 2 * FILE_MAX
    ensures var r := FormatUpdate(Comment(FILE_MAX), config, capacity);
            r.Ok? && Parse(r.value) == Failed(TooLarge)
  {
    var text := Comment(FILE_MAX);
    CommentIsKept(text);
    SettingsLength(config);
    assert |Head(text)| == |VERSION_LINE| + |text| + 1;
  }
}
