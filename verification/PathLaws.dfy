/** What fs/path.c makes of a path with one more component behind it, on the strings that go in and come out. */
module PathLaws {
  import opened PathSpec

  /** A name below a normal path; only a root ends in a slash itself. */
  function Child(parent: string, name: string): string {
    parent + (if |parent| == 3 then "" else "/") + name
  }

  /** A normal path and the stack it renders. */
  ghost predicate Renders(s: string, drive: char, stack: Stack) {
    s == Render(drive, stack) && AllPlain(stack)
  }

  lemma RootIsShort(s: string, drive: char, stack: Stack)
    requires Renders(s, drive, stack)
    ensures |s| == 3 <==> stack == []
    ensures |s| >= 3
  {
    JoinShape(stack);
  }

  lemma RenderChild(s: string, drive: char, stack: Stack, name: string)
    requires Renders(s, drive, stack)
    ensures Render(drive, stack + [name]) == Child(s, name)
  {
    RootIsShort(s, drive, stack);
    assert (stack + [name])[..|stack + [name]| - 1] == stack;
  }

  lemma WalkMore(stack: Stack, components: seq<string>, c: string, size: nat)
    ensures Walk(stack, components + [c], size)
         == var before := Walk(stack, components, size); if before.None? then None else Step(before.value, c, size)
  {
    assert (components + [c])[..|components + [c]| - 1] == components;
  }

  function Source(path: string): string {
    if Qualified(path) then path[2..] else path
  }

  function DriveOf(path: string, directory: string): char
    requires IsDirectory(directory)
  {
    if Qualified(path) then Upper(path[0]) else directory[0]
  }

  /** Where a walk starts. */
  function BaseOf(path: string, directory: string, size: nat): Option<Stack>
    requires IsDirectory(directory)
  {
    if Relative(path) then Walk([], Components(directory[2..]), size) else Some([])
  }

  /** Where it ends. */
  function EndOf(base: Option<Stack>, components: seq<string>, size: nat): Option<Stack> {
    if base.None? then None else Walk(base.value, components, size)
  }

  function Rendered(drive: char, end: Option<Stack>): Option<string> {
    if end.None? then None else Some(Render(drive, end.value))
  }

  lemma NormalizeIs(path: string, directory: string, size: nat)
    ensures Normalize(path, directory, size).Some? ==> WellFormed(path, directory, size)
    ensures WellFormed(path, directory, size) ==>
              Normalize(path, directory, size)
              == Rendered(DriveOf(path, directory),
                          EndOf(BaseOf(path, directory, size), Components(Source(path)), size))
  {
  }

  lemma Longer(path: string, directory: string, size: nat, c: string)
    requires WellFormed(path, directory, size)
    ensures var longer := path + "/" + c;
            && WellFormed(longer, directory, size) && Source(longer) == Source(path) + "/" + c
            && DriveOf(longer, directory) == DriveOf(path, directory)
            && BaseOf(longer, directory, size) == BaseOf(path, directory, size)
  {
  }

  lemma EndPlain(path: string, directory: string, size: nat)
    requires WellFormed(path, directory, size)
    ensures var end := EndOf(BaseOf(path, directory, size), Components(Source(path)), size);
            end.Some? ==> AllPlain(end.value) && Fits(end.value, size)
  {
    var base, components := BaseOf(path, directory, size), Components(Source(path));
    if base.Some? && EndOf(base, components, size).Some? {
      if Relative(path) {
        WalkPlain([], Components(directory[2..]), size);
      }
      WalkPlain(base.value, components, size);
    }
  }

  lemma EndMore(base: Option<Stack>, components: seq<string>, c: string, size: nat)
    requires EndOf(base, components, size).Some?
    ensures EndOf(base, components + [c], size) == Step(EndOf(base, components, size).value, c, size)
  {
    WalkMore(base.value, components, c, size);
  }

  /** What a path that is normalised leads to, and what one more component behind it leads to. */
  lemma Behind(path: string, directory: string, size: nat, c: string) returns (drive: char, stack: Stack)
    requires Normalize(path, directory, size).Some? && Name(c)
    ensures Normalize(path, directory, size) == Some(Render(drive, stack))
    ensures AllPlain(stack) && Fits(stack, size)
    ensures Normalize(path + "/" + c, directory, size) == Rendered(drive, Step(stack, c, size))
  {
    NormalizeIs(path, directory, size);
    NormalizeIs(path + "/" + c, directory, size);
    Longer(path, directory, size, c);
    ComponentsAppend(Source(path), c);
    OneComponent(c);
    EndPlain(path, directory, size);
    var base, components := BaseOf(path, directory, size), Components(Source(path));
    EndMore(base, components, c, size);
    drive, stack := DriveOf(path, directory), EndOf(base, components, size).value;
  }

  /** A name behind a path is entered, exactly when it is short enough and its path fits the buffer. */
  lemma NameEnters(path: string, directory: string, size: nat, name: string)
    requires Normalize(path, directory, size).Some? && Name(name) && name != "." && name != ".."
    ensures var s := Child(Normalize(path, directory, size).value, name);
            Normalize(path + "/" + name, directory, size) == if |name| <= 255 && |s| < size then Some(s) else None
  {
    var drive, stack := Behind(path, directory, size, name);
    RenderChild(Render(drive, stack), drive, stack, name);
    assert |Render('A', stack + [name])| == |Render(drive, stack + [name])|;
  }

  /** A dot and a slash behind a path change nothing. */
  lemma DotStays(path: string, directory: string, size: nat)
    requires Normalize(path, directory, size).Some?
    ensures Normalize(path + "/.", directory, size) == Normalize(path, directory, size)
  {
    var drive, stack := Behind(path, directory, size, ".");
    assert path + "/" + "." == path + "/.";
  }

  lemma LastName(s: string, drive: char, stack: Stack) returns (name: string)
    requires Renders(s, drive, stack) && stack != []
    ensures |s| > 3 && Name(name) && s == Child(Render(drive, stack[..|stack| - 1]), name)
  {
    var n := |stack| - 1;
    name := stack[n];
    RootIsShort(s, drive, stack);
    RenderChild(Render(drive, stack[..n]), drive, stack[..n], name);
    assert stack[..n] + [name] == stack;
  }

  /** Two dots behind a path leave its last name, and at a root nothing. */
  lemma DotDotLeaves(path: string, directory: string, size: nat) returns (parent: string, name: string)
    requires Normalize(path, directory, size).Some?
    ensures Normalize(path + "/..", directory, size) == Some(parent)
    ensures var s := Normalize(path, directory, size).value;
            if |s| == 3 then parent == s else Name(name) && s == Child(parent, name)
  {
    var drive, stack := Behind(path, directory, size, "..");
    assert path + "/" + ".." == path + "/..";
    name := "";
    if |stack| == 0 {
      parent := Render(drive, stack);
      RootIsShort(parent, drive, stack);
    } else {
      parent := Render(drive, stack[..|stack| - 1]);
      name := LastName(Render(drive, stack), drive, stack);
    }
  }

  /** The root of a drive named in either case, and of the working directory's when none is named. */
  lemma RootsAre(letter: char, directory: string, size: nat)
    requires IsDirectory(directory) && size >= 4 && IsLetter(letter)
    ensures Normalize([letter, ':', '/'], directory, size) == Normalize([letter, ':'], directory, size)
    ensures Normalize([letter, ':', '/'], directory, size)
         == Some([if letter >= 'a' then letter - ' ' else letter, ':', '/'])
    ensures Normalize("/", directory, size) == Some(directory[..3])
  {
    assert "/"[1..] == "" && [letter, ':', '/'][2..] == "/" && [letter, ':'][2..] == "";
    assert directory[..3] == [directory[0], ':', '/'] == Render(directory[0], []);
    assert Render(Upper(letter), []) == [Upper(letter), ':', '/'];
  }

  /** A path from the root is one on the drive of the working directory. */
  lemma AbsoluteIsOnDrive(path: string, directory: string, size: nat)
    requires path != "" && path[0] == '/' && IsDirectory(directory)
    ensures Normalize(path, directory, size) == Normalize(directory[..2] + path, directory, size)
  {
    var all := directory[..2] + path;
    assert all[0] == directory[0] && all[1] == ':' && all[2..] == path;
  }
}
