/** Path normalisation of fs/path.c as a fold of path components onto a stack. */
module PathSpec {
  datatype Option<T> = None | Some(value: T)

  const NAME_MAX: nat := 255

  /** A stack of directory names below a drive's root. */
  type Stack = seq<string>

  // ----- Components and rendering -----

  /** Length of the component at the start of a path. */
  function ComponentLength(s: string): (n: nat)
    ensures n <= |s|
    ensures forall i :: 0 <= i < n ==> s[i] != '/'
    ensures n < |s| ==> s[n] == '/'
  {
    if s == "" || s[0] == '/' then 0 else 1 + ComponentLength(s[1..])
  }

  /** The names between the slashes; empty ones do not count. */
  function Components(s: string): (r: seq<string>)
    ensures forall c :: c in r ==> Name(c)
    decreases |s|
  {
    if s == "" then []
    else if s[0] == '/' then Components(s[1..])
    else [s[..ComponentLength(s)]] + Components(s[ComponentLength(s)..])
  }

  /** What can stand between two slashes. */
  predicate Name(c: string) {
    c != "" && forall i :: 0 <= i < |c| ==> c[i] != '/'
  }

  function Join(stack: Stack): string {
    if stack == [] then ""
    else if |stack| == 1 then stack[0]
    else Join(stack[..|stack| - 1]) + "/" + stack[|stack| - 1]
  }

  function Render(drive: char, stack: Stack): (s: string) {
    [drive, ':', '/'] + Join(stack)
  }

  // ----- The fold -----

  /** One component without regard to sizes: `.` stays, `..` goes up but not above the root. */
  function Move(stack: Stack, c: string): Stack {
    if c == "." then stack
    else if c == ".." then if stack == [] then stack else stack[..|stack| - 1]
    else stack + [c]
  }

  function Resolve(stack: Stack, components: seq<string>): Stack {
    if components == [] then stack
    else Move(Resolve(stack, components[..|components| - 1]), components[|components| - 1])
  }

  /** A stack that the output buffer has room for. */
  predicate Fits(stack: Stack, size: nat) {
    |Render('A', stack)| < size
  }

  predicate Pushes(c: string) {
    c != "." && c != ".."
  }

  /** One component with the source's limits on names and on the buffer. */
  function Step(stack: Stack, c: string, size: nat): Option<Stack> {
    if Pushes(c) && (|c| > NAME_MAX || !Fits(stack + [c], size)) then None else Some(Move(stack, c))
  }

  function Walk(stack: Stack, components: seq<string>, size: nat): Option<Stack> {
    if components == [] then Some(stack)
    else
      var before := Walk(stack, components[..|components| - 1], size);
      if before.None? then None else Step(before.value, components[|components| - 1], size)
  }

  // ----- Normalisation -----

  predicate IsDrive(c: char) {
    'A' <= c <= 'Z'
  }

  predicate IsLetter(c: char) {
    'A' <= c <= 'Z' || 'a' <= c <= 'z'
  }

  function Upper(c: char): char
    requires IsLetter(c)
  {
    if c >= 'a' then c - ('a' - 'A') else c
  }

  predicate Qualified(path: string) {
    |path| >= 2 && IsLetter(path[0]) && path[1] == ':'
  }

  /** A working directory is an absolute path on an upper-case drive. */
  predicate IsDirectory(s: string) {
    |s| >= 3 && IsDrive(s[0]) && s[1] == ':' && s[2] == '/'
  }

  function Normalize(path: string, directory: string, size: nat): Option<string> {
    if size < 4 || path == "" || !IsDirectory(directory) then None
    else
      var qualified := Qualified(path);
      var drive := if qualified then Upper(path[0]) else directory[0];
      var source := if qualified then path[2..] else path;
      if qualified && source != "" && source[0] != '/' then None
      else
        var base :=
          if !qualified && source[0] != '/' then Walk([], Components(directory[2..]), size) else Some([]);
        if base.None? then None
        else
          var stack := Walk(base.value, Components(source), size);
          if stack.None? then None else Some(Render(drive, stack.value))
  }

  // ----- What a normal path is -----

  /** A name that normalisation leaves alone. */
  predicate Plain(c: string) {
    Name(c) && Pushes(c) && |c| <= NAME_MAX
  }

  predicate AllPlain(stack: Stack) {
    forall i :: 0 <= i < |stack| ==> Plain(stack[i])
  }

  /** Upper-case drive, a single slash before every name, no `.` and no `..`, no slash at the end except the
      root's, and room for a terminator. */
  predicate Canonical(s: string, size: nat) {
    && IsDirectory(s) && |s| < size
    && (|s| > 3 ==> s[|s| - 1] != '/')
    && (forall i :: 0 <= i < |s| - 1 ==> !(s[i] == '/' && s[i + 1] == '/'))
    && (forall c :: c in Components(s[2..]) ==> Plain(c))
  }

  // ----- Splitting and joining -----

  lemma ComponentAt(s: string, n: nat)
    requires n <= |s| && (forall i :: 0 <= i < n ==> s[i] != '/') && (n == |s| || s[n] == '/')
    ensures ComponentLength(s) == n
  {
  }

  /** The first component of a path and what follows it. */
  lemma FirstName(name: string, rest: string)
    requires Name(name) && (rest == "" || rest[0] == '/')
    ensures Components(name + rest) == [name] + Components(rest)
  {
    var s := name + rest;
    ComponentAt(s, |name|);
    assert s[..|name|] == name && s[|name|..] == rest;
  }

  lemma {:induction false} ComponentsAppend(a: string, b: string)
    ensures Components(a + "/" + b) == Components(a) + Components(b)
    decreases |a|
  {
    var all := a + "/" + b;
    if a == "" {
      assert all[1..] == b;
    } else if a[0] == '/' {
      assert all[1..] == a[1..] + "/" + b;
      ComponentsAppend(a[1..], b);
    } else {
      var n := ComponentLength(a);
      var name, rest := a[..n], a[n..];
      assert a == name + rest && all == name + (rest + "/" + b);
      FirstName(name, rest);
      FirstName(name, rest + "/" + b);
      ComponentsAppend(rest, b);
    }
  }

  lemma OneComponent(c: string)
    requires Name(c)
    ensures Components(c) == [c]
  {
    ComponentAt(c, |c|);
    assert c[..|c|] == c && c[|c|..] == "";
  }

  /** Splitting undoes joining. */
  lemma {:induction false} SplitJoin(stack: Stack)
    requires forall i :: 0 <= i < |stack| ==> Name(stack[i])
    ensures Components(Join(stack)) == stack
  {
    if |stack| == 1 {
      OneComponent(stack[0]);
      assert stack == [stack[0]];
    } else if |stack| > 1 {
      var n := |stack| - 1;
      SplitJoin(stack[..n]);
      OneComponent(stack[n]);
      ComponentsAppend(Join(stack[..n]), stack[n]);
      assert stack == stack[..n] + [stack[n]];
    }
  }

  lemma RenderedComponents(drive: char, stack: Stack)
    requires forall i :: 0 <= i < |stack| ==> Name(stack[i])
    ensures Components(Render(drive, stack)[2..]) == stack
  {
    var s := Render(drive, stack)[2..];
    assert s[0] == '/' && s[1..] == Join(stack);
    SplitJoin(stack);
  }

  // ----- Walking -----

  lemma {:induction false} WalkResolves(stack: Stack, components: seq<string>, size: nat)
    requires Walk(stack, components, size).Some?
    ensures Walk(stack, components, size).value == Resolve(stack, components)
  {
    if components != [] {
      WalkResolves(stack, components[..|components| - 1], size);
    }
  }

  /** The `k`-th component does not push, or pushes a name that is short enough onto a stack with room. */
  predicate Passes(stack: Stack, components: seq<string>, size: nat, k: nat)
    requires k < |components|
  {
    Pushes(components[k]) ==>
      |components[k]| <= NAME_MAX && Fits(Resolve(stack, components[..k]) + [components[k]], size)
  }

  /** A walk succeeds exactly when every name along the way is short enough and every directory it passes
      through fits the buffer, even those that a later `..` leaves again. */
  lemma {:induction false} WalkSucceeds(stack: Stack, components: seq<string>, size: nat)
    ensures Walk(stack, components, size).Some? <==>
              forall k :: 0 <= k < |components| ==> Passes(stack, components, size, k)
    decreases |components|
  {
    if components != [] {
      var n := |components| - 1;
      var before := components[..n];
      WalkSucceeds(stack, before, size);
      forall k | 0 <= k < n ensures Passes(stack, components, size, k) == Passes(stack, before, size, k) {
        assert components[..k] == before[..k];
      }
      if Walk(stack, before, size).Some? {
        WalkResolves(stack, before, size);
        assert Passes(stack, components, size, n) == Step(Resolve(stack, before), components[n], size).Some?;
      }
    }
  }

  lemma {:induction false} WalkPlain(stack: Stack, components: seq<string>, size: nat)
    requires AllPlain(stack) && Fits(stack, size) && Walk(stack, components, size).Some?
    requires forall i :: 0 <= i < |components| ==> Name(components[i])
    ensures AllPlain(Walk(stack, components, size).value) && Fits(Walk(stack, components, size).value, size)
    decreases |components|
  {
    if components != [] {
      var n := |components| - 1;
      WalkPlain(stack, components[..n], size);
      var before := Walk(stack, components[..n], size).value;
      JoinGrows(before);
    }
  }

  /** Dropping the last name never makes a path longer. */
  lemma JoinGrows(stack: Stack)
    ensures stack != [] ==> |Join(stack[..|stack| - 1])| <= |Join(stack)|
  {
    if |stack| == 1 {
      assert stack[..0] == [];
    }
  }

  lemma {:induction false} WalkSelf(stack: Stack, size: nat)
    requires AllPlain(stack) && Fits(stack, size)
    ensures Walk([], stack, size) == Some(stack)
  {
    if stack != [] {
      var n := |stack| - 1;
      JoinGrows(stack);
      WalkSelf(stack[..n], size);
      assert stack == stack[..n] + [stack[n]];
    }
  }

  lemma {:induction false} WalkAppend(stack: Stack, a: seq<string>, b: seq<string>, size: nat)
    ensures Walk(stack, a + b, size)
         == if Walk(stack, a, size).None? then None else Walk(Walk(stack, a, size).value, b, size)
    decreases |b|
  {
    if b == [] {
      assert a + b == a;
    } else {
      var n := |b| - 1;
      assert (a + b)[..|a| + n] == a + b[..n];
      WalkAppend(stack, a, b[..n], size);
    }
  }

  // ----- The promises -----

  /** What a path names, whatever the sizes: the drive and the stack its components lead to. */
  function Meaning(path: string, directory: string): (char, Stack)
    requires path != "" && IsDirectory(directory)
  {
    if Qualified(path) then (Upper(path[0]), Resolve([], Components(path[2..])))
    else if path[0] == '/' then (directory[0], Resolve([], Components(path)))
    else (directory[0], Resolve(Resolve([], Components(directory[2..])), Components(path)))
  }

  /** A successful normalisation renders the fold of the components. */
  lemma NormalizeMeans(path: string, directory: string, size: nat)
    requires Normalize(path, directory, size).Some?
    ensures var m := Meaning(path, directory); Normalize(path, directory, size) == Some(Render(m.0, m.1))
  {
    var source := if Qualified(path) then path[2..] else path;
    if !Qualified(path) && source[0] != '/' {
      var base := Walk([], Components(directory[2..]), size).value;
      WalkResolves([], Components(directory[2..]), size);
      WalkResolves(base, Components(source), size);
    } else {
      WalkResolves([], Components(source), size);
    }
  }

  /** The stack a successful normalisation renders. */
  lemma NormalizeStack(path: string, directory: string, size: nat) returns (drive: char, stack: Stack)
    requires Normalize(path, directory, size).Some?
    ensures Normalize(path, directory, size) == Some(Render(drive, stack))
    ensures IsDrive(drive) && AllPlain(stack) && Fits(stack, size)
  {
    var source := if Qualified(path) then path[2..] else path;
    drive := if Qualified(path) then Upper(path[0]) else directory[0];
    var base := [];
    if !Qualified(path) && source[0] != '/' {
      base := Walk([], Components(directory[2..]), size).value;
      WalkPlain([], Components(directory[2..]), size);
    }
    WalkPlain(base, Components(source), size);
    stack := Walk(base, Components(source), size).value;
  }

  lemma {:induction false} JoinShape(stack: Stack)
    requires forall i :: 0 <= i < |stack| ==> Name(stack[i])
    ensures stack != [] ==> Join(stack) != "" && Join(stack)[0] != '/' && Join(stack)[|Join(stack)| - 1] != '/'
    ensures forall i :: 0 <= i < |Join(stack)| - 1 ==> !(Join(stack)[i] == '/' && Join(stack)[i + 1] == '/')
  {
    if |stack| > 1 {
      var n := |stack| - 1;
      JoinShape(stack[..n]);
      var a, c := Join(stack[..n]), stack[n];
      var s := a + "/" + c;
      forall i | 0 <= i < |s| - 1 ensures !(s[i] == '/' && s[i + 1] == '/') {
        if i > |a| {
          assert s[i] == c[i - |a| - 1];
        } else if i == |a| {
          assert s[i + 1] == c[0];
        } else if i == |a| - 1 {
          assert s[i] == a[i];
        } else {
          assert s[i] == a[i] && s[i + 1] == a[i + 1];
        }
      }
    }
  }

  /** The output is canonical and fits the buffer with its terminator. */
  lemma NormalizeCanonical(path: string, directory: string, size: nat)
    requires Normalize(path, directory, size).Some?
    ensures Canonical(Normalize(path, directory, size).value, size)
  {
    var drive, stack := NormalizeStack(path, directory, size);
    RenderCanonical(drive, stack, size);
  }

  lemma RenderCanonical(drive: char, stack: Stack, size: nat)
    requires IsDrive(drive) && AllPlain(stack) && Fits(stack, size)
    ensures Canonical(Render(drive, stack), size)
  {
    RenderedComponents(drive, stack);
    JoinShape(stack);
    var s, j := Render(drive, stack), Join(stack);
    assert forall i :: 0 <= i < |j| ==> s[i + 3] == j[i];
    forall i | 0 <= i < |s| - 1 ensures !(s[i] == '/' && s[i + 1] == '/') {
      if i >= 3 {
        assert s[i] == j[i - 3] && s[i + 1] == j[i - 2];
      }
    }
  }

  lemma NormalizeRendered(drive: char, stack: Stack, directory: string, size: nat)
    requires IsDrive(drive) && AllPlain(stack) && Fits(stack, size) && IsDirectory(directory)
    ensures Normalize(Render(drive, stack), directory, size) == Some(Render(drive, stack))
  {
    var s := Render(drive, stack);
    assert Qualified(s) && s[2..][0] == '/';
    RenderedComponents(drive, stack);
    WalkSelf(stack, size);
  }

  /** Normalising a normal path, from any directory and into any buffer it fits, returns it unchanged. */
  lemma NormalizeIdempotent(path: string, directory: string, size: nat, other: string, room: nat)
    requires Normalize(path, directory, size).Some? && IsDirectory(other)
    requires |Normalize(path, directory, size).value| < room
    ensures Normalize(Normalize(path, directory, size).value, other, room) == Normalize(path, directory, size)
  {
    var drive, stack := NormalizeStack(path, directory, size);
    assert |Render('A', stack)| == |Render(drive, stack)|;
    NormalizeRendered(drive, stack, other, room);
  }

  /** A relative path names what it names after its working directory. */
  lemma RelativeIsAppended(path: string, directory: string, size: nat)
    requires path != "" && path[0] != '/' && !Qualified(path) && IsDirectory(directory)
    ensures Normalize(path, directory, size) == Normalize(directory + "/" + path, directory, size)
  {
    var all := directory + "/" + path;
    assert Qualified(all) && all[2..] == directory[2..] + "/" + path;
    ComponentsAppend(directory[2..], path);
    if size >= 4 {
      WalkAppend([], Components(directory[2..]), Components(path), size);
    }
  }

  // ----- When a path is refused -----

  /** Whether a path goes on from the working directory. */
  predicate Relative(path: string) {
    path != "" && !Qualified(path) && path[0] != '/'
  }

  /** All the components a path is made of, those of the working directory first where they count. */
  function AllComponents(path: string, directory: string): seq<string>
    requires IsDirectory(directory)
  {
    if Relative(path) then Components(directory[2..]) + Components(path)
    else Components(if Qualified(path) then path[2..] else path)
  }

  /** The buffer has room for a root, there is a path and a directory, and a drive is followed by a slash. */
  predicate WellFormed(path: string, directory: string, size: nat) {
    && size >= 4 && path != "" && IsDirectory(directory)
    && (Qualified(path) && |path| > 2 ==> path[2] == '/')
  }

  /** A path is normalised exactly when it is well formed and every name along the way is short enough and
      every directory it passes through fits the buffer, even those that a later `..` leaves again. */
  lemma NormalizeSucceeds(path: string, directory: string, size: nat)
    ensures Normalize(path, directory, size).Some? <==>
              && WellFormed(path, directory, size)
              && var components := AllComponents(path, directory);
                 forall k :: 0 <= k < |components| ==> Passes([], components, size, k)
  {
    if WellFormed(path, directory, size) {
      WalkSucceeds([], AllComponents(path, directory), size);
      if Relative(path) {
        WalkAppend([], Components(directory[2..]), Components(path), size);
      }
    }
  }

  /** A path that enters a directory and leaves it again is refused when the buffer has no room for the
      directory, although what the path names, the root, fits. */
  lemma DetourIsRefused(name: string, directory: string, size: nat)
    requires Name(name) && Pushes(name) && IsDirectory(directory) && 4 <= size <= 3 + |name|
    ensures Normalize("/" + name + "/..", directory, size) == None
    ensures Meaning("/" + name + "/..", directory) == (directory[0], []) && Fits([], size)
  {
    var path := "/" + name + "/..";
    assert !Qualified(path) && path[0] == '/' && path[1..] == name + "/..";
    FirstName(name, "/..");
    UpIsUp();
    assert Components(path) == [name] + [".."];
    Detour(name, "..", size);
    NormalizeSucceeds(path, directory, size);
    assert !Passes([], AllComponents(path, directory), size, 0);
  }

  lemma UpIsUp()
    ensures Components("/..") == [".."]
  {
    OneComponent("..");
    assert "/.."[1..] == "..";
  }

  lemma Detour(down: string, up: string, size: nat)
    requires Pushes(down) && up == ".." && |down| > 0 && size <= 3 + |down|
    ensures Resolve([], [down] + [up]) == [] && !Passes([], [down] + [up], size, 0)
  {
    var both := [down] + [up];
    assert both[..1] == [down] && [down][..0] == [] && both[..0] == [];
    assert Resolve([], [down]) == [down];
    assert [] + [down] == [down];
    assert Join([down]) == down;
  }

  /** For one: in a buffer for a root alone. */
  lemma ShortDetour()
    ensures Normalize("/" + "a" + "/..", "C:/", 4) == None
  {
    DetourIsRefused("a", "C:/", 4);
  }
}
