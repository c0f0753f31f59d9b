/** filesystem_normalize_path of fs/path.c, building the path in its output buffer. */
module Path {
  import opened PathSpec

  const NUL: char := '\0'

  /** The buffer holds the rendered stack as a C string. */
  ghost predicate Holds(output: array<char>, length: nat, drive: char, stack: Stack)
    reads output
  {
    length < output.Length && output[..length] == Render(drive, stack) && output[length] == NUL
  }

  lemma RootIsShort(drive: char, stack: Stack)
    requires forall i :: 0 <= i < |stack| ==> Name(stack[i])
    ensures |Render(drive, stack)| >= 3 && (|Render(drive, stack)| > 3 <==> stack != [])
  {
    JoinShape(stack);
  }

  /** One more name adds a slash, unless the root's is there already, and itself. */
  lemma RenderMore(drive: char, stack: Stack, c: string)
    ensures Render(drive, stack + [c]) == Render(drive, stack) + (if stack == [] then c else "/" + c)
  {
    var more := stack + [c];
    assert more[..|more| - 1] == stack;
    if stack != [] {
      assert Join(more) == Join(stack) + "/" + c;
    }
  }

  method CopyInto(output: array<char>, at: nat, component: string)
    requires at + |component| < output.Length
    modifies output
    ensures output[..at + |component|] == old(output[..at]) + component
  {
    ghost var front := output[..at];
    for i := 0 to |component|
      invariant output[..at + i] == front + component[..i]
    {
      output[at + i] := component[i];
    }
  }

  method AppendComponent(output: array<char>, length: nat, component: string, ghost drive: char, ghost stack: Stack)
    returns (ok: bool, now: nat)
    requires Holds(output, length, drive, stack) && Name(component)
    requires forall i :: 0 <= i < |stack| ==> Name(stack[i])
    modifies output
    ensures ok == (|component| <= NAME_MAX && Fits(stack + [component], output.Length))
    ensures ok ==> Holds(output, now, drive, stack + [component])
  {
    RootIsShort(drive, stack);
    RenderMore(drive, stack, component);
    RenderMore('A', stack, component);
    assert |Render('A', stack)| == |Render(drive, stack)|;
    if |component| > NAME_MAX {
      return false, length;
    }
    var separator := if length > 3 then 1 else 0;
    if length + separator + |component| >= output.Length {
      return false, length;
    }
    now := length;
    if separator != 0 {
      output[now] := '/';
      now := now + 1;
    }
    CopyInto(output, now, component);
    now := now + |component|;
    output[now] := NUL;
    return true, now;
  }

  method RemoveComponent(output: array<char>, length: nat, ghost drive: char, ghost stack: Stack) returns (now: nat)
    requires Holds(output, length, drive, stack) && forall i :: 0 <= i < |stack| ==> Name(stack[i])
    modifies output
    ensures Holds(output, now, drive, Move(stack, ".."))
  {
    RootIsShort(drive, stack);
    now := length;
    if length <= 3 {
      return;
    }
    ghost var n := |stack| - 1;
    ghost var below := Render(drive, stack[..n]);
    ghost var all := Render(drive, stack);
    assert stack == stack[..n] + [stack[n]];
    RenderMore(drive, stack[..n], stack[n]);
    RootIsShort(drive, stack[..n]);
    ghost var start := length - |stack[n]|;
    assert forall i :: start <= i < length ==> output[i] == all[i] == stack[n][i - start];
    while now > 3 && output[now - 1] != '/'
      invariant start <= now <= length && 3 <= now
    {
      assert now > start by {
        if n > 0 {
          assert all[start - 1] == '/';
        }
      }
      now := now - 1;
    }
    assert now == start;
    if now > 3 {
      now := now - 1;
    }
    assert output[..now] == all[..now] == below;
    output[now] := NUL;
  }

  lemma WalkFrom(stack: Stack, c: string, rest: seq<string>, size: nat)
    ensures Walk(stack, [c] + rest, size)
         == if Step(stack, c, size).None? then None else Walk(Step(stack, c, size).value, rest, size)
  {
    assert [c][..0] == [];
    WalkAppend(stack, [c], rest, size);
  }

  method ConsumeComponent(output: array<char>, length: nat, component: string, ghost drive: char, ghost stack: Stack)
    returns (ok: bool, now: nat)
    requires Holds(output, length, drive, stack) && Name(component)
    requires forall i :: 0 <= i < |stack| ==> Name(stack[i])
    modifies output
    ensures ok == Step(stack, component, output.Length).Some?
    ensures ok ==> Holds(output, now, drive, Step(stack, component, output.Length).value)
  {
    if |component| == 1 && component[0] == '.' {
      assert component == ".";
      return true, length;
    }
    if |component| == 2 && component[0] == '.' && component[1] == '.' {
      assert component == "..";
      now := RemoveComponent(output, length, drive, stack);
      return true, now;
    }
    ok, now := AppendComponent(output, length, component, drive, stack);
  }

  method ConsumePath(path: string, output: array<char>, length: nat, ghost drive: char, ghost base: Stack)
    returns (ok: bool, now: nat)
    requires Holds(output, length, drive, base) && forall i :: 0 <= i < |base| ==> Name(base[i])
    modifies output
    ensures ok == Walk(base, Components(path), output.Length).Some?
    ensures ok ==> Holds(output, now, drive, Walk(base, Components(path), output.Length).value)
  {
    ghost var stack := base;
    now := length;
    var cursor := 0;
    assert path[0..] == path;
    while cursor < |path|
      invariant cursor <= |path| && Holds(output, now, drive, stack)
      invariant forall i :: 0 <= i < |stack| ==> Name(stack[i])
      invariant Walk(base, Components(path), output.Length) == Walk(stack, Components(path[cursor..]), output.Length)
    {
      var start := SkipSlashes(path, cursor);
      if start == |path| {
        break;
      }
      cursor := SkipName(path, start);
      var component := path[start..cursor];
      FirstComponent(path, start, cursor);
      WalkFrom(stack, component, Components(path[cursor..]), output.Length);
      ok, now := ConsumeComponent(output, now, component, drive, stack);
      if !ok {
        return false, now;
      }
      stack := Step(stack, component, output.Length).value;
    }
    ok := true;
  }

  method SkipSlashes(path: string, from: nat) returns (at: nat)
    requires from < |path|
    ensures from <= at <= |path| && (at < |path| ==> path[at] != '/')
    ensures Components(path[at..]) == Components(path[from..])
  {
    at := from;
    while at < |path| && path[at] == '/'
      invariant from <= at <= |path| && Components(path[at..]) == Components(path[from..])
    {
      assert path[at..][1..] == path[at + 1..];
      at := at + 1;
    }
  }

  method SkipName(path: string, from: nat) returns (at: nat)
    requires from < |path| && path[from] != '/'
    ensures from < at <= |path| && (at < |path| ==> path[at] == '/')
    ensures forall i :: from <= i < at ==> path[i] != '/'
  {
    at := from;
    while at < |path| && path[at] != '/'
      invariant from <= at <= |path| && forall i :: from <= i < at ==> path[i] != '/'
    {
      at := at + 1;
    }
  }

  lemma FirstComponent(path: string, start: nat, end: nat)
    requires start < end <= |path| && (end < |path| ==> path[end] == '/')
    requires forall i :: start <= i < end ==> path[i] != '/'
    ensures Components(path[start..]) == [path[start..end]] + Components(path[end..])
    ensures Name(path[start..end])
  {
    var s := path[start..];
    ComponentAt(s, end - start);
    assert s[..end - start] == path[start..end] && s[end - start..] == path[end..];
  }

  /** On success the buffer holds the normal path and its terminator. */
  method NormalizePath(path: string, directory: string, output: array<char>) returns (ok: bool, ghost length: nat)
    modifies output
    ensures ok == Normalize(path, directory, output.Length).Some?
    ensures ok ==> length < output.Length && output[length] == NUL
                   && output[..length] == Normalize(path, directory, output.Length).value
  {
    length := 0;
    if output.Length < 4 || path == "" || |directory| < 3 || directory[0] < 'A' || directory[0] > 'Z'
       || directory[1] != ':' || directory[2] != '/' {
      return false, 0;
    }
    var qualified := |path| >= 2 && IsLetter(path[0]) && path[1] == ':';
    var drive := if qualified then Upper(path[0]) else directory[0];
    var source := if qualified then path[2..] else path;
    if qualified && source != "" && source[0] != '/' {
      return false, 0;
    }
    var used := 3;
    output[0], output[1], output[2], output[3] := drive, ':', '/', NUL;
    ghost var base: Stack := [];
    assert Holds(output, used, drive, base);
    if !qualified && source[0] != '/' {
      ok, used := ConsumePath(directory[2..], output, used, drive, base);
      if !ok {
        return false, 0;
      }
      base := Walk([], Components(directory[2..]), output.Length).value;
      WalkNames([], Components(directory[2..]), output.Length);
    }
    ok, used := ConsumePath(source, output, used, drive, base);
    length := used;
  }

  lemma {:induction false} WalkNames(stack: Stack, components: seq<string>, size: nat)
    requires forall i :: 0 <= i < |stack| ==> Name(stack[i])
    requires Walk(stack, components, size).Some? && forall i :: 0 <= i < |components| ==> Name(components[i])
    ensures var r := Walk(stack, components, size).value; forall i :: 0 <= i < |r| ==> Name(r[i])
    decreases |components|
  {
    if components != [] {
      WalkNames(stack, components[..|components| - 1], size);
    }
  }
}
