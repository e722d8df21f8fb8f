/** The path normaliser and the strict resolvers of fs.c: two parsers that must agree. A C string is
    the sequence of its characters without the terminator. */
module Paths {
  import opened Common

  const MAX_PATH := 128
  const MAX_NAME := 128

  // ---------------------------------------------------------------- components

  /** The number of characters before the first slash. */
  function Word(s: string): (k: nat)
    ensures k <= |s| && '/' !in s[..k] && (k < |s| ==> s[k] == '/')
  {
    if s == "" || s[0] == '/' then 0 else
      var k := Word(s[1..]) + 1;
      assert s[..k] == [s[0]] + s[1..][..k - 1];
      k
  }

  /** The components of a path, empty ones ignored. */
  function Split(s: string): (r: seq<string>)
  {
    if s == "" then [] else if s[0] == '/' then Split(s[1..]) else [s[..Word(s)]] + Split(s[Word(s)..])
  }

  /** One component applied to the directories so far. */
  function Step(stack: seq<string>, c: string): seq<string>
  {
    if c == "." then stack else if c == ".." then if stack == [] then [] else stack[..|stack| - 1] else stack + [c]
  }

  function Walked(stack: seq<string>, comps: seq<string>): seq<string>
    decreases comps
  {
    if comps == [] then stack else Walked(Step(stack, comps[0]), comps[1..])
  }

  /** The path of a list of directories. */
  function Render(stack: seq<string>): string
  {
    if stack == [] then "" else Render(stack[..|stack| - 1]) + "/" + stack[|stack| - 1]
  }

  /** The buffer never overflows on the way. */
  predicate Fits(stack: seq<string>, comps: seq<string>)
    decreases comps
  {
    comps == [] || (|Render(Step(stack, comps[0]))| < MAX_PATH && Fits(Step(stack, comps[0]), comps[1..]))
  }

  predicate HasDouble(path: string)
  {
    exists i :: 0 <= i < |path| - 1 && path[i] == '/' && path[i + 1] == '/'
  }

  predicate Absolute(path: string)
  {
    path != "" && path[0] == '/'
  }

  /** What is applied, from the root on. */
  function Sources(cwd: string, path: string): seq<string>
  {
    (if Absolute(path) then [] else Split(cwd)) + Split(path)
  }

  function Shown(stack: seq<string>): string
  {
    if stack == [] then "/" else Render(stack)
  }

  /** vfs_resolve_path. */
  function Resolve(cwd: string, path: string): Option<string>
  {
    var comps := Sources(cwd, path);
    if HasDouble(path) || !Fits([], comps) || |Render(Walked([], comps))| + 1 >= MAX_PATH then None
    else Some(Shown(Walked([], comps)))
  }

  // ---------------------------------------------------------------- the normaliser's loops

  /** A name of a directory or file in a path. */
  predicate IsName(c: string)
  {
    c != "" && '/' !in c && c != "." && c != ".."
  }

  predicate AllNames(stack: seq<string>)
  {
    forall i :: 0 <= i < |stack| ==> IsName(stack[i])
  }

  /** path_push. */
  method Push(out: array<char>, olen: nat, comp: string) returns (ok: bool, n: nat)
    requires out.Length == MAX_PATH && olen < MAX_PATH
    modifies out
    ensures ok <==> olen + 1 + |comp| < MAX_PATH
    ensures ok ==> n == olen + 1 + |comp| && out[..n] == old(out[..olen]) + "/" + comp
    ensures !ok ==> n == olen && out[..] == old(out[..])
  {
    n := olen;
    if olen + 1 + |comp| + 1 > MAX_PATH {
      return false, n;
    }
    out[n] := '/';
    n := n + 1;
    var i := 0;
    while i < |comp|
      invariant 0 <= i <= |comp| && n == olen + 1 + i && out[..n] == old(out[..olen]) + "/" + comp[..i]
    {
      out[n] := comp[i];
      n, i := n + 1, i + 1;
    }
    out[n] := '\0';
    return true, n;
  }

  /** Where the last component of a rendered path starts. */
  lemma LastSlash(stack: seq<string>, k: nat)
    requires stack != [] && AllNames(stack) && |Render(stack[..|stack| - 1])| < k <= |Render(stack)|
    ensures Render(stack)[k - 1] == '/' <==> k == |Render(stack[..|stack| - 1])| + 1
  {
    var n := |stack| - 1;
    var before := |Render(stack[..n])|;
    assert IsName(stack[n]);
    if k > before + 1 {
      assert Render(stack)[k - 1] == stack[n][k - before - 2];
    }
  }

  /** path_pop. */
  method Pop(out: array<char>, olen: nat, ghost stack: seq<string>) returns (n: nat)
    requires out.Length == MAX_PATH && olen < MAX_PATH && AllNames(stack) && out[..olen] == Render(stack)
    modifies out
    ensures n <= olen && out[..n] == if stack == [] then "" else Render(stack[..|stack| - 1])
  {
    n := olen;
    ghost var before := if stack == [] then 0 else |Render(stack[..|stack| - 1])|;
    while n > 0 && out[n - 1] != '/'
      invariant n <= olen && out[..] == old(out[..])
      invariant if stack == [] then n == 0 else before < n
    {
      assert out[n - 1] == out[..olen][n - 1];
      LastSlash(stack, n);
      n := n - 1;
    }
    if n > 0 {
      assert out[n - 1] == out[..olen][n - 1];
      LastSlash(stack, n);
      n := n - 1;
    }
    assert out[..n] == out[..olen][..n];
    out[n] := '\0';
  }

  lemma StepNames(stack: seq<string>, c: string)
    requires AllNames(stack) && c != "" && '/' !in c
    ensures AllNames(Step(stack, c))
  {
  }

  /** One component of the loop of path_apply. */
  method ApplyOne(out: array<char>, olen: nat, comp: string, ghost stack: seq<string>) returns (ok: bool, n: nat)
    requires out.Length == MAX_PATH && olen < MAX_PATH && AllNames(stack) && out[..olen] == Render(stack) &&
             comp != "" && '/' !in comp
    modifies out
    ensures ok <==> |Render(Step(stack, comp))| < MAX_PATH
    ensures ok ==> n < MAX_PATH && out[..n] == Render(Step(stack, comp))
  {
    if comp == "." {
      return true, olen;
    }
    if comp == ".." {
      n := Pop(out, olen, stack);
      return true, n;
    }
    assert (stack + [comp])[..|stack|] == stack;
    ok, n := Push(out, olen, comp);
  }

  lemma SplitAt(s: string, i: nat)
    requires i < |s| && s[i] != '/'
    ensures Word(s[i..]) > 0 && Split(s[i..]) == [s[i..i + Word(s[i..])]] + Split(s[i + Word(s[i..])..])
  {
    var k := Word(s[i..]);
    assert s[i..][..k] == s[i..i + k] && s[i..][k..] == s[i + k..];
  }

  /** Going on from `now` with the components `left` is what applying all of them to `stack` means. */
  ghost predicate Rest(stack: seq<string>, all: seq<string>, now: seq<string>, left: seq<string>)
  {
    AllNames(now) && (Fits(stack, all) <==> Fits(now, left)) && Walked(stack, all) == Walked(now, left)
  }

  lemma RestWord(stack: seq<string>, all: seq<string>, now: seq<string>, c: string, rest: seq<string>)
    requires Rest(stack, all, now, [c] + rest) && c != "" && '/' !in c
    ensures |Render(Step(now, c))| >= MAX_PATH ==> !Fits(stack, all)
    ensures |Render(Step(now, c))| < MAX_PATH ==> Rest(stack, all, Step(now, c), rest)
  {
    StepNames(now, c);
    var comps := [c] + rest;
    assert comps[0] == c && comps[1..] == rest;
  }

  lemma SplitSlash(s: string, i: nat)
    requires i < |s| && s[i] == '/'
    ensures Split(s[i..]) == Split(s[i + 1..])
  {
    assert s[i..][1..] == s[i + 1..];
  }

  /** One turn of path_apply at the start of a component. */
  method ApplyWord(out: array<char>, olen: nat, s: string, i: nat, ghost now: seq<string>)
    returns (ok: bool, n: nat, k: nat)
    requires out.Length == MAX_PATH && olen < MAX_PATH && AllNames(now) && out[..olen] == Render(now) && i < |s| &&
             s[i] != '/'
    modifies out
    ensures i < k <= |s| && '/' !in s[i..k] && Split(s[i..]) == [s[i..k]] + Split(s[k..])
    ensures ok <==> |Render(Step(now, s[i..k]))| < MAX_PATH
    ensures ok ==> n < MAX_PATH && out[..n] == Render(Step(now, s[i..k]))
  {
    SplitAt(s, i);
    k := Skip(s, i);
    ok, n := ApplyOne(out, olen, s[i..k], now);
  }

  /** path_apply. */
  method Apply(out: array<char>, olen: nat, s: string, ghost stack: seq<string>) returns (ok: bool, n: nat)
    requires out.Length == MAX_PATH && olen < MAX_PATH && AllNames(stack) && out[..olen] == Render(stack)
    modifies out
    ensures ok <==> Fits(stack, Split(s))
    ensures ok ==> n < MAX_PATH && out[..n] == Render(Walked(stack, Split(s))) && AllNames(Walked(stack, Split(s)))
  {
    var i := 0;
    n := olen;
    ghost var now, all := stack, Split(s);
    assert s[0..] == s;
    while i < |s|
      invariant 0 <= i <= |s| && n < MAX_PATH && out[..n] == Render(now) && Rest(stack, all, now, Split(s[i..]))
    {
      if s[i] == '/' {
        SplitSlash(s, i);
        i := i + 1;
      } else {
        var k;
        ok, n, k := ApplyWord(out, n, s, i, now);
        RestWord(stack, all, now, s[i..k], Split(s[k..]));
        if !ok {
          return;
        }
        now := Step(now, s[i..k]);
        i := k;
      }
    }
    ok := true;
  }

  /** The inner loop of path_apply. */
  method Skip(s: string, start: nat) returns (i: nat)
    requires start < |s|
    ensures i == start + Word(s[start..]) && '/' !in s[start..i]
  {
    i := start;
    while i < |s| && s[i] != '/'
      invariant start <= i <= |s| && Word(s[start..]) == i - start + Word(s[i..])
    {
      assert s[i..][1..] == s[i + 1..];
      i := i + 1;
    }
    assert s[start..][..i - start] == s[start..i];
  }

  /** The first loop of vfs_resolve_path. */
  method FindDouble(path: string) returns (r: bool)
    ensures r == HasDouble(path)
  {
    var i := 0;
    while i < |path|
      invariant 0 <= i <= |path| && forall k :: 0 <= k < i && k < |path| - 1 ==> !(path[k] == '/' && path[k + 1] == '/')
    {
      if path[i] == '/' && i + 1 < |path| && path[i + 1] == '/' {
        return true;
      }
      i := i + 1;
    }
    return false;
  }

  /** The two calls of path_apply in vfs_resolve_path. */
  method ApplyBoth(cwd: string, path: string, out: array<char>) returns (ok: bool, olen: nat)
    requires out.Length == MAX_PATH
    modifies out
    ensures ok <==> Fits([], Sources(cwd, path))
    ensures ok ==> olen < MAX_PATH && out[..olen] == Render(Walked([], Sources(cwd, path)))
  {
    olen := 0;
    ghost var stack: seq<string> := [];
    ghost var from := if Absolute(path) then [] else Split(cwd);
    if (path == "" || path[0] != '/') && cwd != "" {
      ok, olen := Apply(out, 0, cwd, []);
      FitsConcat([], from, Split(path));
      if !ok {
        return;
      }
      stack := Walked([], from);
    }
    assert stack == Walked([], from);
    FitsConcat([], from, Split(path));
    WalkedConcat([], from, Split(path));
    ok, olen := Apply(out, olen, path, stack);
  }

  /** vfs_resolve_path. */
  method ResolvePath(cwd: string, path: string, out: array<char>) returns (ok: bool, olen: nat)
    requires out.Length == MAX_PATH
    modifies out
    ensures ok <==> Resolve(cwd, path).Some?
    ensures ok ==> olen < MAX_PATH && out[..olen] == Resolve(cwd, path).value && out[olen] == '\0'
  {
    var bad := FindDouble(path);
    if bad {
      return false, 0;
    }
    ok, olen := ApplyBoth(cwd, path, out);
    if !ok {
      return;
    }
    if olen + 1 >= MAX_PATH {
      return false, olen;
    }
    RenderEmpty(Walked([], Sources(cwd, path)));
    if olen == 0 {
      out[0] := '/';
      olen := 1;
    }
    out[olen] := '\0';
  }

  lemma RenderEmpty(stack: seq<string>)
    ensures Render(stack) == "" <==> stack == []
  {
  }

  lemma {:induction false} WalkedConcat(stack: seq<string>, a: seq<string>, b: seq<string>)
    ensures Walked(stack, a + b) == Walked(Walked(stack, a), b)
    decreases a
  {
    if a == [] {
      assert a + b == b;
    } else {
      assert (a + b)[1..] == a[1..] + b;
      WalkedConcat(Step(stack, a[0]), a[1..], b);
    }
  }

  lemma {:induction false} FitsConcat(stack: seq<string>, a: seq<string>, b: seq<string>)
    ensures Fits(stack, a + b) <==> Fits(stack, a) && Fits(Walked(stack, a), b)
    decreases a
  {
    if a == [] {
      assert a + b == b;
    } else {
      assert (a + b)[1..] == a[1..] + b;
      FitsConcat(Step(stack, a[0]), a[1..], b);
    }
  }

  // ---------------------------------------------------------------- what the normaliser promises

  lemma {:induction false} SplitParts(s: string)
    ensures forall i :: 0 <= i < |Split(s)| ==> Split(s)[i] != "" && '/' !in Split(s)[i]
    decreases |s|
  {
    if s != "" {
      if s[0] == '/' {
        SplitParts(s[1..]);
      } else {
        SplitParts(s[Word(s)..]);
      }
    }
  }

  lemma {:induction false} WalkedNames(stack: seq<string>, comps: seq<string>)
    requires AllNames(stack) && forall i :: 0 <= i < |comps| ==> comps[i] != "" && '/' !in comps[i]
    ensures AllNames(Walked(stack, comps))
    decreases comps
  {
    if comps != [] {
      StepNames(stack, comps[0]);
      WalkedNames(Step(stack, comps[0]), comps[1..]);
    }
  }

  /** Only names are left of any path. */
  lemma ResolvedNames(cwd: string, path: string)
    ensures AllNames(Walked([], Sources(cwd, path)))
  {
    SplitParts(cwd);
    SplitParts(path);
    WalkedNames([], Sources(cwd, path));
  }

  lemma SplitName(c: string, rest: string)
    requires c != "" && '/' !in c && (rest == "" || rest[0] == '/')
    ensures Split(c + rest) == [c] + Split(rest)
  {
    WordOf(c, rest);
    assert (c + rest)[0] == c[0] && c[0] in c;
    assert (c + rest)[..|c|] == c && (c + rest)[|c|..] == rest;
  }

  lemma {:induction false} WordOf(c: string, rest: string)
    requires '/' !in c && (rest == "" || rest[0] == '/')
    ensures Word(c + rest) == |c|
    decreases |c|
  {
    if c == "" {
      assert c + rest == rest;
    } else {
      assert (c + rest)[1..] == c[1..] + rest && c[0] in c;
      WordOf(c[1..], rest);
    }
  }

  lemma SplitTail(c: string, rest: string)
    requires IsName(c) && (rest == "" || rest[0] == '/')
    ensures Split("/" + (c + rest)) == [c] + Split(rest)
  {
    assert ("/" + (c + rest))[1..] == c + rest;
    SplitName(c, rest);
  }

  lemma Shift(a: string, c: string, rest: string)
    ensures a + "/" + c + rest == a + ("/" + (c + rest))
  {
  }

  /** Splitting what was rendered gives the components back. */
  lemma {:induction false} SplitRender(stack: seq<string>, rest: string)
    requires AllNames(stack) && (rest == "" || rest[0] == '/')
    ensures Split(Render(stack) + rest) == stack + Split(rest)
    decreases |stack|
  {
    if stack == [] {
      assert Render(stack) + rest == rest;
    } else {
      var n := |stack| - 1;
      var c := stack[n];
      assert IsName(c);
      Shift(Render(stack[..n]), c, rest);
      SplitRender(stack[..n], "/" + (c + rest));
      SplitTail(c, rest);
      assert stack + Split(rest) == stack[..n] + ([c] + Split(rest));
    }
  }

  lemma SplitShown(stack: seq<string>)
    requires AllNames(stack)
    ensures Split(Shown(stack)) == stack
  {
    SplitRender(stack, "");
    assert Render(stack) + "" == Render(stack);
    assert "/"[1..] == "";
  }

  lemma {:induction false} NamesWalk(stack: seq<string>, names: seq<string>)
    requires AllNames(names)
    ensures Walked(stack, names) == stack + names
    decreases names
  {
    if names != [] {
      assert IsName(names[0]);
      NamesWalk(stack + [names[0]], names[1..]);
      assert stack + names == (stack + [names[0]]) + names[1..];
    }
  }

  lemma {:induction false} NamesFit(stack: seq<string>, names: seq<string>)
    requires AllNames(names) && |Render(stack + names)| < MAX_PATH
    ensures Fits(stack, names)
    decreases names
  {
    if names != [] {
      assert IsName(names[0]);
      var more := stack + [names[0]];
      assert stack + names == more + names[1..];
      RenderGrows(more, names[1..]);
      NamesFit(more, names[1..]);
    }
  }

  lemma {:induction false} RenderGrows(a: seq<string>, b: seq<string>)
    ensures |Render(a)| <= |Render(a + b)|
    decreases |b|
  {
    if b == [] {
      assert a + b == a;
    } else {
      assert (a + b)[..|a + b| - 1] == a + b[..|b| - 1];
      RenderGrows(a, b[..|b| - 1]);
    }
  }

  lemma {:induction false} RenderHasNoDouble(stack: seq<string>, i: nat)
    requires AllNames(stack) && i + 1 < |Render(stack)|
    ensures !(Render(stack)[i] == '/' && Render(stack)[i + 1] == '/')
    decreases |stack|
  {
    var n := |stack| - 1;
    var before, c := Render(stack[..n]), stack[n];
    assert IsName(c);
    if i + 1 < |before| {
      RenderHasNoDouble(stack[..n], i);
    } else if i + 1 == |before| {
      LastIsNoSlash(stack[..n]);
    } else {
      assert Render(stack)[i + 1] == c[i - |before|];
    }
  }

  lemma LastIsNoSlash(stack: seq<string>)
    requires AllNames(stack) && Render(stack) != ""
    ensures Render(stack)[|Render(stack)| - 1] != '/'
  {
    var c := stack[|stack| - 1];
    assert IsName(c) && c[|c| - 1] in c;
  }

  lemma ShownHasNoDouble(stack: seq<string>)
    requires AllNames(stack)
    ensures !HasDouble(Shown(stack)) && Absolute(Shown(stack))
  {
    forall i | 0 <= i < |Shown(stack)| - 1
      ensures !(Shown(stack)[i] == '/' && Shown(stack)[i + 1] == '/')
    {
      RenderHasNoDouble(stack, i);
    }
    RenderStarts(stack);
  }

  lemma {:induction false} RenderStarts(stack: seq<string>)
    ensures stack != [] ==> Render(stack)[0] == '/'
    decreases |stack|
  {
    if |stack| > 1 {
      RenderStarts(stack[..|stack| - 1]);
    }
  }

  /** A path of names, short enough, is its own normal form. */
  lemma NamesResolve(cwd: string, stack: seq<string>)
    requires AllNames(stack) && |Render(stack)| + 1 < MAX_PATH
    ensures Resolve(cwd, Shown(stack)) == Some(Shown(stack))
  {
    ShownHasNoDouble(stack);
    SplitShown(stack);
    assert Sources(cwd, Shown(stack)) == stack;
    NamesWalk([], stack);
    assert [] + stack == stack;
    NamesFit([], stack);
  }

  /** Normalising is idempotent, from whatever directory. */
  lemma ResolveIsIdempotent(cwd: string, path: string, cwd': string)
    requires Resolve(cwd, path).Some?
    ensures Resolve(cwd', Resolve(cwd, path).value) == Resolve(cwd, path)
  {
    ResolvedNames(cwd, path);
    NamesResolve(cwd', Walked([], Sources(cwd, path)));
  }

  lemma {:induction false} SplitJoin(a: string, b: string)
    ensures Split(a + "/" + b) == Split(a) + Split(b)
    decreases |a|
  {
    var s := a + "/" + b;
    if a == "" {
      assert s[1..] == b;
    } else if a[0] == '/' {
      assert s[1..] == a[1..] + "/" + b;
      SplitJoin(a[1..], b);
    } else {
      var k := Word(a);
      SplitJoin(a[k..], b);
      FirstWord(a, k, b);
    }
  }

  lemma FirstWord(a: string, k: nat, b: string)
    requires a != "" && a[0] != '/' && k == Word(a)
    ensures k > 0 && Split(a + "/" + b) == [a[..k]] + Split(a[k..] + "/" + b) && Split(a) == [a[..k]] + Split(a[k..])
  {
    var rest := a[k..] + "/" + b;
    assert a + "/" + b == a[..k] + rest;
    SplitName(a[..k], rest);
  }

  /** A path seen from where another leads. */
  function Join(a: string, b: string): string
  {
    if a == "" || Absolute(b) then b else if a[|a| - 1] == '/' then a + b else a + "/" + b
  }

  /** Changing to a directory and resolving a path there is resolving the two joined; also one fails
      exactly if the other does. */
  lemma ResolveComposes(cwd: string, a: string, b: string)
    requires Resolve(cwd, a).Some?
    ensures Resolve(cwd, Join(a, b)) == Resolve(Resolve(cwd, a).value, b)
  {
    var stack := Walked([], Sources(cwd, a));
    ResolvedNames(cwd, a);
    JoinedDoubles(a, b);
    if !Absolute(b) {
      JoinedSources(cwd, a, b);
      SplitShown(stack);
      assert Sources(Shown(stack), b) == stack + Split(b);
      ComposeWalks(Sources(cwd, a), Split(b), stack);
    }
  }

  lemma SameComponents(a: seq<string>, b: seq<string>, c: seq<string>)
    ensures (a + b) + c == a + (b + c)
  {
  }

  lemma JoinedSources(cwd: string, a: string, b: string)
    requires !Absolute(b)
    ensures Sources(cwd, Join(a, b)) == Sources(cwd, a) + Split(b)
  {
    if a == "" {
      assert Sources(cwd, a) == Split(cwd);
    } else {
      JoinedSplit(a, b);
      JoinedStart(a, b);
      SameComponents(if Absolute(a) then [] else Split(cwd), Split(a), Split(b));
    }
  }

  lemma JoinedStart(a: string, b: string)
    requires a != "" && !Absolute(b)
    ensures Absolute(Join(a, b)) == Absolute(a)
  {
    assert Join(a, b)[0] == a[0];
  }

  lemma JoinedSplit(a: string, b: string)
    requires a != "" && !Absolute(b)
    ensures Split(Join(a, b)) == Split(a) + Split(b)
  {
    if a[|a| - 1] == '/' {
      SlashedSplit(a[..|a| - 1], b);
      assert a == a[..|a| - 1] + "/";
    } else {
      SplitJoin(a, b);
    }
  }

  lemma SlashedSplit(a: string, b: string)
    ensures Split(a + "/" + b) == Split(a + "/") + Split(b)
  {
    SplitJoin(a, b);
    SplitJoin(a, "");
    assert a + "/" + "" == a + "/";
    assert Split(a) + Split("") == Split(a);
  }

  /** Walking on from where a walk has led is walking on from its result. */
  lemma ComposeWalks(first: seq<string>, second: seq<string>, stack: seq<string>)
    requires stack == Walked([], first) && AllNames(stack) && Fits([], first) && |Render(stack)| < MAX_PATH
    ensures Walked([], first + second) == Walked([], stack + second)
    ensures Fits([], first + second) <==> Fits([], stack + second)
  {
    NamesWalk([], stack);
    assert [] + stack == stack;
    NamesFit([], stack);
    WalkedConcat([], first, second);
    WalkedConcat([], stack, second);
    FitsConcat([], first, second);
    FitsConcat([], stack, second);
  }

  /** Joining makes no double slash. */
  lemma JoinedDoubles(a: string, b: string)
    requires !HasDouble(a)
    ensures HasDouble(Join(a, b)) <==> HasDouble(b)
  {
    var s := Join(a, b);
    var n := |s| - |b|;
    assert s[n..] == b;
    if HasDouble(b) {
      var i :| 0 <= i < |b| - 1 && b[i] == '/' && b[i + 1] == '/';
      assert s[n + i] == '/' && s[n + i + 1] == '/';
    } else {
      forall i | 0 <= i < |s| - 1
        ensures !(s[i] == '/' && s[i + 1] == '/')
      {
        if i >= n {
          assert s[i] == b[i - n] && s[i + 1] == b[i - n + 1];
        } else if i + 1 < |a| {
          assert s[i] == a[i] && s[i + 1] == a[i + 1];
        }
      }
    }
  }

  // ---------------------------------------------------------------- the strict resolvers

  /** What is mounted at the root, what a directory finds under a name, and which nodes are directories. */
  datatype Tree = Tree(root: Option<nat>, find: (nat, string) -> Option<nat>, isDirectory: nat -> bool)

  predicate Good(c: string)
  {
    0 < |c| < MAX_NAME && c != "." && c != ".."
  }

  /** The components the strict resolvers accept, slashes only between them. */
  function Components(s: string): Option<seq<string>>
    decreases |s|
  {
    var k := Word(s);
    if !Good(s[..k]) then None
    else if k == |s| then Some([s])
    else
      var rest := s[k + 1..];
      if rest == "" || rest[0] == '/' then None
      else
        match Components(rest)
        case None => None
        case Some(comps) => Some([s[..k]] + comps)
  }

  function Strict(path: string): Option<seq<string>>
  {
    if |path| >= MAX_PATH then None
    else
      var s := if Absolute(path) then path[1..] else path;
      if s == "" then Some([]) else Components(s)
  }

  /** From node on along the components; all but the last must be directories. */
  function Follow(tree: Tree, node: nat, comps: seq<string>): Option<nat>
    decreases comps
  {
    if comps == [] then Some(node)
    else
      match tree.find(node, comps[0])
      case None => None
      case Some(n) => if |comps| > 1 && !tree.isDirectory(n) then None else Follow(tree, n, comps[1..])
  }

  /** resolve_fs. */
  function Find(tree: Tree, path: string): Option<nat>
  {
    if tree.root.None? || Strict(path).None? then None else Follow(tree, tree.root.value, Strict(path).value)
  }

  /** The directory the components but the last lead to, and the last. */
  function ParentAt(tree: Tree, node: nat, comps: seq<string>): Option<(nat, string)>
  {
    if comps == [] then None
    else
      var last := |comps| - 1;
      var d := FollowAll(tree, node, comps[..last]);
      if d.None? then None else Some((d.value, comps[last]))
  }

  /** resolve_parent_fs. */
  function FindParent(tree: Tree, path: string): Option<(nat, string)>
  {
    if tree.root.None? || Strict(path).None? then None else ParentAt(tree, tree.root.value, Strict(path).value)
  }

  /** From node on along directories only. */
  function FollowAll(tree: Tree, node: nat, comps: seq<string>): Option<nat>
    decreases comps
  {
    if comps == [] then Some(node)
    else
      match tree.find(node, comps[0])
      case None => None
      case Some(n) => if !tree.isDirectory(n) then None else FollowAll(tree, n, comps[1..])
  }

  /** parse_component. */
  method ParseComponent(s: string, start: nat) returns (ok: bool, cursor: nat, component: string)
    requires start <= |s|
    ensures ok <==> Good(s[start..][..Word(s[start..])])
    ensures ok ==> cursor == start + Word(s[start..]) && component == s[start..][..Word(s[start..])]
  {
    cursor, component := start, "";
    ghost var k := Word(s[start..]);
    while cursor < |s| && s[cursor] != '/'
      invariant start <= cursor <= |s| && k == cursor - start + Word(s[cursor..])
      invariant component == s[start..cursor] && |component| < MAX_NAME
    {
      assert s[cursor..][1..] == s[cursor + 1..];
      if |component| + 1 >= MAX_NAME {
        return false, cursor, component;
      }
      component := component + [s[cursor]];
      cursor := cursor + 1;
    }
    assert s[start..][..k] == component;
    ok := |component| > 0 && component != "." && component != "..";
  }

  /** What resolve_fs returns when it is at `node` with `s` left. */
  function Outcome(tree: Tree, node: nat, s: string): Option<nat>
  {
    if s == "" then Some(node) else if Components(s).None? then None else Follow(tree, node, Components(s).value)
  }

  lemma OutcomeStep(tree: Tree, node: nat, s: string, k: nat)
    requires s != "" && k == Word(s)
    ensures !Good(s[..k]) ==> Outcome(tree, node, s) == None
    ensures Good(s[..k]) && tree.find(node, s[..k]).None? ==> Outcome(tree, node, s) == None
    ensures Good(s[..k]) && tree.find(node, s[..k]).Some? ==>
      var n := tree.find(node, s[..k]).value;
      Outcome(tree, node, s) ==
        if k == |s| then Some(n)
        else if k + 1 == |s| || s[k + 1] == '/' || !tree.isDirectory(n) then None
        else Outcome(tree, n, s[k + 1..])
  {
    if Good(s[..k]) {
      ComponentsWord(s, k);
      if k == |s| {
        FollowOne(tree, node, s[..k], []);
      } else if k + 1 < |s| && s[k + 1] != '/' && Components(s[k + 1..]).Some? {
        ComponentsNonEmpty(s[k + 1..]);
        FollowOne(tree, node, s[..k], Components(s[k + 1..]).value);
      }
    }
  }

  lemma ComponentsWord(s: string, k: nat)
    requires s != "" && k == Word(s) && Good(s[..k])
    ensures k == |s| ==> Components(s) == Some([s[..k]] + [])
    ensures k < |s| && (k + 1 == |s| || s[k + 1] == '/') ==> Components(s) == None
    ensures k + 1 < |s| && s[k + 1] != '/' ==>
      Components(s) == if Components(s[k + 1..]).None? then None else Some([s[..k]] + Components(s[k + 1..]).value)
  {
    assert [s[..k]] + [] == [s[..k]];
    assert k == |s| ==> s[..k] == s;
  }

  lemma FollowOne(tree: Tree, node: nat, c: string, rest: seq<string>)
    ensures Follow(tree, node, [c] + rest) ==
      match tree.find(node, c)
      case None => None
      case Some(n) => if rest != [] && !tree.isDirectory(n) then None else Follow(tree, n, rest)
  {
    var comps := [c] + rest;
    assert comps[0] == c && comps[1..] == rest;
  }

  /** One turn of resolve_fs: nothing found, or the node and the place to go on from. */
  method Turn(tree: Tree, node: nat, path: string, cursor: nat) returns (r: Option<nat>, next: nat)
    requires cursor < |path|
    ensures r.None? ==> Outcome(tree, node, path[cursor..]) == None
    ensures r.Some? ==> cursor < next <= |path| && Outcome(tree, node, path[cursor..]) == Outcome(tree, r.value,
            path[next..])
  {
    ghost var s := path[cursor..];
    ghost var k := Word(s);
    OutcomeStep(tree, node, s, k);
    var ok, component;
    ok, next, component := ParseComponent(path, cursor);
    if !ok {
      return None, next;
    }
    r := tree.find(node, component);
    if r.Some? && next < |path| {
      next := next + 1;
      assert s[k + 1..] == path[next..];
      if next == |path| || path[next] == '/' || !tree.isDirectory(r.value) {
        return None, next;
      }
    }
  }

  /** resolve_fs. */
  method ResolveFs(tree: Tree, path: string) returns (r: Option<nat>)
    ensures r == Find(tree, path)
  {
    if tree.root.None? || |path| >= MAX_PATH {
      return None;
    }
    var node, cursor := tree.root.value, if Absolute(path) then 1 else 0;
    assert path[0..] == path;
    if cursor == |path| {
      return Some(node);
    }
    while cursor < |path|
      invariant cursor <= |path| && Find(tree, path) == Outcome(tree, node, path[cursor..])
    {
      var next;
      r, next := Turn(tree, node, path, cursor);
      if r.None? {
        return;
      }
      node, cursor := r.value, next;
    }
    return Some(node);
  }

  /** What resolve_parent_fs returns when it is at `node` with `s` left. */
  function ParentOutcome(tree: Tree, node: nat, s: string): Option<(nat, string)>
  {
    if Components(s).None? then None else ParentAt(tree, node, Components(s).value)
  }

  lemma ParentOne(tree: Tree, node: nat, c: string, rest: seq<string>)
    ensures rest == [] ==> ParentAt(tree, node, [c] + rest) == Some((node, c))
    ensures rest != [] && tree.find(node, c).None? ==> ParentAt(tree, node, [c] + rest) == None
    ensures rest != [] && tree.find(node, c).Some? ==>
      ParentAt(tree, node, [c] + rest) ==
        if tree.isDirectory(tree.find(node, c).value) then ParentAt(tree, tree.find(node, c).value, rest) else None
  {
    var comps := [c] + rest;
    var front := comps[..|comps| - 1];
    if rest == [] {
      assert front == [];
    } else {
      assert front[0] == c && front[1..] == rest[..|rest| - 1] && comps[|comps| - 1] == rest[|rest| - 1];
    }
  }

  lemma ParentLast(tree: Tree, node: nat, s: string, k: nat)
    requires s != "" && k == Word(s) && (!Good(s[..k]) || k == |s| || k + 1 == |s| || s[k + 1] == '/')
    ensures ParentOutcome(tree, node, s) == if Good(s[..k]) && k == |s| then Some((node, s)) else None
  {
    if Good(s[..k]) {
      ComponentsWord(s, k);
      if k == |s| {
        ParentOne(tree, node, s[..k], []);
        assert s[..k] == s;
      }
    }
  }

  lemma ParentStep(tree: Tree, node: nat, s: string, k: nat)
    requires k == Word(s) && Good(s[..k]) && k + 1 < |s| && s[k + 1] != '/'
    ensures tree.find(node, s[..k]).None? ==> ParentOutcome(tree, node, s) == None
    ensures tree.find(node, s[..k]).Some? ==>
      ParentOutcome(tree, node, s) ==
        if tree.isDirectory(tree.find(node, s[..k]).value)
          then ParentOutcome(tree, tree.find(node, s[..k]).value, s[k + 1..]) else None
  {
    ComponentsWord(s, k);
    if Components(s[k + 1..]).Some? {
      ComponentsNonEmpty(s[k + 1..]);
      ParentOne(tree, node, s[..k], Components(s[k + 1..]).value);
    }
  }

  lemma ComponentsNonEmpty(s: string)
    ensures Components(s).Some? ==> Components(s).value != []
  {
  }

  /** One turn of resolve_parent_fs: the answer, or the directory and the place to go on from. */
  method ParentTurn(tree: Tree, parent: nat, path: string, cursor: nat)
    returns (done: bool, r: Option<(nat, string)>, node: nat, next: nat)
    requires cursor < |path|
    ensures done ==> r == ParentOutcome(tree, parent, path[cursor..])
    ensures !done ==> cursor < next < |path| && ParentOutcome(tree, parent, path[cursor..]) == ParentOutcome(tree, node,
            path[next..])
  {
    ghost var s := path[cursor..];
    ghost var k := Word(s);
    done, r, node := true, None, parent;
    var ok, component;
    ok, next, component := ParseComponent(path, cursor);
    if !ok {
      ParentLast(tree, parent, s, k);
      return;
    }
    if next == |path| {
      ParentLast(tree, parent, s, k);
      assert s[..k] == s;
      r := Some((parent, component));
      return;
    }
    next := next + 1;
    assert s[k + 1..] == path[next..];
    if next == |path| || path[next] == '/' {
      ParentLast(tree, parent, s, k);
      return;
    }
    ParentStep(tree, parent, s, k);
    var found := tree.find(parent, component);
    if found.None? || !tree.isDirectory(found.value) {
      return;
    }
    done, node := false, found.value;
  }

  /** resolve_parent_fs. */
  method ResolveParentFs(tree: Tree, path: string) returns (r: Option<(nat, string)>)
    ensures r == FindParent(tree, path)
  {
    if tree.root.None? || |path| == 0 || |path| >= MAX_PATH {
      return None;
    }
    var parent, cursor := tree.root.value, if Absolute(path) then 1 else 0;
    assert path[0..] == path;
    if cursor == |path| {
      return None;
    }
    while true
      invariant cursor < |path| && FindParent(tree, path) == ParentOutcome(tree, parent, path[cursor..])
      decreases |path| - cursor
    {
      var done, node, next;
      done, r, node, next := ParentTurn(tree, parent, path, cursor);
      if done {
        return;
      }
      parent, cursor := node, next;
    }
  }

  // ---------------------------------------------------------------- the parsers agree

  /** Both resolvers see the same node under a path. */
  lemma ParentAgrees(tree: Tree, path: string)
    ensures FindParent(tree, path).Some? ==>
      Find(tree, path) == tree.find(FindParent(tree, path).value.0, FindParent(tree, path).value.1)
    ensures Find(tree, path).Some? && Strict(path).value != [] ==> FindParent(tree, path).Some?
  {
    if tree.root.Some? && Strict(path).Some? && Strict(path).value != [] {
      FollowLast(tree, tree.root.value, Strict(path).value);
    }
  }

  lemma {:induction false} FollowLast(tree: Tree, node: nat, comps: seq<string>)
    requires comps != []
    ensures var last := |comps| - 1;
            match FollowAll(tree, node, comps[..last])
            case None => Follow(tree, node, comps) == None
            case Some(d) => Follow(tree, node, comps) == tree.find(d, comps[last])
    decreases comps
  {
    var last := |comps| - 1;
    if last > 0 {
      assert comps[..last][1..] == comps[1..][..last - 1];
      match tree.find(node, comps[0])
      case None =>
      case Some(n) => FollowLast(tree, n, comps[1..]);
    }
  }

  /** The strict parser accepts a rendered path, and finds its components. */
  lemma {:induction false} ComponentsOf(c: string, rest: seq<string>)
    requires AllNames([c] + rest) && forall i :: 0 <= i < |rest| ==> |rest[i]| < MAX_NAME
    requires |c| < MAX_NAME
    ensures Components(c + Render(rest)) == Some([c] + rest)
    decreases |rest|
  {
    FirstName(c, rest);
    if rest == [] {
      OneComponent(c);
      assert c + Render(rest) == c;
    } else {
      var tail := rest[1..];
      assert [rest[0]] + tail == rest;
      FirstName(rest[0], tail);
      ComponentsOf(rest[0], tail);
      RenderHead(rest);
      MoreComponents(c, rest[0] + Render(tail), rest);
    }
  }

  lemma OneComponent(c: string)
    requires IsName(c) && |c| < MAX_NAME
    ensures Components(c) == Some([c] + [])
  {
    WordOf(c, "");
    assert c + "" == c && c[..|c|] == c;
    ComponentsWord(c, |c|);
  }

  lemma MoreComponents(c: string, t: string, rest: seq<string>)
    requires IsName(c) && |c| < MAX_NAME && t != "" && t[0] != '/' && Components(t) == Some(rest)
    ensures Components(c + ("/" + t)) == Some([c] + rest)
  {
    AfterSlash(c, t);
    WordOf(c, "/" + t);
    ComponentsWord(c + ("/" + t), |c|);
  }

  lemma AfterSlash(c: string, t: string)
    ensures var s := c + ("/" + t);
            |s| == |c| + 1 + |t| && s[..|c|] == c && s[|c|] == '/' && s[|c| + 1..] == t
  {
  }

  lemma FirstName(c: string, rest: seq<string>)
    requires AllNames([c] + rest)
    ensures IsName(c) && AllNames(rest) && c[0] != '/'
  {
    assert ([c] + rest)[0] == c;
    assert forall i :: 0 <= i < |rest| ==> rest[i] == ([c] + rest)[i + 1];
    assert c[0] in c;
  }

  lemma {:induction false} RenderHead(stack: seq<string>)
    requires stack != []
    ensures Render(stack) == "/" + (stack[0] + Render(stack[1..]))
    decreases |stack|
  {
    if |stack| == 1 {
      assert stack[..0] == [] && stack[1..] == [];
      assert "" + "/" + stack[0] == "/" + (stack[0] + "");
    } else {
      var n := |stack| - 1;
      var x, last := Render(stack[..n][1..]), stack[n];
      RenderHead(stack[..n]);
      assert stack[1..][..n - 1] == stack[..n][1..];
      assert Render(stack[1..]) == x + "/" + last;
      Regroup(stack[0], x, last);
    }
  }

  lemma Regroup(c: string, x: string, last: string)
    ensures "/" + (c + x) + "/" + last == "/" + (c + (x + "/" + last))
  {
  }

  lemma {:induction false} ShortComponents(stack: seq<string>, i: nat)
    requires i < |stack|
    ensures |stack[i]| < |Render(stack)|
    decreases |stack|
  {
    if i < |stack| - 1 {
      ShortComponents(stack[..|stack| - 1], i);
    }
  }

  /** Whatever the normaliser returns, the strict resolver reads as the same components. */
  lemma StrictAcceptsShown(stack: seq<string>)
    requires AllNames(stack) && |Render(stack)| + 1 < MAX_PATH
    ensures Strict(Shown(stack)) == Some(stack)
  {
    if stack == [] {
      assert "/"[1..] == "";
    } else {
      RenderHead(stack);
      RenderComponents(stack);
      StrictAbsolute(stack[0] + Render(stack[1..]));
    }
  }

  lemma StrictAbsolute(s: string)
    requires s != "" && 1 + |s| < MAX_PATH
    ensures Strict("/" + s) == Components(s)
  {
    assert ("/" + s)[1..] == s;
  }

  lemma RenderComponents(stack: seq<string>)
    requires stack != [] && AllNames(stack) && |Render(stack)| < MAX_PATH
    ensures Components(stack[0] + Render(stack[1..])) == Some(stack) && IsName(stack[0])
  {
    forall i | 0 <= i < |stack|
      ensures |stack[i]| < MAX_NAME
    {
      ShortComponents(stack, i);
    }
    assert [stack[0]] + stack[1..] == stack;
    ComponentsOf(stack[0], stack[1..]);
  }

  /** So what is found under the normal form of a path is what the names left of it lead to. */
  lemma NormaliserAgrees(tree: Tree, cwd: string, path: string)
    requires Resolve(cwd, path).Some? && tree.root.Some?
    ensures Find(tree, Resolve(cwd, path).value) == Follow(tree, tree.root.value, Walked([], Sources(cwd, path)))
  {
    ResolvedNames(cwd, path);
    StrictAcceptsShown(Walked([], Sources(cwd, path)));
  }

  /** The strict parser's components are those of the path, and names. */
  lemma {:induction false} StrictIsSplit(s: string)
    requires Components(s).Some?
    ensures Split(s) == Components(s).value && AllNames(Components(s).value)
    decreases |s|
  {
    var k := Word(s);
    assert s[0] != '/';
    if k < |s| {
      StrictIsSplit(s[k + 1..]);
      assert s[k..][1..] == s[k + 1..];
    } else {
      assert s[..k] == s && s[k..] == "";
    }
  }

  /** A path the strict resolver accepts has a normal form that it resolves to the same node, exactly
      if that is short enough; the normaliser stops one or two characters earlier. */
  lemma StrictAgrees(tree: Tree, path: string)
    requires Strict(path).Some?
    ensures var comps := Strict(path).value;
            && (Resolve("/", path).Some? <==> |Render(comps)| + 1 < MAX_PATH)
            && (Resolve("/", path).Some? ==> Find(tree, Resolve("/", path).value) == Find(tree, path))
  {
    var comps := Strict(path).value;
    StrictSources(path);
    NamesWalk([], comps);
    assert [] + comps == comps;
    StrictHasNoDouble(path);
    if |Render(comps)| + 1 < MAX_PATH {
      NamesFit([], comps);
      StrictAcceptsShown(comps);
    }
  }

  /** A path of 127 characters that the strict resolver accepts and the normaliser refuses. */
  lemma LongPath(c: string)
    requires |c| == 126 && forall i :: 0 <= i < |c| ==> c[i] == 'a'
    ensures |"/" + c| == 127 && Strict("/" + c) == Some([c]) && Resolve("/", "/" + c).None?
  {
    var path := "/" + c;
    assert path[1..] == c && '/' !in c;
    WordOf(c, "");
    assert c + "" == c && c[..|c|] == c;
    assert c[0] == 'a';
    StrictAgrees(Tree(None, (_, _) => None, _ => false), path);
    assert [c][..0] == [] && Render([c]) == "" + "/" + c;
  }

  lemma StrictSources(path: string)
    requires Strict(path).Some?
    ensures Sources("/", path) == Strict(path).value && AllNames(Strict(path).value)
  {
    var s := if Absolute(path) then path[1..] else path;
    if s != "" {
      StrictIsSplit(s);
    }
    assert "/"[1..] == "" && Split("/") == [];
    assert [] + Split(path) == Split(path);
  }

  lemma {:induction false} ComponentsHaveNoDouble(s: string, i: nat)
    requires Components(s).Some? && i + 1 < |s|
    ensures !(s[i] == '/' && s[i + 1] == '/') && s[0] != '/'
    decreases |s|
  {
    var k := Word(s);
    if i < k {
      assert s[i] == s[..k][i];
    } else if i > k {
      ComponentsHaveNoDouble(s[k + 1..], i - k - 1);
    }
  }

  lemma StrictHasNoDouble(path: string)
    requires Strict(path).Some?
    ensures !HasDouble(path)
  {
    var d := if Absolute(path) then 1 else 0;
    var s := path[d..];
    assert path[0..] == path;
    forall i | 0 <= i < |path| - 1
      ensures !(path[i] == '/' && path[i + 1] == '/')
    {
      if i >= d {
        ComponentsHaveNoDouble(s, i - d);
      } else {
        FirstIsNoSlash(s);
      }
    }
  }

  lemma FirstIsNoSlash(s: string)
    requires s != "" && Components(s).Some?
    ensures s[0] != '/'
  {
  }
}
