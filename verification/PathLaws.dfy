/** What resolving a path means, one component at a time and in characters (fs.c): a name goes down, ".."
    goes up and undoes it, "." stays, and the strict resolver finds the end of a chain of lookups. */
module PathLaws {
  import opened Common
  import opened Paths

  /** The path of entry c of directory p. */
  function Under(p: string, c: string): string
  {
    if p == "/" then "/" + c else p + "/" + c
  }

  /** What was resolved are names, rendered. */
  lemma ResolvedStack(cwd: string, path: string) returns (stack: seq<string>)
    requires Resolve(cwd, path).Some?
    ensures AllNames(stack) && |Render(stack)| + 1 < MAX_PATH && Resolve(cwd, path).value == Shown(stack)
  {
    ResolvedNames(cwd, path);
    stack := Walked([], Sources(cwd, path));
  }

  lemma UnderShown(stack: seq<string>, c: string)
    requires AllNames(stack)
    ensures Under(Shown(stack), c) == Render(stack + [c]) && (Shown(stack) == "/" <==> stack == [])
  {
    assert (stack + [c])[..|stack|] == stack;
    if stack != [] {
      LastIsNoSlash(stack);
      RenderEmpty(stack);
    }
  }

  /** A single component in a directory given by its names. */
  lemma OneComponentMore(stack: seq<string>, c: string)
    requires AllNames(stack) && |Render(stack)| + 1 < MAX_PATH && c != "" && '/' !in c
    ensures !HasDouble(c) && Sources(Shown(stack), c) == stack + [c]
    ensures Walked([], stack + [c]) == Walked(stack, [c])
    ensures Fits([], stack + [c]) <==> Fits(stack, [c])
  {
    SplitName(c, "");
    assert c + "" == c && Split("") == [];
    assert c[0] in c;
    SplitShown(stack);
    NamesWalk([], stack);
    assert [] + stack == stack;
    NamesFit([], stack);
    WalkedConcat([], stack, [c]);
    FitsConcat([], stack, [c]);
  }

  /** A name goes down to the entry of that name, if the path is not too long. */
  lemma EnterLaw(cwd: string, path: string, c: string)
    requires Resolve(cwd, path).Some? && IsName(c)
    ensures var q := Under(Resolve(cwd, path).value, c);
            Resolve(cwd, Join(path, c)) == if |q| + 1 < MAX_PATH then Some(q) else None
  {
    var stack := ResolvedStack(cwd, path);
    ResolveComposes(cwd, path, c);
    OneComponentMore(stack, c);
    UnderShown(stack, c);
    assert [c][1..] == [];
  }

  /** "." stays. */
  lemma DotLaw(cwd: string, path: string)
    requires Resolve(cwd, path).Some?
    ensures Resolve(cwd, Join(path, ".")) == Resolve(cwd, path)
  {
    var stack := ResolvedStack(cwd, path);
    ResolveComposes(cwd, path, ".");
    OneComponentMore(stack, ".");
    assert ["."][1..] == [];
  }

  /** ".." goes to the directory that this is an entry of, and stays at the root. */
  lemma UpLaw(cwd: string, path: string)
    requires Resolve(cwd, path).Some?
    ensures var p, up := Resolve(cwd, path).value, Resolve(cwd, Join(path, ".."));
            && up.Some?
            && (p == "/" ==> up.value == "/")
            && (p != "/" ==> exists c :: IsName(c) && p == Under(up.value, c))
  {
    var stack := ResolvedStack(cwd, path);
    ResolveComposes(cwd, path, "..");
    OneComponentMore(stack, "..");
    assert [".."][1..] == [];
    UnderShown(stack, "");
    if stack != [] {
      LastIsUnder(stack);
    }
  }

  /** The path of a list of names is the last one under the path of the others. */
  lemma LastIsUnder(stack: seq<string>)
    requires AllNames(stack) && stack != []
    ensures var n := |stack| - 1;
            && IsName(stack[n]) && Shown(stack) == Under(Shown(stack[..n]), stack[n])
            && |Render(stack[..n])| <= |Render(stack)|
  {
    var n := |stack| - 1;
    RenderGrows(stack[..n], [stack[n]]);
    assert stack[..n] + [stack[n]] == stack;
    UnderShown(stack[..n], stack[n]);
  }

  /** The entry of a directory determines both, so going down and up again leads back. */
  lemma UnderIsOneToOne(a: seq<string>, c: string, b: seq<string>, d: string)
    requires AllNames(a) && AllNames(b) && IsName(c) && IsName(d) && Under(Shown(a), c) == Under(Shown(b), d)
    ensures a == b && c == d
  {
    UnderShown(a, c);
    UnderShown(b, d);
    SplitShown(a + [c]);
    SplitShown(b + [d]);
    assert a == (a + [c])[..|a|] && c == (a + [c])[|a|] && |a| == |b|;
  }

  lemma UpUndoes(cwd: string, path: string, c: string)
    requires IsName(c) && Resolve(cwd, path).Some? && Resolve(cwd, Join(path, c)).Some?
    ensures Resolve(cwd, Join(Join(path, c), "..")) == Resolve(cwd, path)
  {
    var stack := ResolvedStack(cwd, path);
    var down := ResolvedStack(cwd, Join(path, c));
    EnterLaw(cwd, path, c);
    UpLaw(cwd, Join(path, c));
    var up := ResolvedStack(cwd, Join(Join(path, c), ".."));
    UnderShown(stack, c);
    RenderStartsDeep(stack + [c]);
    var d :| IsName(d) && Resolve(cwd, Join(path, c)).value == Under(Shown(up), d);
    UnderIsOneToOne(stack, c, up, d);
  }

  lemma RenderStartsDeep(stack: seq<string>)
    requires stack != [] && AllNames(stack)
    ensures Render(stack) != "/"
  {
    LastIsNoSlash(stack);
  }

  /** In the form of one string: path, a name and "..". */
  lemma UpUndoesText(cwd: string, path: string, c: string)
    requires path != "" && path[|path| - 1] != '/' && IsName(c)
    requires Resolve(cwd, path).Some? && Resolve(cwd, path + "/" + c).Some?
    ensures Resolve(cwd, path + "/" + c + "/..") == Resolve(cwd, path)
  {
    assert c[0] in c && c[|c| - 1] in c;
    assert Join(path, c) == path + "/" + c;
    assert (path + "/" + c)[|path + "/" + c| - 1] == c[|c| - 1];
    assert Join(path + "/" + c, "..") == path + "/" + c + "/..";
    UpUndoes(cwd, path, c);
  }

  /** A path that starts at the root does not depend on the directory. */
  lemma AbsoluteLaw(cwd: string, cwd': string, path: string)
    requires Absolute(path)
    ensures Resolve(cwd, path) == Resolve(cwd', path) && Resolve(cwd, "/") == Some("/")
  {
    NamesResolve(cwd, []);
  }

  /** An empty component is refused. */
  lemma DoubleLaw(cwd: string, a: string, b: string)
    ensures Resolve(cwd, a + "//" + b) == None
  {
    var s := a + "//" + b;
    assert s[|a|] == '/' && s[|a| + 1] == '/';
  }

  // ---------------------------------------------------------------- the strict resolvers

  /** The nodes on the way along the components; all between the first and the last are directories. */
  ghost predicate Leads(tree: Tree, node: nat, comps: seq<string>, nodes: seq<nat>)
  {
    && |nodes| == |comps| + 1 && nodes[0] == node
    && (forall k :: 0 <= k < |comps| ==> tree.find(nodes[k], comps[k]) == Some(nodes[k + 1]))
    && (forall k :: 0 < k < |comps| ==> tree.isDirectory(nodes[k]))
  }

  /** resolve_fs finds a node exactly if such a way leads there. */
  lemma {:induction false} FollowIff(tree: Tree, node: nat, comps: seq<string>, n: nat)
    ensures Follow(tree, node, comps) == Some(n) <==>
            exists nodes :: Leads(tree, node, comps, nodes) && nodes[|comps|] == n
    decreases comps
  {
    if comps == [] {
      assert Leads(tree, node, comps, [node]);
    } else {
      if Follow(tree, node, comps) == Some(n) {
        var next := tree.find(node, comps[0]).value;
        FollowIff(tree, next, comps[1..], n);
        var rest :| Leads(tree, next, comps[1..], rest) && rest[|comps[1..]|] == n;
        LeadsOn(tree, node, comps, rest);
      }
      forall nodes | Leads(tree, node, comps, nodes) && nodes[|comps|] == n
        ensures Follow(tree, node, comps) == Some(n)
      {
        LeadsBack(tree, node, comps, nodes);
        FollowIff(tree, nodes[1], comps[1..], n);
        assert nodes[1..][|comps[1..]|] == n;
      }
    }
  }

  lemma LeadsOn(tree: Tree, node: nat, comps: seq<string>, rest: seq<nat>)
    requires comps != [] && |rest| > 0 && tree.find(node, comps[0]) == Some(rest[0]) &&
             Leads(tree, rest[0], comps[1..], rest)
    requires |comps| > 1 ==> tree.isDirectory(rest[0])
    ensures Leads(tree, node, comps, [node] + rest) && ([node] + rest)[|comps|] == rest[|comps| - 1]
  {
    var nodes := [node] + rest;
    forall k | 0 <= k < |comps|
      ensures tree.find(nodes[k], comps[k]) == Some(nodes[k + 1]) && (k > 0 ==> tree.isDirectory(nodes[k]))
    {
      if k > 0 {
        assert comps[k] == comps[1..][k - 1] && nodes[k] == rest[k - 1];
      }
    }
  }

  lemma LeadsBack(tree: Tree, node: nat, comps: seq<string>, nodes: seq<nat>)
    requires comps != [] && Leads(tree, node, comps, nodes)
    ensures Leads(tree, nodes[1], comps[1..], nodes[1..]) && tree.find(node, comps[0]) == Some(nodes[1])
    ensures |comps| > 1 ==> tree.isDirectory(nodes[1])
  {
    forall k | 0 <= k < |comps[1..]|
      ensures tree.find(nodes[1..][k], comps[1..][k]) == Some(nodes[1..][k + 1])
    {
      assert tree.find(nodes[k + 1], comps[k + 1]) == Some(nodes[k + 2]);
    }
  }

  /** resolve_parent_fs follows directories only. */
  lemma {:induction false} FollowAllIff(tree: Tree, node: nat, comps: seq<string>, n: nat)
    ensures FollowAll(tree, node, comps) == Some(n) <==>
            Follow(tree, node, comps) == Some(n) && (comps == [] || tree.isDirectory(n))
    decreases comps
  {
    if comps != [] && tree.find(node, comps[0]).Some? {
      FollowAllIff(tree, tree.find(node, comps[0]).value, comps[1..], n);
    }
  }

  /** Components with single slashes between them. */
  function Slashed(comps: seq<string>): string
    requires comps != []
  {
    if |comps| == 1 then comps[0] else comps[0] + "/" + Slashed(comps[1..])
  }

  predicate AllGood(comps: seq<string>)
  {
    forall i :: 0 <= i < |comps| ==>
      0 < |comps[i]| < MAX_NAME && comps[i] != "." && comps[i] != ".." && '/' !in comps[i]
  }

  lemma SlashedStart(comps: seq<string>)
    requires comps != [] && AllGood(comps)
    ensures Slashed(comps) != "" && Slashed(comps)[0] != '/'
  {
    assert comps[0][0] in comps[0];
    assert Slashed(comps)[0] == comps[0][0];
  }

  /** Components separates exactly the texts made in that way. */
  lemma {:induction false} ComponentsIff(s: string, comps: seq<string>)
    ensures Components(s) == Some(comps) <==> comps != [] && AllGood(comps) && s == Slashed(comps)
    decreases |s|
  {
    var k := Word(s);
    if Components(s) == Some(comps) {
      ComponentsAreSlashed(s, comps);
    }
    if comps != [] && AllGood(comps) && s == Slashed(comps) {
      SlashedHasComponents(comps);
    }
  }

  lemma {:induction false} ComponentsAreSlashed(s: string, comps: seq<string>)
    requires Components(s) == Some(comps)
    ensures comps != [] && AllGood(comps) && s == Slashed(comps)
    decreases |s|
  {
    var k := Word(s);
    if k == |s| {
      assert s[..k] == s;
    } else {
      ComponentsAreSlashed(s[k + 1..], comps[1..]);
      assert comps == [s[..k]] + comps[1..];
      assert s == s[..k] + "/" + s[k + 1..];
    }
  }

  lemma {:induction false} SlashedHasComponents(comps: seq<string>)
    requires comps != [] && AllGood(comps)
    ensures Components(Slashed(comps)) == Some(comps)
    decreases |comps|
  {
    var c := comps[0];
    if |comps| == 1 {
      WordOf(c, "");
      assert c + "" == c && comps == [c];
    } else {
      var rest := Slashed(comps[1..]);
      SlashedHasComponents(comps[1..]);
      SlashedStart(comps[1..]);
      FirstComponent(c, rest, comps);
    }
  }

  lemma FirstComponent(c: string, rest: string, comps: seq<string>)
    requires |comps| > 1 && c == comps[0] && Good(c) && '/' !in c && rest != "" && rest[0] != '/'
    requires Components(rest) == Some(comps[1..])
    ensures Components(c + "/" + rest) == Some(comps)
  {
    var s := c + "/" + rest;
    assert s == c + ("/" + rest);
    WordOf(c, "/" + rest);
    assert s[..|c|] == c && s[|c| + 1..] == rest;
    assert comps == [c] + comps[1..];
  }

  /** The strict resolvers take exactly the paths that are short enough and consist of good components with
      single slashes between them, with or without one in front, and the root. */
  lemma StrictIff(path: string, comps: seq<string>)
    ensures Strict(path) == Some(comps) <==>
            && |path| < MAX_PATH && AllGood(comps)
            && (if comps == [] then path == "" || path == "/"
                else path == Slashed(comps) || path == "/" + Slashed(comps))
  {
    var s := if Absolute(path) then path[1..] else path;
    ComponentsIff(s, comps);
    assert Absolute(path) ==> path == "/" + s;
    if comps != [] && AllGood(comps) {
      SlashedStart(comps);
      assert ("/" + Slashed(comps))[1..] == Slashed(comps);
    }
  }
}
