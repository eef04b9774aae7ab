/**
 * Node's POSIX `path.resolve` and `path.basename`, on strings.  `process.cwd()`,
 * which `resolve` falls back on when no argument is absolute, is a parameter
 * and is taken as rooted, as Node always reports it.
 */
module PosixPath {
  import opened JsString

  predicate IsAbsolute(p: string) {
    |p| > 0 && p[0] == '/'
  }

  /** A path component that survives normalisation unchanged. */
  predicate IsPlainSegment(c: string) {
    c != "" && c != "." && c != ".." && '/' !in c
  }

  predicate AllPlain(cs: seq<string>) {
    forall i :: 0 <= i < |cs| ==> IsPlainSegment(cs[i])
  }

  /** The absolute path with components `cs`; the root itself when `cs` is empty. */
  function Rooted(cs: seq<string>): string {
    "/" + Join(cs, '/')
  }

  /** One component of a rooted path: `""` and `"."` do nothing, `".."` leaves a directory (and stays at the root). */
  function Step(stack: seq<string>, c: string): seq<string> {
    if c == "" || c == "." then stack
    else if c == ".." then (if |stack| > 0 then stack[..|stack| - 1] else stack)
    else stack + [c]
  }

  function Normalize(stack: seq<string>, comps: seq<string>): seq<string>
    decreases |comps|
  {
    if comps == [] then stack else Normalize(Step(stack, comps[0]), comps[1..])
  }

  /**
   * The components `resolve(segs...)` ends up with: `process.cwd()` first,
   * then each argument from left to right, an absolute one starting afresh
   * from the root.  Node scans from the right and stops at the first absolute
   * argument, which keeps the same components.
   */
  function Components(processCwd: string, segs: seq<string>): (r: seq<string>)
    // every component kept is a plain name: no empty, `.` or `..` part survives
    ensures AllPlain(r)
    decreases |segs|
  {
    if segs == [] then
      NormalizeKeepsPlain([], Split(processCwd, '/'));
      Normalize([], Split(processCwd, '/'))
    else
      var last := segs[|segs| - 1];
      var stack := if IsAbsolute(last) then [] else Components(processCwd, segs[..|segs| - 1]);
      NormalizeKeepsPlain(stack, Split(last, '/'));
      Normalize(stack, Split(last, '/'))
  }

  /** `path.resolve(...segs)`: always a normalised absolute path. */
  function Resolve(processCwd: string, segs: seq<string>): (r: string)
    ensures IsAbsolute(r)
  {
    Rooted(Components(processCwd, segs))
  }

  function StripTrailingSlashes(p: string): (r: string)
    ensures |r| <= |p| && r == p[..|r|]
    ensures forall i :: |r| <= i < |p| ==> p[i] == '/'
    ensures r == [] || r[|r| - 1] != '/'
  {
    if |p| > 0 && p[|p| - 1] == '/' then StripTrailingSlashes(p[..|p| - 1]) else p
  }

  /** `path.basename(p)`: trailing slashes ignored, then the text after the last slash. */
  function Basename(p: string): (r: string)
    ensures '/' !in r
    // the end of the path without its trailing slashes, starting just after a slash or at the start
    ensures var q := StripTrailingSlashes(p);
      |r| <= |q| && r == q[|q| - |r|..] && (|r| == |q| || q[|q| - |r| - 1] == '/')
  {
    var q := StripTrailingSlashes(p);
    q[LastIndexOf(q, '/') + 1..]
  }

  /** The path of entry `name` in directory `dir`, as `resolve(dir, name)` writes it. */
  function ChildPath(dir: string, name: string): string {
    if dir == "/" then "/" + name else dir + "/" + name
  }

  lemma {:induction false} NormalizePlain(stack: seq<string>, comps: seq<string>)
    requires AllPlain(comps)
    ensures Normalize(stack, comps) == stack + comps
    decreases |comps|
  {
    if comps != [] {
      NormalizePlain(stack + [comps[0]], comps[1..]);
      assert stack + [comps[0]] + comps[1..] == stack + comps;
    }
  }

  lemma {:induction false} NormalizeKeepsPlain(stack: seq<string>, comps: seq<string>)
    requires AllPlain(stack)
    requires forall i :: 0 <= i < |comps| ==> '/' !in comps[i]
    ensures AllPlain(Normalize(stack, comps))
    decreases |comps|
  {
    if comps != [] {
      NormalizeKeepsPlain(Step(stack, comps[0]), comps[1..]);
    }
  }

  /** A rooted path of plain components splits back into exactly those components. */
  lemma RootedComponents(cs: seq<string>)
    requires AllPlain(cs)
    ensures Normalize([], Split(Rooted(cs), '/')) == cs
  {
    var p := Rooted(cs);
    assert p[0] == '/' && p[1..] == Join(cs, '/');
    if cs == [] {
      assert Split(p, '/') == ["", ""];
      assert Normalize([], ["", ""]) == Normalize([], [""]) == Normalize([], []);
    } else {
      SplitJoin(cs, '/');
      assert Split(p, '/') == [""] + cs;
      NormalizePlain([], cs);
    }
  }

  /** The result of `resolve` is the root followed by plain names. */
  lemma ResolveNormalized(processCwd: string, segs: seq<string>)
    ensures var r := Resolve(processCwd, segs);
      exists cs :: AllPlain(cs) && r == Rooted(cs)
  {
    var cs := Components(processCwd, segs);
    assert AllPlain(cs) && Resolve(processCwd, segs) == Rooted(cs);
  }

  /** Different plain component lists give different rooted paths. */
  lemma RootedInjective(cs: seq<string>, ds: seq<string>)
    requires AllPlain(cs) && AllPlain(ds)
    ensures Rooted(cs) == Rooted(ds) <==> cs == ds
  {
    RootedComponents(cs);
    RootedComponents(ds);
  }

  lemma ResolveRooted(processCwd: string, cs: seq<string>)
    requires AllPlain(cs)
    ensures Resolve(processCwd, [Rooted(cs)]) == Rooted(cs)
  {
    RootedComponents(cs);
    assert [Rooted(cs)][..0] == [];
  }

  /** Resolving is idempotent. */
  lemma ResolveIdempotent(processCwd: string, segs: seq<string>)
    ensures Resolve(processCwd, [Resolve(processCwd, segs)]) == Resolve(processCwd, segs)
  {
    ResolveRooted(processCwd, Components(processCwd, segs));
  }

  /** A `"."` argument changes nothing. */
  lemma ResolveDot(processCwd: string, segs: seq<string>)
    ensures Resolve(processCwd, segs + ["."]) == Resolve(processCwd, segs)
  {
    ComponentsDot(processCwd, segs);
  }

  /** A `".."` argument leaves the last directory, and stays at the root. */
  lemma ResolveParent(processCwd: string, segs: seq<string>)
    ensures var cs := Components(processCwd, segs);
      Components(processCwd, segs + [".."]) == if cs == [] then [] else cs[..|cs| - 1]
  {
    var cs := Components(processCwd, segs);
    SplitNoSeparator("..", '/');
    ComponentsLast(processCwd, segs, "..");
    assert Normalize(cs, [".."]) == Normalize(Step(cs, ".."), []);
  }

  /** A zero-length argument is skipped. */
  lemma ResolveEmpty(processCwd: string, segs: seq<string>)
    ensures Components(processCwd, segs + [""]) == Components(processCwd, segs)
  {
    var cs := Components(processCwd, segs);
    assert Split("", '/') == [""];
    ComponentsLast(processCwd, segs, "");
    assert Normalize(cs, [""]) == Normalize(Step(cs, ""), []);
  }

  /** Without an absolute argument, `resolve` starts from `process.cwd()`. */
  lemma {:induction false} ResolveFromCwd(processCwd: string, segs: seq<string>)
    requires IsAbsolute(processCwd)
    requires forall i :: 0 <= i < |segs| ==> !IsAbsolute(segs[i])
    ensures Components(processCwd, segs) == Components(processCwd, [processCwd] + segs)
    decreases |segs|
  {
    if segs == [] {
      ComponentsLast(processCwd, [], processCwd);
      assert [processCwd] + segs == [] + [processCwd];
    } else {
      var n := |segs| - 1;
      ResolveFromCwd(processCwd, segs[..n]);
      assert segs == segs[..n] + [segs[n]];
      assert [processCwd] + segs == ([processCwd] + segs[..n]) + [segs[n]];
      ComponentsLast(processCwd, segs[..n], segs[n]);
      ComponentsLast(processCwd, [processCwd] + segs[..n], segs[n]);
    }
  }

  lemma {:induction false} JoinPlainNonEmpty(cs: seq<string>)
    requires |cs| >= 1 && AllPlain(cs)
    ensures Join(cs, '/') != ""
  {
    if |cs| > 1 {
      assert Join(cs, '/') == cs[0] + ['/'] + Join(cs[1..], '/');
    }
  }

  /** The child path of a rooted directory is the rooted path one component longer. */
  lemma ChildOfRooted(cs: seq<string>, name: string)
    requires AllPlain(cs) && IsPlainSegment(name)
    ensures ChildPath(Rooted(cs), name) == Rooted(cs + [name])
  {
    if cs == [] {
      assert [] + [name] == [name];
    } else {
      JoinPlainNonEmpty(cs);
      JoinAppend(cs, name, '/');
      assert Rooted(cs) != "/";
      assert Rooted(cs) + "/" + name == "/" + (Join(cs, '/') + ['/'] + name);
    }
  }

  /** A trailing plain-name argument names an entry of the directory the other arguments resolve to. */
  lemma ResolveChild(processCwd: string, segs: seq<string>, name: string)
    requires IsPlainSegment(name)
    ensures Resolve(processCwd, segs + [name]) == ChildPath(Resolve(processCwd, segs), name)
  {
    var cs := Components(processCwd, segs);
    SplitNoSeparator(name, '/');
    assert (segs + [name])[..|segs|] == segs;
    assert Components(processCwd, segs + [name]) == Normalize(cs, [name]);
    NormalizePlain(cs, [name]);
    ChildOfRooted(cs, name);
  }

  /** The last argument acts on the components of the ones before it, or on the root when it is absolute. */
  lemma ComponentsLast(processCwd: string, segs: seq<string>, last: string)
    ensures Components(processCwd, segs + [last]) ==
            Normalize(if IsAbsolute(last) then [] else Components(processCwd, segs), Split(last, '/'))
  {
    assert (segs + [last])[..|segs|] == segs;
  }

  /** An absolute argument overrides everything before it. */
  lemma {:induction false} ResolveAbsoluteOverrides(processCwd: string, before: seq<string>, abs: string, after: seq<string>)
    requires IsAbsolute(abs)
    ensures Components(processCwd, before + [abs] + after) == Components(processCwd, [abs] + after)
    ensures Resolve(processCwd, before + [abs] + after) == Resolve(processCwd, [abs] + after)
    decreases |after|
  {
    if after == [] {
      assert before + [abs] + after == before + [abs];
      assert [abs] + after == [] + [abs];
      ComponentsLast(processCwd, before, abs);
      ComponentsLast(processCwd, [], abs);
    } else {
      var n := |after| - 1;
      ResolveAbsoluteOverrides(processCwd, before, abs, after[..n]);
      assert before + [abs] + after == (before + [abs] + after[..n]) + [after[n]];
      assert [abs] + after == ([abs] + after[..n]) + [after[n]];
      ComponentsLast(processCwd, before + [abs] + after[..n], after[n]);
      ComponentsLast(processCwd, [abs] + after[..n], after[n]);
    }
  }

  /** The base name of a child path is the child's name. */
  lemma BasenameOfChild(dir: string, name: string)
    requires IsPlainSegment(name)
    ensures Basename(ChildPath(dir, name)) == name
  {
    var p := ChildPath(dir, name);
    var pre := if dir == "/" then "" else dir;
    assert p == pre + ['/'] + name;
    assert StripTrailingSlashes(p) == p;
    var k := LastIndexOf(p, '/');
    assert p[|pre|] == '/';
    assert p[|pre| + 1..] == name;
    assert k == |pre|;
  }

  /** The last component of a normalised path is its base name. */
  lemma BasenameOfRooted(cs: seq<string>, name: string)
    requires AllPlain(cs) && IsPlainSegment(name)
    ensures Basename(Rooted(cs + [name])) == name
  {
    ChildOfRooted(cs, name);
    BasenameOfChild(Rooted(cs), name);
  }

  lemma ComponentsRooted(processCwd: string, cs: seq<string>)
    requires AllPlain(cs)
    ensures Components(processCwd, [Rooted(cs)]) == cs
  {
    RootedComponents(cs);
    assert [Rooted(cs)][..0] == [];
  }

  lemma ComponentsChild(processCwd: string, segs: seq<string>, name: string)
    requires IsPlainSegment(name)
    ensures Components(processCwd, segs + [name]) == Components(processCwd, segs) + [name]
  {
    SplitNoSeparator(name, '/');
    assert (segs + [name])[..|segs|] == segs;
    NormalizePlain(Components(processCwd, segs), [name]);
  }

  lemma ComponentsDot(processCwd: string, segs: seq<string>)
    ensures Components(processCwd, segs + ["."]) == Components(processCwd, segs)
  {
    var segs' := segs + ["."];
    SplitNoSeparator(".", '/');
    assert segs'[..|segs|] == segs && segs'[|segs|] == ".";
    assert Normalize(Components(processCwd, segs), ["."]) == Components(processCwd, segs);
  }

  /** `resolve(dir, '.', name)` for a normalised `dir` and a plain `name` is `dir/name`. */
  lemma ResolveRootedDotChild(processCwd: string, cs: seq<string>, name: string)
    requires AllPlain(cs) && IsPlainSegment(name)
    ensures Resolve(processCwd, [Rooted(cs), ".", name]) == Rooted(cs + [name])
  {
    ComponentsRooted(processCwd, cs);
    ComponentsDot(processCwd, [Rooted(cs)]);
    assert [Rooted(cs)] + ["."] == [Rooted(cs), "."];
    ComponentsChild(processCwd, [Rooted(cs), "."], name);
    assert [Rooted(cs), "."] + [name] == [Rooted(cs), ".", name];
  }

  /** `resolve(dir, a)` for a normalised `dir` and a plain `a` is `dir/a`. */
  lemma ResolveRootedChild(processCwd: string, cs: seq<string>, a: string)
    requires AllPlain(cs) && IsPlainSegment(a)
    ensures Resolve(processCwd, [Rooted(cs), a]) == Rooted(cs + [a])
  {
    ComponentsRooted(processCwd, cs);
    ComponentsChild(processCwd, [Rooted(cs)], a);
    assert [Rooted(cs)] + [a] == [Rooted(cs), a];
  }

  /** `resolve(dir, a, b)` for a normalised `dir` and plain `a`, `b` is `dir/a/b`. */
  lemma ResolveRootedChildren(processCwd: string, cs: seq<string>, a: string, b: string)
    requires AllPlain(cs) && IsPlainSegment(a) && IsPlainSegment(b)
    ensures Resolve(processCwd, [Rooted(cs), a, b]) == Rooted(cs + [a, b])
  {
    ComponentsRooted(processCwd, cs);
    ComponentsChild(processCwd, [Rooted(cs)], a);
    assert [Rooted(cs)] + [a] == [Rooted(cs), a];
    ComponentsChild(processCwd, [Rooted(cs), a], b);
    assert [Rooted(cs), a] + [b] == [Rooted(cs), a, b];
    assert cs + [a] + [b] == cs + [a, b];
  }
}
