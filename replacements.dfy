/**
 * recursiveDeps and makeReplacements: the replacement map for one request, seeded with the
 * requested module and extended with every dependency whose require line is marked
 * `goclone:recursive`.
 */
module Replacements {
  import opened Wrappers
  import opened GoStrings
  import opened Foreign
  import opened ProxyPath
  import opened PathRewrite

  /** The comment text that marks a dependency for recursive cloning. */
  const RecursiveMarker := "goclone:recursive"

  /** Some trailing comment of the require line contains the marker. */
  predicate Annotated(r: Require) {
    exists i | 0 <= i < |r.suffix| :: Contains(r.suffix[i], RecursiveMarker)
  }

  /** The paths of the annotated requires, in require order, one entry per require. */
  function AnnotatedPaths(reqs: seq<Require>): (deps: seq<string>)
    ensures |deps| <= |reqs|
    ensures forall d :: d in deps <==> exists i | 0 <= i < |reqs| :: reqs[i].path == d && Annotated(reqs[i])
    decreases |reqs|
  {
    if reqs == [] then []
    else
      var init, last := reqs[..|reqs| - 1], reqs[|reqs| - 1];
      assert forall i | 0 <= i < |init| :: init[i] == reqs[i];
      AnnotatedPaths(init) + (if Annotated(last) then [last.path] else [])
  }

  /** Selection keeps order: the dependencies of two runs of requires are those of the first
      run followed by those of the second. */
  lemma {:induction false} AnnotatedPathsConcat(a: seq<Require>, b: seq<Require>)
    ensures AnnotatedPaths(a + b) == AnnotatedPaths(a) + AnnotatedPaths(b)
    decreases |b|
  {
    if b == [] {
      assert a + b == a;
    } else {
      var b' := b[..|b| - 1];
      assert (a + b)[..|a + b| - 1] == a + b';
      AnnotatedPathsConcat(a, b');
    }
  }

  /** recursiveDeps */
  method RecursiveDeps(tc: Toolchain, modData: Bytes) returns (r: Result<seq<string>>)
    ensures tc.parseMod(modData).Err? ==> r == Err(tc.parseMod(modData).error)
    ensures tc.parseMod(modData).Ok? ==> r == Ok(AnnotatedPaths(tc.parseMod(modData).value.require))
  {
    var parsed := tc.parseMod(modData);
    if parsed.Err? {
      return Err(parsed.error);
    }
    var reqs := parsed.value.require;
    var deps: seq<string> := [];
    var i := 0;
    while i < |reqs|
      invariant 0 <= i <= |reqs|
      invariant deps == AnnotatedPaths(reqs[..i])
    {
      var req := reqs[i];
      assert reqs[..i + 1][..i] == reqs[..i];
      var j := 0;
      while j < |req.suffix|
        invariant 0 <= j <= |req.suffix|
        invariant deps == AnnotatedPaths(reqs[..i])
        invariant forall k | 0 <= k < j :: !Contains(req.suffix[k], RecursiveMarker)
      {
        if Contains(req.suffix[j], RecursiveMarker) {
          deps := deps + [req.path];
          break;
        }
        j := j + 1;
      }
      i := i + 1;
    }
    assert reqs[..i] == reqs;
    return Ok(deps);
  }

  /** Where a recursively cloned dependency `d` is published: under the isolation segment `seg`
      of the request when there is one, else directly under the host. */
  function DependencyTarget(host: string, seg: string, d: string): string {
    if seg != "" then host + "/" + seg + "/" + d else host + "/" + d
  }

  /** The map makeReplacements builds from the annotated dependencies `deps`, for a request
      whose isolation segment is `seg`. */
  function ReplacementMap(host: string, seg: string, userPath: string, upstreamPath: string, deps: seq<string>): map<string, string> {
    map k | k in {upstreamPath} + (set d | d in deps) ::
      if k in deps then DependencyTarget(host, seg, k) else host + "/" + userPath
  }

  /** The keys are the requested module and the dependencies. Each dependency goes to its
      target; the requested module goes to `host/userPath` unless it is itself a dependency, in
      which case the later dependency entry wins. */
  lemma ReplacementMapShape(host: string, seg: string, userPath: string, upstreamPath: string, deps: seq<string>)
    ensures var m := ReplacementMap(host, seg, userPath, upstreamPath, deps);
      && m.Keys == {upstreamPath} + (set d | d in deps)
      && (forall d | d in deps :: m[d] == DependencyTarget(host, seg, d))
      && (upstreamPath !in deps ==> m[upstreamPath] == host + "/" + userPath)
  {
  }

  /** One more dependency adds, or overrides, one entry. */
  lemma ReplacementMapStep(host: string, seg: string, userPath: string, upstreamPath: string, deps: seq<string>, i: nat)
    requires i < |deps|
    ensures ReplacementMap(host, seg, userPath, upstreamPath, deps[..i + 1])
         == ReplacementMap(host, seg, userPath, upstreamPath, deps[..i])[deps[i] := DependencyTarget(host, seg, deps[i])]
  {
    var d := deps[i];
    assert deps[..i + 1] == deps[..i] + [d];
    var m1 := ReplacementMap(host, seg, userPath, upstreamPath, deps[..i + 1]);
    var m0 := ReplacementMap(host, seg, userPath, upstreamPath, deps[..i])[d := DependencyTarget(host, seg, d)];
    assert forall k :: k in deps[..i + 1] <==> k in deps[..i] || k == d;
    assert m1.Keys == m0.Keys;
    assert forall k | k in m1 :: m1[k] == m0[k];
  }

  /** What makeReplacements returns. */
  function ReplacementsFor(tc: Toolchain, host: string, userPath: string, upstreamPath: string, modData: Bytes): Result<map<string, string>> {
    match tc.parseMod(modData)
    case Err(e) => Err(e)
    case Ok(f) => Ok(ReplacementMap(host, IsolationSegment(userPath), userPath, upstreamPath, AnnotatedPaths(f.require)))
  }

  /** The `prefix` computation of makeReplacements. */
  method FindIsolationSegment(userPath: string) returns (prefix: string)
    ensures prefix == IsolationSegment(userPath)
  {
    prefix := "";
    if HasPrefix(userPath, "_") {
      var segs := SplitN2(userPath, "/");
      if |segs| == 2 {
        prefix := segs[0];
      }
    }
  }

  /** makeReplacements; the public host is a parameter instead of a global flag. */
  method MakeReplacements(tc: Toolchain, host: string, userPath: string, upstreamPath: string, modData: Bytes)
    returns (r: Result<map<string, string>>)
    ensures r == ReplacementsFor(tc, host, userPath, upstreamPath, modData)
  {
    var repl := map[upstreamPath := host + "/" + userPath];
    var found := RecursiveDeps(tc, modData);
    if found.Err? {
      return Err(found.error);
    }
    var deps := found.value;
    var prefix := FindIsolationSegment(userPath);
    ghost var seg := IsolationSegment(userPath);
    assert repl == ReplacementMap(host, seg, userPath, upstreamPath, deps[..0]) by {
      assert deps[..0] == [];
    }
    var i := 0;
    while i < |deps|
      invariant 0 <= i <= |deps|
      invariant repl == ReplacementMap(host, seg, userPath, upstreamPath, deps[..i])
    {
      var d := deps[i];
      var newPath := host + "/" + d;
      if prefix != "" {
        newPath := host + "/" + prefix + "/" + d;
      }
      ReplacementMapStep(host, seg, userPath, upstreamPath, deps, i);
      repl := repl[d := newPath];
      i := i + 1;
    }
    assert deps[..i] == deps;
    ghost var f := tc.parseMod(modData).value;
    assert deps == AnnotatedPaths(f.require);
    r := Ok(repl);
    assert r == Ok(ReplacementMap(host, seg, userPath, upstreamPath, AnnotatedPaths(f.require)));
  }

  /** Isolation: requests under different isolation segments (or one with and one without)
      publish the same dependency at different paths. */
  lemma IsolatedTargetsDiffer(host: string, seg1: string, seg2: string, d: string)
    requires seg1 != seg2
    ensures DependencyTarget(host, seg1, d) != DependencyTarget(host, seg2, d)
  {
    var t1, t2 := DependencyTarget(host, seg1, d), DependencyTarget(host, seg2, d);
    if seg1 != "" && seg2 != "" && |seg1| == |seg2| {
      var j :| 0 <= j < |seg1| && seg1[j] != seg2[j];
      assert t1[|host| + 1 + j] == seg1[j];
      assert t2[|host| + 1 + j] == seg2[j];
    }
  }

  /** Two clones whose request paths carry different isolation segments never share the
      relocation of a dependency both of them mark as recursive. */
  lemma IsolatedClonesDoNotCollide(host: string, user1: string, up1: string, deps1: seq<string>,
                                   user2: string, up2: string, deps2: seq<string>, d: string)
    requires IsolationSegment(user1) != IsolationSegment(user2)
    requires d in deps1 && d in deps2
    ensures var m1 := ReplacementMap(host, IsolationSegment(user1), user1, up1, deps1);
      var m2 := ReplacementMap(host, IsolationSegment(user2), user2, up2, deps2);
      d in m1 && d in m2 && m1[d] != m2[d]
  {
    IsolatedTargetsDiffer(host, IsolationSegment(user1), IsolationSegment(user2), d);
  }

  /** Paths inside a relocated dependency move with it, when no longer key claims them. */
  lemma DependencyPathsFollow(host: string, seg: string, userPath: string, upstreamPath: string, deps: seq<string>, d: string, sub: string)
    requires d in deps && d != ""
    requires forall k | k == upstreamPath || k in deps :: |k| > |d| ==> !Matches(k, d + "/" + sub, false)
    ensures RewrittenPath(d + "/" + sub, ReplacementMap(host, seg, userPath, upstreamPath, deps))
         == DependencyTarget(host, seg, d) + "/" + sub
  {
    var m := ReplacementMap(host, seg, userPath, upstreamPath, deps);
    ReplacementMapShape(host, seg, userPath, upstreamPath, deps);
    forall k | k in m && |k| > |d|
      ensures !Matches(k, d + "/" + sub, false)
    {
      assert k == upstreamPath || k in deps;
    }
    SubpathMoves(d, sub, m);
  }

  /** The end-to-end scenario of e2e_test.go: a request for `_bt/example.com/b`, whose go.mod
      marks `example.com/a` as recursive, moves imports of `example.com/a/pkg` under `_bt`. */
  lemma RecursiveCloneExample()
    ensures RewrittenPath("example.com/a" + "/" + "pkg",
                          ReplacementMap("goclone.example.com", IsolationSegment("_bt" + "/" + "example.com/b"),
                                         "_bt" + "/" + "example.com/b", "example.com/b", ["example.com/a"]))
         == "goclone.example.com" + "/" + "_bt" + "/" + "example.com/a" + "/" + "pkg"
  {
    var host, user, up, d := "goclone.example.com", "_bt" + "/" + "example.com/b", "example.com/b", "example.com/a";
    SlashAfterSegment("_bt", "example.com/b");
    assert IsolationSegment(user) == "_bt";
    DependencyPathsFollow(host, "_bt", user, up, [d], d, "pkg");
  }
}
