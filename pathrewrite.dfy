/**
 * rewritePath and rewriteFileName: longest-prefix substitution of a path under a replacement
 * map, where a key only matches at a path-segment boundary.
 */
module PathRewrite {
  import opened Wrappers
  import opened GoStrings

  /** The boundary test of both loops: `key` is all of `s`, or `s` goes on after it with '/',
      or, for archive member names (`allowAt`), with '@'. */
  predicate Matches(key: string, s: string, allowAt: bool) {
    s == key || HasPrefix(s, key + "/") || (allowAt && HasPrefix(s, key + "@"))
  }

  /** A matching key is a prefix of `s` that ends at a boundary. */
  lemma MatchesAt(key: string, s: string, allowAt: bool)
    ensures Matches(key, s, allowAt) <==>
      |key| <= |s| && s[..|key|] == key &&
      (|key| == |s| || s[|key|] == '/' || (allowAt && s[|key|] == '@'))
  {
    if |key| < |s| && s[..|key|] == key {
      assert s[..|key| + 1] == key + [s[|key|]];
    }
    if HasPrefix(s, key + "/") {
      assert s[..|key|] == (key + "/")[..|key|];
    }
    if HasPrefix(s, key + "@") {
      assert s[..|key|] == (key + "@")[..|key|];
    }
  }

  /** At most one key of each length matches, so the choice cannot depend on map order. */
  lemma MatchesSameLength(k1: string, k2: string, s: string, allowAt: bool)
    requires Matches(k1, s, allowAt) && Matches(k2, s, allowAt) && |k1| == |k2|
    ensures k1 == k2
  {
    MatchesAt(k1, s, allowAt);
    MatchesAt(k2, s, allowAt);
  }

  /** The longest non-empty key of `repl`, of length at most `n`, that matches `s`: the prefix
      lengths of `s` are tried from `n` down to 1. */
  function LongestMatchUpTo(s: string, repl: map<string, string>, allowAt: bool, n: nat): (r: Option<string>)
    requires n <= |s|
    ensures r.Some? ==> r.value in repl && 0 < |r.value| <= n && Matches(r.value, s, allowAt)
    decreases n
  {
    if n == 0 then None
    else if s[..n] in repl && Matches(s[..n], s, allowAt) then Some(s[..n])
    else LongestMatchUpTo(s, repl, allowAt, n - 1)
  }

  /** No matching key of length at most `n` is longer than the one found. */
  lemma {:induction false} LongestMatchUpToIsLongest(s: string, repl: map<string, string>, allowAt: bool, n: nat, k: string)
    requires n <= |s|
    requires k in repl && 0 < |k| <= n && Matches(k, s, allowAt)
    ensures LongestMatchUpTo(s, repl, allowAt, n).Some?
    ensures |k| <= |LongestMatchUpTo(s, repl, allowAt, n).value|
    decreases n
  {
    if s[..n] in repl && Matches(s[..n], s, allowAt) {
    } else if |k| == n {
      MatchesAt(k, s, allowAt);
    } else {
      LongestMatchUpToIsLongest(s, repl, allowAt, n - 1, k);
    }
  }

  /** The key that both loops select: a non-empty key of `repl` matching `s`, the longest one
      (LongestMatchIsLongest). */
  function LongestMatch(s: string, repl: map<string, string>, allowAt: bool): (r: Option<string>)
    ensures r.Some? ==> r.value in repl && r.value != "" && Matches(r.value, s, allowAt)
  {
    LongestMatchUpTo(s, repl, allowAt, |s|)
  }

  /** Every non-empty key of `repl` that matches `s` is selected or shorter than the selected
      key; so nothing is selected exactly when no non-empty key matches. */
  lemma LongestMatchIsLongest(s: string, repl: map<string, string>, allowAt: bool, k: string)
    requires k in repl && k != "" && Matches(k, s, allowAt)
    ensures LongestMatch(s, repl, allowAt).Some?
    ensures |k| <= |LongestMatch(s, repl, allowAt).value|
  {
    MatchesAt(k, s, allowAt);
    LongestMatchUpToIsLongest(s, repl, allowAt, |s|, k);
  }

  /** What rewritePath returns. */
  function RewrittenPath(p: string, repl: map<string, string>): string {
    match LongestMatch(p, repl, false)
    case None => p
    case Some(k) => repl[k] + TrimPrefix(p, k)
  }

  /** What rewriteFileName returns. */
  function RewrittenFileName(name: string, repl: map<string, string>): string {
    match LongestMatch(name, repl, true)
    case None => name
    case Some(k) => ReplaceFirst(name, k, repl[k])
  }

  /** The loop shared by rewritePath and rewriteFileName: visit the keys in any order and keep
      the longest matching one; "" when none matches (the empty key is never selected). */
  method BestKey(s: string, repl: map<string, string>, allowAt: bool) returns (best: string)
    ensures LongestMatch(s, repl, allowAt).None? ==> best == ""
    ensures LongestMatch(s, repl, allowAt).Some? ==> best == LongestMatch(s, repl, allowAt).value
  {
    best := "";
    var todo := repl.Keys;
    while todo != {}
      invariant todo <= repl.Keys
      invariant best == "" || (best in repl && Matches(best, s, allowAt))
      invariant forall k :: k in repl && k !in todo && Matches(k, s, allowAt) ==> |k| <= |best|
      decreases |todo|
    {
      var key :| key in todo;
      if Matches(key, s, allowAt) && |key| > |best| {
        best := key;
      }
      todo := todo - {key};
    }
    var lm := LongestMatch(s, repl, allowAt);
    if best != "" {
      LongestMatchIsLongest(s, repl, allowAt, best);
    }
    if lm.Some? {
      MatchesSameLength(best, lm.value, s, allowAt);
    }
  }

  /** rewritePath */
  method RewritePath(p: string, repl: map<string, string>) returns (r: string)
    ensures r == RewrittenPath(p, repl)
  {
    var best := BestKey(p, repl, false);
    if best == "" {
      return p;
    }
    return repl[best] + TrimPrefix(p, best);
  }

  /** rewriteFileName */
  method RewriteFileName(name: string, repl: map<string, string>) returns (r: string)
    ensures r == RewrittenFileName(name, repl)
  {
    var best := BestKey(name, repl, true);
    if best == "" {
      return name;
    }
    return ReplaceFirst(name, best, repl[best]);
  }

  /** Identity law: a path that no non-empty key matches at a segment boundary is unchanged. */
  lemma RewritePathIdentity(p: string, repl: map<string, string>)
    requires forall k :: k in repl && k != "" ==> !Matches(k, p, false)
    ensures LongestMatch(p, repl, false).None?
    ensures RewrittenPath(p, repl) == p
  {
  }

  /** Longest match: when `k` is the longest non-empty matching key, the result is `repl[k]`
      followed by what comes after `k` in `p`. */
  lemma RewritePathLongest(p: string, repl: map<string, string>, k: string)
    requires k in repl && k != "" && Matches(k, p, false)
    requires forall k' :: k' in repl && k' != "" && Matches(k', p, false) ==> |k'| <= |k|
    ensures LongestMatch(p, repl, false) == Some(k)
    ensures |k| <= |p| && RewrittenPath(p, repl) == repl[k] + p[|k|..]
  {
    LongestMatchIsLongest(p, repl, false, k);
    var lm := LongestMatch(p, repl, false);
    MatchesSameLength(k, lm.value, p, false);
    MatchesAt(k, p, false);
  }

  /** Same as RewritePathLongest for archive member names, where the single-occurrence replace
      of the source amounts to a prefix substitution. */
  lemma RewriteFileNameLongest(name: string, repl: map<string, string>, k: string)
    requires k in repl && k != "" && Matches(k, name, true)
    requires forall k' :: k' in repl && k' != "" && Matches(k', name, true) ==> |k'| <= |k|
    ensures LongestMatch(name, repl, true) == Some(k)
    ensures |k| <= |name| && RewrittenFileName(name, repl) == repl[k] + name[|k|..]
  {
    LongestMatchIsLongest(name, repl, true, k);
    var lm := LongestMatch(name, repl, true);
    MatchesSameLength(k, lm.value, name, true);
    MatchesAt(k, name, true);
    ReplaceFirstOfPrefix(name, k, repl[k]);
  }

  /** A path below a key moves with that key when no longer key matches it. */
  lemma SubpathMoves(k: string, sub: string, repl: map<string, string>)
    requires k in repl && k != ""
    requires forall k' | k' in repl && |k'| > |k| :: !Matches(k', k + "/" + sub, false)
    ensures RewrittenPath(k + "/" + sub, repl) == repl[k] + "/" + sub
  {
    var p := k + "/" + sub;
    assert Matches(k, p, false) by {
      assert p[..|k| + 1] == k + "/";
    }
    RewritePathLongest(p, repl, k);
    assert p[|k|..] == "/" + sub;
  }

  /** strings.Replace(name, best, repl[best], 1) substitutes the matched prefix. */
  lemma RewriteFileNameIsPrefixSubstitution(name: string, repl: map<string, string>)
    ensures LongestMatch(name, repl, true).None? ==> RewrittenFileName(name, repl) == name
    ensures LongestMatch(name, repl, true).Some? ==>
      var k := LongestMatch(name, repl, true).value;
      |k| <= |name| && RewrittenFileName(name, repl) == repl[k] + name[|k|..]
  {
    var lm := LongestMatch(name, repl, true);
    if lm.Some? {
      MatchesAt(lm.value, name, true);
      ReplaceFirstOfPrefix(name, lm.value, repl[lm.value]);
    }
  }

  /** A key without '@' matches `mod@tail` as a member name exactly when it matches `mod` as a
      path. */
  lemma MatchesVersionedRoot(k: string, mod: string, tail: string)
    requires '@' !in mod && '@' !in k
    ensures Matches(k, mod + "@" + tail, true) <==> Matches(k, mod, false)
  {
    var name := mod + "@" + tail;
    assert name[|mod|] == '@';
    assert name[..|mod|] == mod;
    MatchesAt(k, name, true);
    MatchesAt(k, mod, false);
    if Matches(k, name, true) {
      if |k| < |mod| {
        assert mod[..|k|] == name[..|k|];
        assert mod[|k|] == name[|k|];
        assert mod[|k|] in mod;
      }
    }
    if Matches(k, mod, false) {
      assert name[..|k|] == mod[..|k|];
      if |k| < |mod| {
        assert name[|k|] == mod[|k|];
      }
    }
  }

  /** Two inputs that the same keys match select the same key. */
  lemma SameMatchesSameKey(s1: string, at1: bool, s2: string, at2: bool, repl: map<string, string>)
    requires forall k :: k in repl ==> (Matches(k, s1, at1) <==> Matches(k, s2, at2))
    ensures LongestMatch(s1, repl, at1) == LongestMatch(s2, repl, at2)
  {
    var m1 := LongestMatch(s1, repl, at1);
    var m2 := LongestMatch(s2, repl, at2);
    if m1.Some? {
      LongestMatchIsLongest(s2, repl, at2, m1.value);
    }
    if m2.Some? {
      LongestMatchIsLongest(s1, repl, at1, m2.value);
    }
    if m1.Some? && m2.Some? {
      MatchesSameLength(m1.value, m2.value, s1, at1);
    }
  }

  /** Archive members are rooted at `path@version/`. With no '@' in the module path nor in any
      key, a member name selects the same key as its module path. */
  lemma VersionedRootSameKey(mod: string, tail: string, repl: map<string, string>)
    requires '@' !in mod
    requires forall k :: k in repl ==> '@' !in k
    ensures LongestMatch(mod + "@" + tail, repl, true) == LongestMatch(mod, repl, false)
  {
    forall k | k in repl
      ensures Matches(k, mod + "@" + tail, true) <==> Matches(k, mod, false)
    {
      MatchesVersionedRoot(k, mod, tail);
    }
    SameMatchesSameKey(mod + "@" + tail, true, mod, false, repl);
  }

  /** ... and so is renamed exactly as its module path is rewritten. */
  lemma FileNameFollowsModulePath(mod: string, tail: string, repl: map<string, string>)
    requires '@' !in mod
    requires forall k :: k in repl ==> '@' !in k
    ensures RewrittenFileName(mod + "@" + tail, repl) == RewrittenPath(mod, repl) + "@" + tail
  {
    var name := mod + "@" + tail;
    VersionedRootSameKey(mod, tail, repl);
    RewriteFileNameIsPrefixSubstitution(name, repl);
    var lm := LongestMatch(mod, repl, false);
    if lm.Some? {
      var k := lm.value;
      MatchesAt(k, mod, false);
      SubstituteThroughRoot(mod, tail, k, repl[k]);
    }
  }

  /** Substituting a prefix of the module path leaves the `@tail` part in place. */
  lemma SubstituteThroughRoot(mod: string, tail: string, k: string, v: string)
    requires |k| <= |mod| && mod[..|k|] == k
    ensures v + (mod + "@" + tail)[|k|..] == v + TrimPrefix(mod, k) + "@" + tail
  {
    assert (mod + "@" + tail)[|k|..] == mod[|k|..] + "@" + tail;
  }

  /** Under {old/mod: new/mod}, `old/mod/pkg` becomes `new/mod/pkg`. */
  lemma MovedPathExample()
    ensures RewrittenPath("old/mod/pkg", map["old/mod" := "new/mod"]) == "new/mod/pkg"
  {
    var p, m := "old/mod/pkg", map["old/mod" := "new/mod"];
    assert p == "old/mod" + "/" + "pkg";
    assert Matches("old/mod", p, false) by {
      assert p[..8] == "old/mod" + "/";
    }
    RewritePathLongest(p, m, "old/mod");
    assert p[7..] == "/pkg";
  }

  /** Under {old/mod: new/mod}, `somethingelse/old/mod/pkg` is left alone: the key occurs in it,
      but not at its start. */
  lemma SubstringNotMatchedExample()
    ensures RewrittenPath("somethingelse/old/mod/pkg", map["old/mod" := "new/mod"]) == "somethingelse/old/mod/pkg"
  {
    var p, m := "somethingelse/old/mod/pkg", map["old/mod" := "new/mod"];
    MatchesAt("old/mod", p, false);
    assert p[..7][0] != "old/mod"[0];
    RewritePathIdentity(p, m);
  }

  /** Under {a/b: x}, `a/b/c` becomes `x/c` while `a/bc` is left alone. */
  lemma PartialSegmentExample()
    ensures RewrittenPath("a/b/c", map["a/b" := "x"]) == "x/c"
    ensures RewrittenPath("a/bc", map["a/b" := "x"]) == "a/bc"
  {
    var m := map["a/b" := "x"];
    assert Matches("a/b", "a/b/c", false) by {
      assert "a/b/c"[..4] == "a/b" + "/";
    }
    RewritePathLongest("a/b/c", m, "a/b");
    assert "a/b/c"[3..] == "/c";
    MatchesAt("a/b", "a/bc", false);
    assert "a/bc"[3] != '/';
    RewritePathIdentity("a/bc", m);
  }

  /** An archive member rooted at `old/mod@v1.0.0/` moves with its module. */
  lemma ArchiveMemberExample()
    ensures RewrittenFileName("old/mod" + "@" + "v1.0.0/foo.go", map["old/mod" := "example.com/_two/old/mod"])
         == "example.com/_two/old/mod" + "@" + "v1.0.0/foo.go"
  {
    var mod, tail, v := "old/mod", "v1.0.0/foo.go", "example.com/_two/old/mod";
    var m := map[mod := v];
    assert forall k :: k in m ==> '@' !in k by {
      assert m.Keys == {mod};
      assert forall i :: 0 <= i < |mod| ==> mod[i] != '@';
    }
    FileNameFollowsModulePath(mod, tail, m);
    RewritePathLongest(mod, m, mod);
    assert RewrittenPath(mod, m) == v;
  }
}
