/**
 * How proxyHandler reads a request path: trimming the serving prefix and the public host,
 * splitting at `/@v/` (parseProxyPath), the `_segment/` isolation prefix, and the choice
 * between passthrough and rewriting.
 */
module ProxyPath {
  import opened Wrappers
  import opened GoStrings

  /** What parseProxyPath returns on success: the path the client asked for, the upstream module
      path it stands for, and the protocol operation after `/@v/` (`list`, `v1.0.0.info`, …). */
  datatype ProxyRequest = ProxyRequest(userPath: string, upstreamPath: string, rest: string)

  /** parseProxyPath */
  function ParseProxyPath(p: string): (r: Option<ProxyRequest>)
    ensures !Contains(p, "/@v/") ==> r.None?
    ensures r.Some? ==> p == r.value.userPath + "/@v/" + r.value.rest
    ensures r.Some? ==> forall j :: 0 <= j < |r.value.userPath| ==> !OccursAt(p, "/@v/", j)
  {
    var parts := SplitN2(p, "/@v/");
    if |parts| != 2 then None
    else
      var userPath := parts[0];
      if HasPrefix(userPath, "_") then
        var segs := SplitN2(userPath, "/");
        if |segs| != 2 || segs[0] == "_mod" then None
        else Some(ProxyRequest(userPath, segs[1], parts[1]))
      else Some(ProxyRequest(userPath, userPath, parts[1]))
  }

  /** "/" occurs in `s` exactly when the character '/' does. */
  lemma ContainsSlash(s: string)
    ensures Contains(s, "/") <==> '/' in s
  {
    if '/' in s {
      var i :| 0 <= i < |s| && s[i] == '/';
      assert OccursAt(s, "/", i);
    }
    if Contains(s, "/") {
      var i :| 0 <= i <= |s| - 1 && OccursAt(s, "/", i);
      assert s[i..i + 1][0] == s[i];
    }
  }

  /** The leading `_segment` of a user path that carries one, or "" (the `prefix` of
      makeReplacements). */
  function IsolationSegment(userPath: string): (seg: string)
    ensures seg != "" <==> HasPrefix(userPath, "_") && '/' in userPath
    ensures seg != "" ==> HasPrefix(seg, "_") && '/' !in seg && HasPrefix(userPath, seg + "/")
  {
    ContainsSlash(userPath);
    if HasPrefix(userPath, "_") then
      var segs := SplitN2(userPath, "/");
      if |segs| == 2 then
        assert '/' !in segs[0] by {
          forall j | 0 <= j < |segs[0]| ensures segs[0][j] != '/' {
            assert !OccursAt(userPath, "/", j);
            assert userPath[j..j + 1] == [userPath[j]];
          }
        }
        assert userPath == segs[0] + "/" + segs[1];
        assert userPath[..|segs[0]| + 1] == segs[0] + "/";
        assert segs[0][..1] == userPath[..1];
        segs[0]
      else ""
    else ""
  }

  /** parseProxyPath refuses exactly the paths without `/@v/`, and those whose user path starts
      with '_' but has no isolation segment (no '/') or has the reserved segment `_mod`. */
  lemma ParseProxyPathRefuses(p: string)
    ensures ParseProxyPath(p).None? <==>
      || !Contains(p, "/@v/")
      || var u := SplitN2(p, "/@v/")[0];
         HasPrefix(u, "_") && (IsolationSegment(u) == "" || IsolationSegment(u) == "_mod")
  {
    var u := SplitN2(p, "/@v/")[0];
    ContainsSlash(u);
    if HasPrefix(u, "_") && '/' in u {
      assert IsolationSegment(u) == SplitN2(u, "/")[0];
    }
  }

  /** A successful parse gives back the upstream path: the user path itself, or what follows its
      isolation segment, which is never the reserved `_mod`. */
  lemma ParsedUpstream(p: string)
    requires ParseProxyPath(p).Some?
    ensures var req := ParseProxyPath(p).value; var seg := IsolationSegment(req.userPath);
      && (seg == "" ==> !HasPrefix(req.userPath, "_") && req.upstreamPath == req.userPath)
      && (seg != "" ==> seg != "_mod" && req.userPath == seg + "/" + req.upstreamPath)
  {
    var req := ParseProxyPath(p).value;
    var user := req.userPath;
    ContainsSlash(user);
    if HasPrefix(user, "_") {
      var segs := SplitN2(user, "/");
      assert |segs| == 2;
      var seg := IsolationSegment(user);
      assert seg == segs[0];
    }
  }

  /** SplitN(a + sep + b, sep, 2) gives back `a` and `b` when `sep` does not occur earlier. */
  lemma SplitAtFirst(a: string, sep: string, b: string)
    requires sep != ""
    requires forall j :: 0 <= j < |a| ==> !OccursAt(a + sep + b, sep, j)
    ensures SplitN2(a + sep + b, sep) == [a, b]
  {
    var s := a + sep + b;
    assert s[|a|..|a| + |sep|] == sep;
    assert OccursAt(s, sep, |a|);
    var parts := SplitN2(s, sep);
    assert |parts| == 2;
    var i := |parts[0]|;
    assert OccursAt(s, sep, i) by {
      assert s[i..i + |sep|] == (parts[0] + sep + parts[1])[i..i + |sep|];
    }
    assert i == |a|;
    assert parts[0] == s[..i] == a;
    assert parts[1] == s[i + |sep|..] == b;
  }

  /** A module path carries no '@', so `/@v/` cannot start inside it. */
  lemma SeparatorAfterModulePath(user: string, rest: string)
    requires '@' !in user
    ensures SplitN2(user + "/@v/" + rest, "/@v/") == [user, rest]
  {
    var s := user + "/@v/" + rest;
    forall j | 0 <= j < |user|
      ensures !OccursAt(s, "/@v/", j)
    {
      assert s[j + 1] == (if j + 1 < |user| then user[j + 1] else '/');
    }
    SplitAtFirst(user, "/@v/", rest);
  }

  /** A segment without '/' ends at the first '/'. */
  lemma SlashAfterSegment(seg: string, tail: string)
    requires '/' !in seg
    ensures SplitN2(seg + "/" + tail, "/") == [seg, tail]
  {
    var s := seg + "/" + tail;
    forall j | 0 <= j < |seg|
      ensures !OccursAt(s, "/", j)
    {
      assert s[j] == seg[j];
      assert s[j..j + 1] == [s[j]];
    }
    SplitAtFirst(seg, "/", tail);
  }

  /** A plain module path is its own upstream path. */
  lemma ParsePlainPath(user: string, rest: string)
    requires '@' !in user && !HasPrefix(user, "_")
    ensures ParseProxyPath(user + "/@v/" + rest) == Some(ProxyRequest(user, user, rest))
  {
    SeparatorAfterModulePath(user, rest);
  }

  /** `_seg/path` is the isolated clone of `path`. */
  lemma ParseIsolatedPath(seg: string, up: string, rest: string)
    requires HasPrefix(seg, "_") && '/' !in seg && seg != "_mod"
    requires '@' !in seg && '@' !in up
    ensures ParseProxyPath(seg + "/" + up + "/@v/" + rest) == Some(ProxyRequest(seg + "/" + up, up, rest))
  {
    var user := seg + "/" + up;
    assert '@' !in user;
    SeparatorAfterModulePath(user, rest);
    SlashAfterSegment(seg, up);
    assert user[..1] == seg[..1];
  }

  /** The serving prefix `_mod` is never accepted as an isolation segment. */
  lemma ParseReservedSegment(up: string, rest: string)
    requires '@' !in up
    ensures ParseProxyPath("_mod/" + up + "/@v/" + rest).None?
  {
    var user := "_mod/" + up;
    assert user == "_mod" + "/" + up;
    assert '@' !in user;
    SeparatorAfterModulePath(user, rest);
    SlashAfterSegment("_mod", up);
    assert user[..1] == "_";
  }

  /** A user path that starts with '_' but has no second segment is refused. */
  lemma ParseBareSegment(seg: string, rest: string)
    requires HasPrefix(seg, "_") && '/' !in seg && '@' !in seg
    ensures ParseProxyPath(seg + "/@v/" + rest).None?
  {
    SeparatorAfterModulePath(seg, rest);
    ContainsSlash(seg);
  }

  /** main_test.go: `_two/golang.org/x/text/@v/list` stands for upstream `golang.org/x/text`. */
  lemma ParseExample()
    ensures ParseProxyPath("_two" + "/" + "golang.org/x/text" + "/@v/" + "list")
         == Some(ProxyRequest("_two" + "/" + "golang.org/x/text", "golang.org/x/text", "list"))
  {
    assert "_two"[..1] == "_";
    assert '/' !in "_two" && '@' !in "_two";
    assert '@' !in "golang.org/x/text";
    ParseIsolatedPath("_two", "golang.org/x/text", "list");
  }

  /** The request path with the serving prefix `/_mod/` and then `host/` removed. */
  function TrimRequest(urlPath: string, host: string): (r: string)
    ensures HasSuffix(urlPath, r)
    ensures !HasPrefix(urlPath, "/_mod/") && !HasPrefix(urlPath, host + "/") ==> r == urlPath
  {
    TrimPrefix(TrimPrefix(urlPath, "/_mod/"), host + "/")
  }

  /** The go command asks for `/_mod/<module path>/@v/…`; a module path under the public host
      loses the host. */
  lemma TrimRequestOfHostedModule(host: string, path: string)
    ensures TrimRequest("/_mod/" + host + "/" + path, host) == path
  {
    var u := "/_mod/" + host + "/" + path;
    assert u == "/_mod/" + (host + "/" + path);
    assert HasPrefix(u, "/_mod/");
    assert HasPrefix(host + "/" + path, host + "/");
  }

  /** The three kinds of request that proxyHandler tells apart. */
  datatype Endpoint = Passthrough | Manifest | Archive

  /** Archive for a `.zip` path, manifest for a `.mod` path, passthrough otherwise (lists and
      `.info` records). */
  function EndpointOf(trimmed: string): (e: Endpoint)
    ensures e == Archive <==> HasSuffix(trimmed, ".zip")
    ensures e == Manifest <==> HasSuffix(trimmed, ".mod")
    ensures e == Passthrough <==> !HasSuffix(trimmed, ".zip") && !HasSuffix(trimmed, ".mod")
  {
    if HasSuffix(trimmed, ".zip") then Archive
    else if HasSuffix(trimmed, ".mod") then Manifest
    else Passthrough
  }

  /** No path ends in both `.zip` and `.mod`, so the order of the tests does not matter. */
  lemma SuffixesExclusive(s: string)
    ensures !(HasSuffix(s, ".zip") && HasSuffix(s, ".mod"))
  {
  }

  /** The handler tests the suffix of the whole path; since `/@v/` ends in '/', and neither
      suffix has one, that is the suffix of the operation alone. */
  lemma {:induction false} EndpointFollowsOperation(user: string, rest: string)
    ensures EndpointOf(user + "/@v/" + rest) == EndpointOf(rest)
  {
    var s := user + "/@v/" + rest;
    if |rest| >= 4 {
      assert s[|s| - 4..] == rest[|rest| - 4..];
    } else {
      var k := 3 - |rest|;
      assert s[|s| - 4 + k] == '/';
    }
  }
}
