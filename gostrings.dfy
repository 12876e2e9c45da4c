/**
 * The small part of Go's `strings` and `path` packages that the rewrite engine relies on,
 * on `string` values (Go strings are byte strings; here each byte is a `char`).
 */
module GoStrings {

  /** strings.HasPrefix */
  predicate HasPrefix(s: string, prefix: string) {
    |prefix| <= |s| && s[..|prefix|] == prefix
  }

  /** strings.HasSuffix */
  predicate HasSuffix(s: string, suffix: string) {
    |suffix| <= |s| && s[|s| - |suffix|..] == suffix
  }

  /** strings.TrimPrefix */
  function TrimPrefix(s: string, prefix: string): (r: string)
    ensures HasPrefix(s, prefix) ==> s == prefix + r
    ensures !HasPrefix(s, prefix) ==> r == s
  {
    if HasPrefix(s, prefix) then s[|prefix|..] else s
  }

  /** `sub` occurs in `s` starting at index `i`. */
  predicate OccursAt(s: string, sub: string, i: int) {
    0 <= i && i + |sub| <= |s| && s[i..i + |sub|] == sub
  }

  /** strings.Contains */
  predicate Contains(s: string, sub: string) {
    exists i | 0 <= i <= |s| - |sub| :: OccursAt(s, sub, i)
  }

  /** The first occurrence of `sub` in `s` at or after `i`, or -1. */
  function IndexFrom(s: string, sub: string, i: nat): (r: int)
    requires i <= |s|
    ensures r == -1 || (i <= r && OccursAt(s, sub, r))
    ensures forall j :: i <= j && (r == -1 || j < r) ==> !OccursAt(s, sub, j)
    decreases |s| - i
  {
    if OccursAt(s, sub, i) then i
    else if i == |s| then -1
    else IndexFrom(s, sub, i + 1)
  }

  /** strings.Index: the first occurrence of `sub` in `s`, or -1. */
  function Index(s: string, sub: string): (r: int)
    ensures r == -1 || OccursAt(s, sub, r)
    ensures forall j :: 0 <= j && (r == -1 || j < r) ==> !OccursAt(s, sub, j)
  {
    IndexFrom(s, sub, 0)
  }

  lemma IndexIsNegativeIffAbsent(s: string, sub: string)
    ensures Index(s, sub) == -1 <==> !Contains(s, sub)
  {
    var r := Index(s, sub);
    if r != -1 {
      assert OccursAt(s, sub, r);
    }
  }

  /** strings.SplitN(s, sep, 2) for a non-empty separator: split at the first occurrence. */
  function SplitN2(s: string, sep: string): (parts: seq<string>)
    requires sep != ""
    ensures |parts| == 1 || |parts| == 2
    ensures |parts| == 1 <==> !Contains(s, sep)
    ensures |parts| == 1 ==> parts[0] == s
    ensures |parts| == 2 ==> s == parts[0] + sep + parts[1]
    ensures |parts| == 2 ==> forall j :: 0 <= j < |parts[0]| ==> !OccursAt(s, sep, j)
  {
    var i := Index(s, sep);
    IndexIsNegativeIffAbsent(s, sep);
    if i < 0 then [s]
    else
      assert s == s[..i] + sep + s[i + |sep|..];
      [s[..i], s[i + |sep|..]]
  }

  /** strings.Replace(s, old, new, 1): replace the first occurrence of `pattern`. */
  function ReplaceFirst(s: string, pattern: string, replacement: string): (r: string)
    ensures !Contains(s, pattern) ==> r == s
    ensures Contains(s, pattern) ==> exists i | 0 <= i <= |s| - |pattern| ::
      && OccursAt(s, pattern, i)
      && (forall j | 0 <= j < i :: !OccursAt(s, pattern, j))
      && r == s[..i] + replacement + s[i + |pattern|..]
  {
    var i := Index(s, pattern);
    IndexIsNegativeIffAbsent(s, pattern);
    if i < 0 then s else s[..i] + replacement + s[i + |pattern|..]
  }

  /** When `pattern` is a prefix of `s`, its first occurrence is the prefix itself. */
  lemma ReplaceFirstOfPrefix(s: string, pattern: string, replacement: string)
    requires HasPrefix(s, pattern)
    ensures ReplaceFirst(s, pattern, replacement) == replacement + s[|pattern|..]
  {
    assert OccursAt(s, pattern, 0);
    assert Index(s, pattern) == 0;
  }

  /** `p` with every trailing '/' removed. */
  function TrimTrailingSlashes(p: string): (r: string)
  {
    if p != "" && p[|p| - 1] == '/' then TrimTrailingSlashes(p[..|p| - 1]) else p
  }

  /** TrimTrailingSlashes keeps a prefix of `p` that does not end in '/', and removes only
      slashes. */
  lemma {:induction false} TrimTrailingSlashesShape(p: string)
    ensures var r := TrimTrailingSlashes(p);
      && HasPrefix(p, r)
      && (r == "" || r[|r| - 1] != '/')
      && forall i | |r| <= i < |p| :: p[i] == '/'
    decreases |p|
  {
    if p != "" && p[|p| - 1] == '/' {
      TrimTrailingSlashesShape(p[..|p| - 1]);
    }
  }

  /** The index of the last '/' in `q`, or -1. */
  function LastSlash(q: string): (r: int)
    ensures -1 <= r < |q|
    ensures r >= 0 ==> q[r] == '/'
  {
    if q == "" then -1
    else if q[|q| - 1] == '/' then |q| - 1
    else LastSlash(q[..|q| - 1])
  }

  /** No '/' follows the one LastSlash finds. */
  lemma {:induction false} LastSlashIsLast(q: string)
    ensures forall i | LastSlash(q) < i < |q| :: q[i] != '/'
    decreases |q|
  {
    if q != "" && q[|q| - 1] != '/' {
      LastSlashIsLast(q[..|q| - 1]);
    }
  }

  /** path.Base: the last element of a slash-separated path, after trailing slashes are removed;
      "." for the empty path and "/" for a path of slashes only. */
  function Base(p: string): (r: string)
    ensures r != ""
  {
    if p == "" then "."
    else
      var q := TrimTrailingSlashes(p);
      var last := q[LastSlash(q) + 1..];
      if last == "" then "/" else last
  }

  /** What follows the last '/' of `q` holds no '/'. */
  lemma NoSlashAfterLast(q: string)
    ensures '/' !in q[LastSlash(q) + 1..]
  {
    var k := LastSlash(q);
    var last := q[k + 1..];
    LastSlashIsLast(q);
    forall j | 0 <= j < |last| ensures last[j] != '/' {
      assert last[j] == q[k + 1 + j];
    }
  }

  /** What follows the last '/' of `q` holds no '/', and is either all of `q` or preceded by
      that '/'. */
  lemma AfterLastSlash(q: string)
    ensures var last := q[LastSlash(q) + 1..];
      && '/' !in last && HasSuffix(q, last)
      && (last == q || HasSuffix(q, "/" + last))
  {
    NoSlashAfterLast(q);
    var k := LastSlash(q);
    var last := q[k + 1..];
    assert q[|q| - |last|..] == last;
    if k >= 0 {
      assert q[k..] == "/" + last;
    }
  }

  /** Base is the last element: a suffix of the path without its trailing slashes, holding no
      '/', that is either that whole path or follows its last '/'. */
  lemma BaseIsLastElement(p: string)
    requires p != "" && Base(p) != "/"
    ensures '/' !in Base(p) && HasSuffix(TrimTrailingSlashes(p), Base(p))
    ensures Base(p) == TrimTrailingSlashes(p) || HasSuffix(TrimTrailingSlashes(p), "/" + Base(p))
  {
    AfterLastSlash(TrimTrailingSlashes(p));
  }

  /** The two special cases of path.Base: "." for the empty path, and "/" exactly for a
      non-empty path of slashes only. */
  lemma BaseSpecialCases(p: string)
    ensures p == "" ==> Base(p) == "."
    ensures Base(p) == "/" <==> p != "" && forall i | 0 <= i < |p| :: p[i] == '/'
  {
    if p != "" {
      var q := TrimTrailingSlashes(p);
      TrimTrailingSlashesShape(p);
      LastSlashIsLast(q);
      if forall i | 0 <= i < |p| :: p[i] == '/' {
        assert q == "";
      } else {
        var i :| 0 <= i < |p| && p[i] != '/';
        assert q != "";
        assert q[|q| - 1] != '/';
        assert |q[LastSlash(q) + 1..]| > 0;
      }
    }
  }

  /** The base of `dir/file` (or of `file` alone) is `file`. */
  lemma {:induction false} BaseOfJoin(dir: string, file: string)
    requires file != "" && '/' !in file
    ensures Base(file) == file
    ensures Base(dir + "/" + file) == file
  {
    var p := dir + "/" + file;
    assert p[|p| - 1] == file[|file| - 1];
    assert TrimTrailingSlashes(p) == p;
    assert TrimTrailingSlashes(file) == file;
    LastSlashAfter(dir + "/", file);
    LastSlashAfter("", file);
    assert p[|dir| + 1..] == file;
    assert ("" + file)[0..] == file;
    assert "" + file == file;
  }

  /** The last '/' of `head + tail` is the last of `head` when `tail` has none. */
  lemma {:induction false} LastSlashAfter(head: string, tail: string)
    requires '/' !in tail
    requires head == "" || head[|head| - 1] == '/'
    ensures LastSlash(head + tail) == |head| - 1
    decreases |tail|
  {
    if tail == [] {
      assert head + tail == head;
    } else {
      var s := head + tail;
      assert s[|s| - 1] == tail[|tail| - 1];
      assert s[..|s| - 1] == head + tail[..|tail| - 1];
      LastSlashAfter(head, tail[..|tail| - 1]);
    }
  }
}
