/**
 * rewriteGoMod: move the module path and every require path of a go.mod under the replacement
 * map, keeping the original bytes when nothing moves.
 */
module GoMod {
  import opened Wrappers
  import opened Foreign
  import opened PathRewrite

  /** The require line's path moves under the map. */
  predicate RequireMoves(r: Require, repl: map<string, string>) {
    RewrittenPath(r.path, repl) != r.path
  }

  /** The module statement's path moves under the map. */
  predicate ModuleMoves(f: ModFile, repl: map<string, string>) {
    f.moduleStmt.Some? && RewrittenPath(f.moduleStmt.value.path, repl) != f.moduleStmt.value.path
  }

  /** Some path of the file moves: the `changed` flag of the source at the end of its loop. */
  predicate FileMoves(f: ModFile, repl: map<string, string>) {
    ModuleMoves(f, repl) || exists i | 0 <= i < |f.require| :: RequireMoves(f.require[i], repl)
  }

  /** The tokens of a require line whose path became `quoted`: the path and the version sit at
      positions 0 and 1 inside a require block and at 1 and 2 on a single-line require (after
      the `require` keyword); positions the line does not have are left alone. */
  function FixTokens(tokens: seq<string>, inBlock: bool, quoted: string, version: string): (t: seq<string>)
    ensures |t| == |tokens|
    ensures var at := if inBlock then 0 else 1;
      forall i | 0 <= i < |t| :: t[i] == (if i == at then quoted else if i == at + 1 then version else tokens[i])
  {
    var at := if inBlock then 0 else 1;
    var t := if |tokens| >= at + 1 then tokens[at := quoted] else tokens;
    if |t| >= at + 2 then t[at + 1 := version] else t
  }

  /** A require line after the rewrite. */
  function RewrittenRequire(tc: Toolchain, r: Require, repl: map<string, string>): Require {
    var p := RewrittenPath(r.path, repl);
    if p == r.path then r
    else r.(path := p, tokens := FixTokens(r.tokens, r.inBlock, tc.autoQuote(p), r.version))
  }

  /** Every require line after the rewrite, in order. */
  function RewrittenRequires(tc: Toolchain, reqs: seq<Require>, repl: map<string, string>): seq<Require> {
    seq(|reqs|, i requires 0 <= i < |reqs| => RewrittenRequire(tc, reqs[i], repl))
  }

  /** The parsed file after the rewrite, or the error of AddModuleStmt. */
  function RewrittenModFile(tc: Toolchain, f: ModFile, repl: map<string, string>): Result<ModFile> {
    var reqs := RewrittenRequires(tc, f.require, repl);
    if ModuleMoves(f, repl) then
      match AddModuleStmt(tc, f.moduleStmt.value, RewrittenPath(f.moduleStmt.value.path, repl))
      case Err(e) => Err(e)
      case Ok(m) => Ok(f.(moduleStmt := Some(m), require := reqs))
    else Ok(f.(require := reqs))
  }

  /** What rewriteGoMod returns. */
  function RewrittenGoMod(tc: Toolchain, src: Bytes, repl: map<string, string>): Result<Bytes> {
    match tc.parseMod(src)
    case Err(e) => Err(e)
    case Ok(f) =>
      if !FileMoves(f, repl) then Ok(src)
      else
        match RewrittenModFile(tc, f, repl)
        case Err(e) => Err(e)
        case Ok(g) => tc.formatMod(g)
  }

  /** The body of the source's loop over the require lines: the record after the rewrite, and
      whether its path moved. */
  method RewriteRequire(tc: Toolchain, req: Require, repl: map<string, string>) returns (r: Require, moved: bool)
    ensures r == RewrittenRequire(tc, req, repl)
    ensures moved <==> RequireMoves(req, repl)
  {
    var newPath := RewritePath(req.path, repl);
    if newPath == req.path {
      return req, false;
    }
    var tokens := req.tokens;
    if req.inBlock {
      if |tokens| >= 1 {
        tokens := tokens[0 := tc.autoQuote(newPath)];
      }
      if |tokens| >= 2 {
        tokens := tokens[1 := req.version];
      }
    } else {
      if |tokens| >= 2 {
        tokens := tokens[1 := tc.autoQuote(newPath)];
      }
      if |tokens| >= 3 {
        tokens := tokens[2 := req.version];
      }
    }
    assert tokens == FixTokens(req.tokens, req.inBlock, tc.autoQuote(newPath), req.version);
    return req.(path := newPath, tokens := tokens), true;
  }

  /** The loop of rewriteGoMod over the require lines: each line is rewritten in place, and
      `changed` records whether some path moved. */
  method RewriteRequires(tc: Toolchain, lines: seq<Require>, repl: map<string, string>)
    returns (reqs: seq<Require>, changed: bool)
    ensures reqs == RewrittenRequires(tc, lines, repl)
    ensures changed <==> exists j | 0 <= j < |lines| :: RequireMoves(lines[j], repl)
  {
    reqs := lines;
    changed := false;
    var i := 0;
    while i < |reqs|
      invariant 0 <= i <= |reqs| == |lines|
      invariant forall j | 0 <= j < i :: reqs[j] == RewrittenRequire(tc, lines[j], repl)
      invariant forall j | i <= j < |reqs| :: reqs[j] == lines[j]
      invariant changed <==> exists j | 0 <= j < i :: RequireMoves(lines[j], repl)
    {
      var req, moved := RewriteRequire(tc, reqs[i], repl);
      reqs := reqs[i := req];
      changed := changed || moved;
      i := i + 1;
    }
    assert reqs == RewrittenRequires(tc, lines, repl);
  }

  /** rewriteGoMod: the parsed records are updated in place, with a `changed` flag. */
  method RewriteGoMod(tc: Toolchain, src: Bytes, repl: map<string, string>) returns (r: Result<Bytes>)
    ensures r == RewrittenGoMod(tc, src, repl)
  {
    var parsed := tc.parseMod(src);
    if parsed.Err? {
      return Err(parsed.error);
    }
    var f := parsed.value;
    ghost var f0 := f;
    var changed := false;
    if f.moduleStmt.Some? {
      var newPath := RewritePath(f.moduleStmt.value.path, repl);
      if newPath != f.moduleStmt.value.path {
        var added := AddModuleStmt(tc, f.moduleStmt.value, newPath);
        if added.Err? {
          return Err(added.error);
        }
        f := f.(moduleStmt := Some(added.value));
        changed := true;
      }
    }
    assert changed == ModuleMoves(f0, repl);
    var reqs, moved := RewriteRequires(tc, f.require, repl);
    changed := changed || moved;
    if !changed {
      return Ok(src);
    }
    f := f.(require := reqs);
    assert RewrittenModFile(tc, f0, repl) == Ok(f);
    r := tc.formatMod(f);
  }

  /** The paths and versions a go.mod declares: what the go command reads from it. */
  datatype ModVersion = ModVersion(path: string, version: string)
  datatype ModSummary = ModSummary(modulePath: Option<string>, deps: seq<ModVersion>)

  function Summary(f: ModFile): ModSummary {
    ModSummary(
      if f.moduleStmt.Some? then Some(f.moduleStmt.value.path) else None,
      seq(|f.require|, i requires 0 <= i < |f.require| => ModVersion(f.require[i].path, f.require[i].version)))
  }

  /** The summary with every path moved under the map and every version kept. */
  function RewrittenSummary(s: ModSummary, repl: map<string, string>): ModSummary {
    ModSummary(
      if s.modulePath.Some? then Some(RewrittenPath(s.modulePath.value, repl)) else None,
      seq(|s.deps|, i requires 0 <= i < |s.deps| => ModVersion(RewrittenPath(s.deps[i].path, repl), s.deps[i].version)))
  }

  /** The edited record: the module path and each require path are rewritten, in order;
      versions, block membership and trailing comments stay; exclude and replace directives
      (and the go, toolchain and retract lines) are not touched. */
  lemma RewrittenModFileContents(tc: Toolchain, f: ModFile, repl: map<string, string>)
    requires RewrittenModFile(tc, f, repl).Ok?
    ensures var g := RewrittenModFile(tc, f, repl).value;
      && Summary(g) == RewrittenSummary(Summary(f), repl)
      && g.exclude == f.exclude && g.replace == f.replace && g.other == f.other
      && |g.require| == |f.require|
      && forall i | 0 <= i < |f.require| ::
           g.require[i].inBlock == f.require[i].inBlock && g.require[i].suffix == f.require[i].suffix
  {
    var g := RewrittenModFile(tc, f, repl).value;
    var s, t := Summary(g), RewrittenSummary(Summary(f), repl);
    assert s.deps == t.deps;
  }

  /** Byte-identical no-op: if no non-empty key matches the module path or any require path at a
      segment boundary, the output is the input, whatever the map. */
  lemma GoModUnrelatedMapIsNoOp(tc: Toolchain, src: Bytes, repl: map<string, string>)
    requires tc.parseMod(src).Ok?
    requires var f := tc.parseMod(src).value;
      && (f.moduleStmt.Some? ==> forall k | k in repl && k != "" :: !Matches(k, f.moduleStmt.value.path, false))
      && forall i, k | 0 <= i < |f.require| && k in repl && k != "" :: !Matches(k, f.require[i].path, false)
    ensures RewrittenGoMod(tc, src, repl) == Ok(src)
  {
    var f := tc.parseMod(src).value;
    if f.moduleStmt.Some? {
      RewritePathIdentity(f.moduleStmt.value.path, repl);
    }
    forall i | 0 <= i < |f.require|
      ensures !RequireMoves(f.require[i], repl)
    {
      RewritePathIdentity(f.require[i].path, repl);
    }
  }

  /** The position of the path token on a require line: first inside a `require ( … )` block,
      after the `require` keyword on a single line; the version token follows it. */
  function PathTokenAt(r: Require): nat {
    if r.inBlock then 0 else 1
  }

  /** What the tokens of a require line say: the path and version a reader of the printed line
      finds, when the line has those tokens. */
  function RequireLineSays(tc: Toolchain, r: Require): Option<ModVersion> {
    var at := PathTokenAt(r);
    if |r.tokens| >= at + 2 && tc.readToken(r.tokens[at]).Some? then
      Some(ModVersion(tc.readToken(r.tokens[at]).value, r.tokens[at + 1]))
    else None
  }

  /** What the tokens of a `module` line say: the path after the keyword. */
  function ModuleLineSays(tc: Toolchain, m: ModuleStmt): Option<string> {
    if |m.tokens| >= 2 then tc.readToken(m.tokens[1]) else None
  }

  /** Every line of the file says something. */
  predicate LinesReadable(tc: Toolchain, f: ModFile) {
    && (f.moduleStmt.Some? ==> ModuleLineSays(tc, f.moduleStmt.value).Some?)
    && forall i | 0 <= i < |f.require| :: RequireLineSays(tc, f.require[i]).Some?
  }

  /** The summary a reader of the printed lines finds: it depends on the tokens only, not on the
      path and version fields of the records. */
  function LinesSummary(tc: Toolchain, f: ModFile): ModSummary
    requires LinesReadable(tc, f)
  {
    ModSummary(
      if f.moduleStmt.Some? then ModuleLineSays(tc, f.moduleStmt.value) else None,
      seq(|f.require|, i requires 0 <= i < |f.require| => RequireLineSays(tc, f.require[i]).value))
  }

  /** The lines of the file say what its records hold. */
  predicate LinesAgree(tc: Toolchain, f: ModFile) {
    && (f.moduleStmt.Some? ==> ModuleLineSays(tc, f.moduleStmt.value) == Some(f.moduleStmt.value.path))
    && forall i | 0 <= i < |f.require| ::
         RequireLineSays(tc, f.require[i]) == Some(ModVersion(f.require[i].path, f.require[i].version))
  }

  /** The parser accepts every require the lines say: modfile refuses a version whose major
      version does not fit the path (v2 and above need a `/vN` suffix, or `.vN` under gopkg.in). */
  predicate LinesAccepted(tc: Toolchain, f: ModFile)
    requires LinesReadable(tc, f)
  {
    forall i | 0 <= i < |f.require| ::
      tc.acceptsRequire(RequireLineSays(tc, f.require[i]).value.path, RequireLineSays(tc, f.require[i]).value.version)
  }

  /** The formatter prints the tokens of each line: reading its output back gives what the lines
      of the formatted record say, when the parser accepts the requires they say. */
  ghost predicate FormatPrintsLines(tc: Toolchain) {
    forall g | tc.formatMod(g).Ok? && LinesReadable(tc, g) && LinesAccepted(tc, g) ::
      tc.parseMod(tc.formatMod(g).value).Ok? && Summary(tc.parseMod(tc.formatMod(g).value).value) == LinesSummary(tc, g)
  }

  /** The parser fills each record's path and version from the tokens of its line. */
  ghost predicate ParseFillsFromLines(tc: Toolchain) {
    forall src | tc.parseMod(src).Ok? :: LinesAgree(tc, tc.parseMod(src).value)
  }

  /** AutoQuote writes a token that reads back as the path. */
  ghost predicate AutoQuoteReadsBack(tc: Toolchain) {
    forall p :: tc.readToken(tc.autoQuote(p)) == Some(p)
  }

  /** AddModuleStmt puts the auto-quoted path after the `module` keyword. */
  ghost predicate ModuleLineTakesPath(tc: Toolchain) {
    forall ts, p | tc.moduleTokens(ts, p).Ok? ::
      |tc.moduleTokens(ts, p).value| >= 2 && tc.moduleTokens(ts, p).value[1] == tc.autoQuote(p)
  }

  /** A require line whose tokens agreed with its record still agrees after the rewrite: the
      quoted new path and the version are written at the positions the reader takes them from. */
  lemma RewrittenRequireAgrees(tc: Toolchain, r: Require, repl: map<string, string>)
    requires AutoQuoteReadsBack(tc)
    requires RequireLineSays(tc, r) == Some(ModVersion(r.path, r.version))
    ensures var s := RewrittenRequire(tc, r, repl);
      RequireLineSays(tc, s) == Some(ModVersion(s.path, s.version))
  {
    var s := RewrittenRequire(tc, r, repl);
    if s != r {
      var at := PathTokenAt(r);
      assert s.tokens[at] == tc.autoQuote(s.path);
      assert s.tokens[at + 1] == r.version;
    }
  }

  /** The edited record's lines say what its records hold, when the parsed ones did. */
  lemma RewrittenLinesAgree(tc: Toolchain, f: ModFile, repl: map<string, string>)
    requires AutoQuoteReadsBack(tc) && ModuleLineTakesPath(tc)
    requires LinesAgree(tc, f)
    requires RewrittenModFile(tc, f, repl).Ok?
    ensures LinesAgree(tc, RewrittenModFile(tc, f, repl).value)
  {
    var g := RewrittenModFile(tc, f, repl).value;
    forall i | 0 <= i < |g.require|
      ensures RequireLineSays(tc, g.require[i]) == Some(ModVersion(g.require[i].path, g.require[i].version))
    {
      RewrittenRequireAgrees(tc, f.require[i], repl);
    }
  }

  /** Lines that agree with their records are read back as the records' summary. */
  lemma AgreeingLinesSummary(tc: Toolchain, f: ModFile)
    requires LinesAgree(tc, f)
    ensures LinesReadable(tc, f) && LinesSummary(tc, f) == Summary(f)
  {
    var s, t := LinesSummary(tc, f), Summary(f);
    assert s.deps == t.deps;
  }

  /** The parser accepts every require of the parsed go.mod once its path is moved under the
      map (its version stays). */
  predicate MovedRequiresAccepted(tc: Toolchain, src: Bytes, repl: map<string, string>) {
    tc.parseMod(src).Ok? ==>
      var f := tc.parseMod(src).value;
      forall i | 0 <= i < |f.require| :: tc.acceptsRequire(RewrittenPath(f.require[i].path, repl), f.require[i].version)
  }

  /** Reading back what rewriteGoMod produced gives the module path and the require paths moved
      under the map, in order, with the same versions, whether or not anything moved. The
      printer is only assumed to print each line's tokens: the proof needs the rewrite to have
      written the quoted new paths into those tokens. */
  lemma GoModReparses(tc: Toolchain, src: Bytes, repl: map<string, string>)
    requires FormatPrintsLines(tc) && ParseFillsFromLines(tc)
    requires AutoQuoteReadsBack(tc) && ModuleLineTakesPath(tc)
    requires MovedRequiresAccepted(tc, src, repl)
    requires RewrittenGoMod(tc, src, repl).Ok?
    ensures var out := RewrittenGoMod(tc, src, repl).value;
      && tc.parseMod(src).Ok? && tc.parseMod(out).Ok?
      && Summary(tc.parseMod(out).value) == RewrittenSummary(Summary(tc.parseMod(src).value), repl)
  {
    var f := tc.parseMod(src).value;
    if FileMoves(f, repl) {
      RewrittenModFileContents(tc, f, repl);
      RewrittenLinesAgree(tc, f, repl);
      var g := RewrittenModFile(tc, f, repl).value;
      AgreeingLinesSummary(tc, g);
      forall i | 0 <= i < |g.require|
        ensures tc.acceptsRequire(RequireLineSays(tc, g.require[i]).value.path, RequireLineSays(tc, g.require[i]).value.version)
      {
        assert g.require[i] == RewrittenRequire(tc, f.require[i], repl);
      }
    } else {
      var s, t := Summary(f), RewrittenSummary(Summary(f), repl);
      assert s.deps == t.deps by {
        forall i | 0 <= i < |s.deps| ensures s.deps[i] == t.deps[i] {
          assert !RequireMoves(f.require[i], repl);
        }
      }
    }
  }

  /** The summary of main_test.go's go.mod under {old/mod: new/mod}. */
  lemma MovedSummaryExample(version: string)
    ensures RewrittenSummary(ModSummary(Some("old/mod"), [ModVersion("old/mod" + "/" + "pkg", version)]), map["old/mod" := "new/mod"])
         == ModSummary(Some("new/mod"), [ModVersion("new/mod" + "/" + "pkg", version)])
  {
    var m := map["old/mod" := "new/mod"];
    RewritePathLongest("old/mod", m, "old/mod");
    assert "old/mod"[7..] == "";
    assert RewrittenPath("old/mod", m) == "new/mod";
    var p := "old/mod" + "/" + "pkg";
    assert Matches("old/mod", p, false) by {
      assert p[..8] == "old/mod" + "/";
    }
    RewritePathLongest(p, m, "old/mod");
    assert p[7..] == "/" + "pkg";
    assert RewrittenPath(p, m) == "new/mod" + "/" + "pkg";
    var s := ModSummary(Some("old/mod"), [ModVersion(p, version)]);
    var t := RewrittenSummary(s, m);
    assert t.modulePath == Some("new/mod");
    assert t.deps[0] == ModVersion("new/mod" + "/" + "pkg", version);
  }

  /** main_test.go: `module old/mod` requiring `old/mod/pkg` becomes `module new/mod` requiring
      `new/mod/pkg` at the same version under {old/mod: new/mod}. */
  lemma GoModExample(tc: Toolchain, src: Bytes, f: ModFile, version: string)
    requires tc.parseMod(src) == Ok(f)
    requires Summary(f) == ModSummary(Some("old/mod"), [ModVersion("old/mod" + "/" + "pkg", version)])
    requires FormatPrintsLines(tc) && ParseFillsFromLines(tc)
    requires AutoQuoteReadsBack(tc) && ModuleLineTakesPath(tc)
    requires tc.acceptsRequire("new/mod" + "/" + "pkg", version)
    requires RewrittenGoMod(tc, src, map["old/mod" := "new/mod"]).Ok?
    ensures var out := RewrittenGoMod(tc, src, map["old/mod" := "new/mod"]).value;
      tc.parseMod(out).Ok? &&
      Summary(tc.parseMod(out).value) == ModSummary(Some("new/mod"), [ModVersion("new/mod" + "/" + "pkg", version)])
  {
    MovedSummaryExample(version);
    MovedRequireAcceptedExample(tc, src, f, version);
    GoModReparses(tc, src, map["old/mod" := "new/mod"]);
  }

  /** The one require of main_test.go's go.mod, moved, is accepted when its new path and version are. */
  lemma MovedRequireAcceptedExample(tc: Toolchain, src: Bytes, f: ModFile, version: string)
    requires tc.parseMod(src) == Ok(f)
    requires Summary(f) == ModSummary(Some("old/mod"), [ModVersion("old/mod" + "/" + "pkg", version)])
    requires tc.acceptsRequire("new/mod" + "/" + "pkg", version)
    ensures MovedRequiresAccepted(tc, src, map["old/mod" := "new/mod"])
  {
    MovedSummaryExample(version);
    var m := map["old/mod" := "new/mod"];
    var s := RewrittenSummary(Summary(f), m);
    assert RewrittenPath(f.require[0].path, m) == s.deps[0].path;
  }
}
