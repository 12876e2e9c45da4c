/**
 * rewriteGoImports: move the import paths of one Go source file under the replacement map,
 * keeping the original bytes when no import moves.
 */
module GoImports {
  import opened Wrappers
  import opened Foreign
  import opened PathRewrite

  /** The error strconv.Unquote reports for a malformed literal. */
  const ErrSyntax := Error("invalid syntax")

  /** Every import literal of the file is a well-formed Go string literal. */
  predicate Unquotable(tc: Toolchain, lits: seq<string>) {
    forall i | 0 <= i < |lits| :: tc.unquote(lits[i]).Some?
  }

  /** The import path behind a literal moves under the map. */
  predicate ImportMoves(tc: Toolchain, lit: string, repl: map<string, string>) {
    tc.unquote(lit).Some? && RewrittenPath(tc.unquote(lit).value, repl) != tc.unquote(lit).value
  }

  /** An import literal after the rewrite: the quoted moved path, or the literal as it was. */
  function RewrittenLiteral(tc: Toolchain, lit: string, repl: map<string, string>): string
    requires tc.unquote(lit).Some?
  {
    var p := tc.unquote(lit).value;
    var q := RewrittenPath(p, repl);
    if q != p then tc.quote(q) else lit
  }

  /** What rewriteGoImports returns. */
  function RewrittenGoSource(tc: Toolchain, src: Bytes, repl: map<string, string>): Result<Bytes> {
    match tc.parseGo(src)
    case Err(e) => Err(e)
    case Ok(f) =>
      if !Unquotable(tc, f.imports) then Err(ErrSyntax)
      else if !exists i | 0 <= i < |f.imports| :: ImportMoves(tc, f.imports[i], repl) then Ok(src)
      else tc.formatGo(f.(imports := RewrittenLiterals(tc, f.imports, repl)))
  }

  /** The body of the source's loop over the imports: None when the literal does not unquote,
      otherwise the literal after the rewrite and whether its path moved. */
  method RewriteImport(tc: Toolchain, lit: string, repl: map<string, string>) returns (r: Option<string>, moved: bool)
    ensures r.None? <==> tc.unquote(lit).None?
    ensures r.Some? ==> r.value == RewrittenLiteral(tc, lit, repl) && (moved <==> ImportMoves(tc, lit, repl))
  {
    var path := tc.unquote(lit);
    if path.None? {
      return None, false;
    }
    var newPath := RewritePath(path.value, repl);
    if newPath != path.value {
      return Some(tc.quote(newPath)), true;
    }
    return Some(lit), false;
  }

  /** The import literals after the rewrite. */
  function RewrittenLiterals(tc: Toolchain, lits: seq<string>, repl: map<string, string>): seq<string>
    requires Unquotable(tc, lits)
  {
    seq(|lits|, i requires 0 <= i < |lits| => RewrittenLiteral(tc, lits[i], repl))
  }

  /** The loop of rewriteGoImports: each literal is unquoted, its path moved and the moved path
      quoted back in place, with a `changed` flag; the first literal that does not unquote stops
      the loop (None). */
  method RewriteImportLiterals(tc: Toolchain, lits: seq<string>, repl: map<string, string>)
    returns (r: Option<seq<string>>, changed: bool)
    ensures r.None? <==> !Unquotable(tc, lits)
    ensures r.Some? ==> r.value == RewrittenLiterals(tc, lits, repl)
    ensures r.Some? ==> (changed <==> exists j | 0 <= j < |lits| :: ImportMoves(tc, lits[j], repl))
  {
    var imports := lits;
    changed := false;
    var i := 0;
    while i < |imports|
      invariant 0 <= i <= |imports| == |lits|
      invariant forall j | 0 <= j < i :: tc.unquote(lits[j]).Some?
      invariant forall j | 0 <= j < i :: imports[j] == RewrittenLiteral(tc, lits[j], repl)
      invariant forall j | i <= j < |imports| :: imports[j] == lits[j]
      invariant changed <==> exists j | 0 <= j < i :: ImportMoves(tc, lits[j], repl)
    {
      var lit, moved := RewriteImport(tc, lits[i], repl);
      if lit.None? {
        return None, changed;
      }
      imports := imports[i := lit.value];
      changed := changed || moved;
      i := i + 1;
    }
    assert imports == RewrittenLiterals(tc, lits, repl);
    return Some(imports), changed;
  }

  /** rewriteGoImports: a literal that does not unquote ends the rewrite with strconv's syntax
      error; the file is reprinted only when some import moved. */
  method RewriteGoImports(tc: Toolchain, src: Bytes, repl: map<string, string>) returns (r: Result<Bytes>)
    ensures r == RewrittenGoSource(tc, src, repl)
  {
    var parsed := tc.parseGo(src);
    if parsed.Err? {
      return Err(parsed.error);
    }
    var f := parsed.value;
    var imports, changed := RewriteImportLiterals(tc, f.imports, repl);
    if imports.None? {
      return Err(ErrSyntax);
    }
    if !changed {
      return Ok(src);
    }
    r := tc.formatGo(f.(imports := imports.value));
  }

  /** Byte-identical no-op: when every import is well formed and no non-empty key matches any
      import path at a segment boundary, the output is the input. */
  lemma GoImportsUnrelatedMapIsNoOp(tc: Toolchain, src: Bytes, repl: map<string, string>)
    requires tc.parseGo(src).Ok?
    requires var f := tc.parseGo(src).value;
      && Unquotable(tc, f.imports)
      && forall i, k | 0 <= i < |f.imports| && k in repl && k != "" :: !Matches(k, tc.unquote(f.imports[i]).value, false)
    ensures RewrittenGoSource(tc, src, repl) == Ok(src)
  {
    var f := tc.parseGo(src).value;
    forall i | 0 <= i < |f.imports|
      ensures !ImportMoves(tc, f.imports[i], repl)
    {
      RewritePathIdentity(tc.unquote(f.imports[i]).value, repl);
    }
  }

  /** A literal that does not unquote is reported as a syntax error, whatever the map. */
  lemma MalformedImportFails(tc: Toolchain, src: Bytes, repl: map<string, string>, i: nat)
    requires tc.parseGo(src).Ok? && i < |tc.parseGo(src).value.imports|
    requires tc.unquote(tc.parseGo(src).value.imports[i]).None?
    ensures RewrittenGoSource(tc, src, repl) == Err(ErrSyntax)
  {
  }

  /** Go's quoting round-trips. */
  ghost predicate QuoteRoundTrips(tc: Toolchain) {
    forall s :: tc.unquote(tc.quote(s)) == Some(s)
  }

  /** The import paths the literals denote: those that unquote. */
  function ImportPaths(tc: Toolchain, lits: seq<string>): set<string> {
    set i | 0 <= i < |lits| && tc.unquote(lits[i]).Some? :: tc.unquote(lits[i]).value
  }

  /** The printer keeps the import paths it is given. go/format sorts the specs of each
      parenthesised import block and drops exact duplicates, so neither order nor count is
      kept: only the set of paths. */
  ghost predicate FormatKeepsImportPaths(tc: Toolchain) {
    forall g | tc.formatGo(g).Ok? && Unquotable(tc, g.imports) ::
      && tc.parseGo(tc.formatGo(g).value).Ok?
      && Unquotable(tc, tc.parseGo(tc.formatGo(g).value).value.imports)
      && ImportPaths(tc, tc.parseGo(tc.formatGo(g).value).value.imports) == ImportPaths(tc, g.imports)
  }

  /** The rewritten literals denote exactly the paths of the original ones moved under the map. */
  lemma RewrittenImportPaths(tc: Toolchain, lits: seq<string>, repl: map<string, string>)
    requires QuoteRoundTrips(tc) && Unquotable(tc, lits)
    ensures Unquotable(tc, RewrittenLiterals(tc, lits, repl))
    ensures ImportPaths(tc, RewrittenLiterals(tc, lits, repl))
         == set p | p in ImportPaths(tc, lits) :: RewrittenPath(p, repl)
  {
    var out := RewrittenLiterals(tc, lits, repl);
    forall i | 0 <= i < |lits|
      ensures tc.unquote(out[i]) == Some(RewrittenPath(tc.unquote(lits[i]).value, repl))
    {
    }
    var a, b := ImportPaths(tc, out), set p | p in ImportPaths(tc, lits) :: RewrittenPath(p, repl);
    forall q | q in a ensures q in b {
      var i :| 0 <= i < |out| && tc.unquote(out[i]).Some? && tc.unquote(out[i]).value == q;
      assert tc.unquote(lits[i]).value in ImportPaths(tc, lits);
    }
    forall q | q in b ensures q in a {
      var p :| p in ImportPaths(tc, lits) && q == RewrittenPath(p, repl);
      var i :| 0 <= i < |lits| && tc.unquote(lits[i]).Some? && tc.unquote(lits[i]).value == p;
      assert tc.unquote(out[i]).value == q;
    }
  }

  /** Reading back what rewriteGoImports produced gives every import path moved under the map,
      and no other path. */
  lemma GoImportsReparse(tc: Toolchain, src: Bytes, repl: map<string, string>)
    requires QuoteRoundTrips(tc) && FormatKeepsImportPaths(tc)
    requires RewrittenGoSource(tc, src, repl).Ok?
    ensures var out := RewrittenGoSource(tc, src, repl).value;
      var before := tc.parseGo(src).value.imports;
      && Unquotable(tc, before)
      && tc.parseGo(out).Ok?
      && var after := tc.parseGo(out).value.imports;
      && Unquotable(tc, after)
      && ImportPaths(tc, after) == set p | p in ImportPaths(tc, before) :: RewrittenPath(p, repl)
  {
    var f := tc.parseGo(src).value;
    if exists i | 0 <= i < |f.imports| :: ImportMoves(tc, f.imports[i], repl) {
      RewrittenImportPaths(tc, f.imports, repl);
    } else {
      var a, b := ImportPaths(tc, f.imports), set p | p in ImportPaths(tc, f.imports) :: RewrittenPath(p, repl);
      forall q | q in a ensures q in b && RewrittenPath(q, repl) == q {
        var i :| 0 <= i < |f.imports| && tc.unquote(f.imports[i]).Some? && tc.unquote(f.imports[i]).value == q;
        assert !ImportMoves(tc, f.imports[i], repl);
      }
      forall q | q in b ensures q in a {
        var p :| p in a && q == RewrittenPath(p, repl);
      }
    }
  }

  /** The paths of main_test.go's imports under {old/mod: new/mod}. */
  lemma MovedImportPathsExample()
    ensures (set p | p in {"fmt", "old/mod/pkg"} :: RewrittenPath(p, map["old/mod" := "new/mod"]))
         == {"fmt", "new/mod/pkg"}
  {
    var m := map["old/mod" := "new/mod"];
    MovedPathExample();
    RewritePathIdentity("fmt", m);
    var moved := set p | p in {"fmt", "old/mod/pkg"} :: RewrittenPath(p, m);
    assert RewrittenPath("fmt", m) in moved;
    assert RewrittenPath("old/mod/pkg", m) in moved;
  }

  /** The paths of two well-formed literals. */
  lemma ImportPathsOfPair(tc: Toolchain, a: string, b: string)
    requires tc.unquote(a).Some? && tc.unquote(b).Some?
    ensures ImportPaths(tc, [a, b]) == {tc.unquote(a).value, tc.unquote(b).value}
  {
    var lits := [a, b];
    assert tc.unquote(lits[0]).value in ImportPaths(tc, lits);
    assert tc.unquote(lits[1]).value in ImportPaths(tc, lits);
  }

  /** main_test.go: with the imports "fmt" and "old/mod/pkg", the file read back imports
      "new/mod/pkg" and "fmt" and nothing else under {old/mod: new/mod}. */
  lemma GoImportsExample(tc: Toolchain, src: Bytes, fmtLit: string, pkgLit: string)
    requires QuoteRoundTrips(tc) && FormatKeepsImportPaths(tc)
    requires tc.parseGo(src).Ok? && tc.parseGo(src).value.imports == [fmtLit, pkgLit]
    requires tc.unquote(fmtLit) == Some("fmt") && tc.unquote(pkgLit) == Some("old/mod/pkg")
    requires RewrittenGoSource(tc, src, map["old/mod" := "new/mod"]).Ok?
    ensures var out := RewrittenGoSource(tc, src, map["old/mod" := "new/mod"]).value;
      && tc.parseGo(out).Ok?
      && ImportPaths(tc, tc.parseGo(out).value.imports) == {"fmt", "new/mod/pkg"}
  {
    GoImportsReparse(tc, src, map["old/mod" := "new/mod"]);
    ImportPathsOfPair(tc, fmtLit, pkgLit);
    MovedImportPathsExample();
  }

  /** main_test.go: an import that only contains a key in its middle is not rewritten, and the
      file comes back byte for byte. */
  lemma GoImportsSubstringExample(tc: Toolchain, src: Bytes, lit: string)
    requires tc.parseGo(src).Ok? && tc.parseGo(src).value.imports == [lit]
    requires tc.unquote(lit) == Some("somethingelse/old/mod/pkg")
    ensures RewrittenGoSource(tc, src, map["old/mod" := "new/mod"]) == Ok(src)
  {
    SubstringNotMatchedExample();
    assert !ImportMoves(tc, lit, map["old/mod" := "new/mod"]);
  }
}
