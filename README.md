# goclone rewrite engine in Dafny

goclone is a Go module proxy. It re-publishes modules from an upstream proxy under
`host/<path>`, and can isolate a clone under `host/_segment/<path>`. While doing so it rewrites
every self-reference in what it serves:
- the module path and require lines of `go.mod`;
- the import paths of every `.go` file;
- the member names of the module archive;
- the paths of dependencies whose require line is marked `goclone:recursive`.

This project models that rewrite engine (`main.go`) and proves what it promises. The modules,
leaves first:

- `GoStrings`: the Go `strings` and `path` operations the engine uses (`HasPrefix`,
  `TrimPrefix`, `Index`, `SplitN(·,·,2)`, `Replace(·,·,·,1)`, `path.Base`), with their
  meaning stated.
- `Foreign`: the libraries the engine calls but does not define, as records and as the fields
  of a `Toolchain` value about which nothing is assumed. These are `modfile`, `go/parser` with
  `go/format`, `strconv.Quote`/`Unquote` and `archive/zip`. Lemmas that need a library to
  behave (the go.mod printer prints each line's tokens, `Unquote` inverts `Quote`, a written
  archive reads back) take that as a hypothesis.
- `PathRewrite`: `rewritePath` and `rewriteFileName`.
  - Both loops are one method, `BestKey`, proved against a reference definition,
    `LongestMatch`: the longest non-empty key that matches at a segment boundary.
- `ProxyPath`: `parseProxyPath`, the isolation segment, and the two pure decisions of
  `proxyHandler`: prefix trimming and the `.zip`/`.mod`/passthrough dispatch.
- `Replacements`: `recursiveDeps` and `makeReplacements`. The public host is a parameter.
- `GoMod`: `rewriteGoMod`.
- `GoImports`: `rewriteGoImports`.
- `Results`: the "stop at the first error" loop shape of `rewriteZip`.
- `Search`: the "stop at the first match" loop shape of `extractGoModFromZip`.
- `ModExtract`: `extractGoModFromZip`.
- `Archive`: `rewriteZip`.

Every loop of the source is a method with its invariants. Each method's postcondition ties its
result to a specification function. The properties are stated and proved about those functions.

## Model

| member | source | states |
|---|---|---|
| GoStrings.TrimPrefix | main.go:69 | strings.TrimPrefix: if `s` starts with the prefix, `s` is prefix + result; otherwise the result is `s` |
| GoStrings.IndexFrom | main.go:84 | the first occurrence of `sub` at or after `i`, or -1, and no occurrence before it |
| GoStrings.Index | main.go:84 | strings.Index: -1 or an occurrence, with no occurrence before it |
| GoStrings.IndexIsNegativeIffAbsent | main.go:84 | Index is -1 exactly when the substring does not occur |
| GoStrings.SplitN2 | main.go:279 | strings.SplitN(s, sep, 2): one part (`s` itself) iff sep does not occur; otherwise `s` = first + sep + second, with no occurrence of sep inside the first part |
| GoStrings.ReplaceFirst | main.go:84 | strings.Replace(s, old, new, 1): `s` itself when `old` does not occur; otherwise the first occurrence of `old` is replaced and everything around it kept |
| GoStrings.ReplaceFirstOfPrefix | main.go:84 | strings.Replace(s, old, new, 1) on an `s` that starts with `old` replaces that prefix |
| GoStrings.TrimTrailingSlashesShape | main.go:140 | removing trailing slashes keeps a prefix of the path that does not end in '/', and removes only slashes |
| GoStrings.LastSlash | main.go:140 | the position found is -1 or the index of a '/' in the string |
| GoStrings.Base | main.go:140 | path.Base never returns the empty string |
| GoStrings.LastSlashIsLast | main.go:140 | no '/' follows the last slash found |
| GoStrings.NoSlashAfterLast | main.go:140 | what follows the last slash holds no '/' |
| GoStrings.AfterLastSlash | main.go:140 | what follows the last slash is a '/'-free suffix that is the whole string or is preceded by that '/' |
| GoStrings.BaseIsLastElement | main.go:140 | path.Base of a path that is not all slashes is a suffix of the path without trailing slashes, contains no '/', and is either that whole trimmed path or follows a '/' in it |
| GoStrings.BaseSpecialCases | main.go:140 | path.Base is "." for the empty path, and is "/" exactly for a non-empty path made only of slashes |
| GoStrings.BaseOfJoin | main.go:140 | the base of `dir/file` and of `file` is `file` |
| GoStrings.LastSlashAfter | main.go:140 | the last '/' of `head + tail` is that of `head` when `tail` has none |
| Foreign.AddModuleStmt | main.go:189-192 | on success the module statement carries the new path; it fails exactly when the library's line update fails |
| PathRewrite.MatchesAt | main.go:60 | a key matches exactly when it is a prefix of the path ending at the path's end or at a '/' |
| PathRewrite.MatchesSameLength | main.go:59-64 | two matching keys of the same length are equal, so the selected key does not depend on map iteration order |
| PathRewrite.LongestMatchUpTo | main.go:58-65 | a key found among prefixes of length at most n is a non-empty key of the map, at most n long, that matches |
| PathRewrite.LongestMatchUpToIsLongest | main.go:58-65 | every matching key of length at most n is found or shorter than the one found |
| PathRewrite.LongestMatch | main.go:58-65 | the selected key is a non-empty key of the map that matches, so the empty key is never chosen |
| PathRewrite.LongestMatchIsLongest | main.go:58-65 | every matching non-empty key is selected or no longer than the selected key, so nothing is selected only when no non-empty key matches |
| PathRewrite.BestKey | main.go:58-80 | whatever order the map is visited in, the loop ends with the longest matching key, or "" when there is none |
| PathRewrite.RewritePath | main.go:57-70 | rewritePath returns the reference result `RewrittenPath` |
| PathRewrite.RewriteFileName | main.go:72-85 | rewriteFileName returns the reference result `RewrittenFileName` ('@' is also a boundary) |
| PathRewrite.RewritePathIdentity | main.go:66-68 | identity law: a path that no non-empty key matches at a segment boundary is returned unchanged |
| PathRewrite.RewritePathLongest | main.go:69 | when `k` is the longest matching key, the result is `repl[k] + p[len(k):]` |
| PathRewrite.RewriteFileNameLongest | main.go:81-84 | when `k` is the longest key matching the file name, the result is `repl[k] + name[len(k):]` |
| PathRewrite.RewriteFileNameIsPrefixSubstitution | main.go:81-84 | rewriteFileName's first-occurrence Replace is always a substitution of the selected prefix |
| PathRewrite.SubpathMoves | main.go:57-70 | `k/sub` becomes `repl[k]/sub` when no longer key matches it |
| PathRewrite.MatchesVersionedRoot | main.go:75 | a key without '@' matches `mod@tail` as a file name iff it matches `mod` as a path |
| PathRewrite.SameMatchesSameKey | main.go:58-80 | two inputs that exactly the same keys match select the same key |
| PathRewrite.VersionedRootSameKey | main.go:73-80 | `mod@tail` and `mod` select the same key when neither the module path nor the keys contain '@' |
| PathRewrite.FileNameFollowsModulePath | main.go:72-85 | an archive member `mod@tail` is renamed to `rewritePath(mod)@tail` |
| PathRewrite.MovedPathExample | main_test.go:16-33 | `old/mod/pkg` under {old/mod: new/mod} becomes `new/mod/pkg` |
| PathRewrite.SubstringNotMatchedExample | main_test.go:46-55 | `somethingelse/old/mod/pkg` is not rewritten by the key `old/mod` |
| PathRewrite.PartialSegmentExample | main.go:60 | under {a/b: x}, `a/b/c` becomes `x/c` and `a/bc` is unchanged |
| PathRewrite.ArchiveMemberExample | main_test.go:164-203 | `old/mod@v1.0.0/foo.go` becomes `example.com/_two/old/mod@v1.0.0/foo.go` |
| ProxyPath.ParseProxyPath | main.go:278-294 | fails when the path has no `/@v/`; on success the path is userPath + `/@v/` + rest, split at the first `/@v/` |
| ProxyPath.ParseProxyPathRefuses | main.go:278-294 | parseProxyPath refuses exactly the paths without `/@v/` and those whose user path starts with '_' but has no '/' or has the reserved segment `_mod` |
| ProxyPath.ContainsSlash | main.go:287-288 | the substring "/" occurs iff the character '/' does |
| ProxyPath.IsolationSegment | main.go:164-170 | there is a segment iff the user path starts with '_' and contains '/'; it is then the '_'-prefixed first element |
| ProxyPath.ParsedUpstream | main.go:285-292 | the upstream path is the user path itself, or what follows an isolation segment other than `_mod` |
| ProxyPath.SplitAtFirst | main.go:279-287 | SplitN at a separator that does not occur earlier gives back both sides |
| ProxyPath.SeparatorAfterModulePath | main.go:279-284 | `/@v/` cannot start inside a path without '@', so the split happens right after it |
| ProxyPath.SlashAfterSegment | main.go:287 | a segment without '/' is split off at the first '/' |
| ProxyPath.ParsePlainPath | main.go:283-285 | a plain module path is its own upstream path |
| ProxyPath.ParseIsolatedPath | main.go:286-292 | `_seg/up/@v/rest` parses to (`_seg/up`, `up`, `rest`) |
| ProxyPath.ParseReservedSegment | main.go:288-290 | a user path starting with the reserved `_mod/` is refused |
| ProxyPath.ParseBareSegment | main.go:287-290 | a '_'-prefixed user path without a second element is refused |
| ProxyPath.ParseExample | main_test.go:228-235 | `_two/golang.org/x/text/@v/list` parses to (`_two/golang.org/x/text`, `golang.org/x/text`, `list`) |
| ProxyPath.TrimRequest | main.go:297-298 | the trimmed path is a suffix of the request path; a path with neither prefix is kept as it is |
| ProxyPath.TrimRequestOfHostedModule | main.go:297-298 | `/_mod/host/path` is trimmed to `path` |
| ProxyPath.EndpointOf | main.go:320-341 | an archive request iff the path ends in `.zip`, a manifest request iff it ends in `.mod`, passthrough iff neither |
| ProxyPath.SuffixesExclusive | main.go:320-341 | no path ends in both `.zip` and `.mod`, so the order of the suffix tests is immaterial |
| ProxyPath.EndpointFollowsOperation | main.go:320 | the dispatch on the whole trimmed path is the dispatch on the operation after `/@v/` |
| Replacements.AnnotatedPaths | main.go:122-130 | at most one entry per require; `d` is selected iff some require with path `d` has a trailing comment containing `goclone:recursive` |
| Replacements.AnnotatedPathsConcat | main.go:123-130 | selection keeps require order: the selection of a concatenation is the concatenation of the selections |
| Replacements.RecursiveDeps | main.go:117-132 | a parse error is returned; otherwise the annotated require paths, in order (the inner loop stops at the first marked comment) |
| Replacements.FindIsolationSegment | main.go:164-170 | the `prefix` makeReplacements computes is the isolation segment of the user path |
| Replacements.ReplacementMapShape | main.go:156-179 | the keys are exactly the upstream path and the dependencies; each dependency maps to its target; the upstream path maps to `host/userPath` unless it is also a dependency |
| Replacements.ReplacementMapStep | main.go:171-177 | each loop iteration adds or overrides one entry |
| Replacements.MakeReplacements | main.go:156-179 | makeReplacements returns the reference map, or the parse error |
| Replacements.IsolatedTargetsDiffer | main.go:172-175 | different isolation segments publish a dependency at different paths |
| Replacements.IsolatedClonesDoNotCollide | main.go:164-177 | two clones with different isolation segments never relocate a shared recursive dependency to the same path |
| Replacements.DependencyPathsFollow | main.go:171-177 | a package path inside a relocated dependency moves with it when no longer key claims it |
| Replacements.RecursiveCloneExample | e2e_test.go:243-259 | for `_bt/example.com/b` with recursive `example.com/a`, `example.com/a/pkg` becomes `goclone.example.com/_bt/example.com/a/pkg` |
| GoMod.FixTokens | main.go:200-213 | an in-block require gets the quoted path at token 0 and the version at token 1; a single-line require at 1 and 2; only tokens the line has are touched |
| GoMod.RewriteRequire | main.go:197-215 | the require after the rewrite, and whether its path moved |
| GoMod.RewriteRequires | main.go:196-217 | the loop rewrites every require line in order, and `changed` is set iff some require path moved |
| GoMod.RewriteGoMod | main.go:181-226 | rewriteGoMod returns the reference result: parse or AddModuleStmt errors, the input bytes when nothing moved, otherwise the printed edited file |
| GoMod.RewrittenModFileContents | main.go:186-216 | module and require paths are moved, versions, blocks and comments kept, and exclude, replace and other directives untouched |
| GoMod.GoModUnrelatedMapIsNoOp | main.go:217-219 | byte-identical output when no key matches the module path or any require path |
| GoMod.RewrittenRequireAgrees | main.go:197-213 | a require line whose tokens said its path and version still says them after the rewrite: the quoted new path and the version sit where a reader takes them from |
| GoMod.RewrittenLinesAgree | main.go:186-216 | every line of the edited file says what its record holds when the parsed ones did |
| GoMod.AgreeingLinesSummary | main.go:220-223 | lines that agree with their records print as the records' paths and versions |
| GoMod.GoModReparses | main.go:181-226 | if the printer prints each line's tokens, the parser fills records from tokens, AutoQuote reads back, AddModuleStmt writes the quoted path after `module`, and the parser accepts each moved require's version for its new path, the output parses to the moved module path and require paths with the same versions |
| GoMod.MovedSummaryExample | main_test.go:57-73 | the go.mod of the test moves to `new/mod` requiring `new/mod/pkg` |
| GoMod.MovedRequireAcceptedExample | main_test.go:57-73 | the test's require, moved to `new/mod/pkg`, is accepted when that path and version are |
| GoMod.GoModExample | main_test.go:57-73 | rewriteGoMod on that go.mod reads back as `module new/mod` requiring `new/mod/pkg`, under the same hypotheses |
| GoImports.RewriteImport | main.go:95-103 | one import: no result iff the literal does not unquote; otherwise the quoted moved path, or the literal as it was, and whether it moved |
| GoImports.RewriteImportLiterals | main.go:93-104 | the loop: it stops iff some literal does not unquote; otherwise it gives every literal rewritten, and `changed` iff some import moved |
| GoImports.RewriteGoImports | main.go:87-113 | rewriteGoImports returns the reference result: parse error, syntax error, the input bytes when nothing moved, or the printed edited file |
| GoImports.GoImportsUnrelatedMapIsNoOp | main.go:105-107 | byte-identical output when no key matches any import path |
| GoImports.MalformedImportFails | main.go:95-98 | a literal that does not unquote yields "invalid syntax" |
| GoImports.RewrittenImportPaths | main.go:93-104 | the rewritten literals denote exactly the original import paths moved under the map |
| GoImports.GoImportsReparse | main.go:87-113 | given quote/unquote round trips and a printer that keeps the set of import paths (it sorts and drops duplicates), the output imports exactly the original paths moved under the map |
| GoImports.MovedImportPathsExample | main_test.go:16-33 | the paths {"fmt", "old/mod/pkg"} move to {"fmt", "new/mod/pkg"} |
| GoImports.GoImportsExample | main_test.go:16-33 | the file importing "fmt" and "old/mod/pkg" reads back importing exactly "fmt" and "new/mod/pkg" |
| GoImports.GoImportsSubstringExample | main_test.go:46-55 | a file importing `somethingelse/old/mod/pkg` comes back byte for byte |
| Results.MapUntilError | main.go:234-272 | a loop that returns at the first error: succeeds iff every step does, with one result per element in order; otherwise fails with the error of the first failing step |
| Results.MapUntilErrorStep | main.go:234-272 | one more iteration extends the results or fails with that step's error |
| Results.ErrorOfPrefix | main.go:234-272 | once a prefix has failed, the whole loop fails with the same error |
| Search.FirstFrom | main.go:139-152 | the first element from a position on that has the property; none iff no such element exists |
| ModExtract.FindGoMod | main.go:139-152 | the search loop finds the first member whose base name is go.mod, or none iff there is none |
| ModExtract.ExtractGoModFromZip | main.go:134-154 | the reader's error, that member's content (or its read error), or "go.mod not found" |
| ModExtract.ExtractFirstGoMod | main.go:139-151 | an archive whose first member is `mod@version/go.mod` yields that member |
| Archive.RewriteMember | main.go:234-272 | one member: read error, content rewritten by kind (`.go` first, then go.mod, else copied), name moved, header refusal, then the write: the writer records Store as the method of a directory (a name ending in '/') and refuses a directory with content |
| Archive.RewriteZip | main.go:228-276 | rewriteZip returns the reference result: every member rewritten in order and then written, or the first error |
| Archive.ZipMembersRewritten | main.go:228-276 | one written member per original, in order, with moved name, same compression method (Store for a directory) and rewritten content, empty for a directory |
| Archive.DirectoryWithDataFails | main.go:264-267 | a member whose moved name ends in '/' and whose content is not empty fails with "zip: write to directory" |
| Archive.ZipAbortsOnMemberError | main.go:234-272 | all or nothing: the first failing member's error is the result and no archive is written |
| Archive.ZipReadBack | main_test.go:97-135 | if the archive library reads back the members it lets be written (directories stored and empty), the new archive has the same members in order, renamed, same method (Store for a directory), rewritten content |
| Archive.OtherMembersCopied | main.go:243-270 | a member that is neither Go source nor go.mod keeps its bytes, unless it is a directory with bytes, which the writer refuses |

## Left out

- HTTP plumbing of proxyHandler (main.go:296-362) is left out: the upstream fetch, copying
  headers, deleting Content-Encoding, setting Content-Length and streaming. It is network I/O;
  only its prefix trimming and suffix dispatch are modelled (`ProxyPath.TrimRequest`,
  `ProxyPath.EndpointOf`).
- vanityHandler, indexHandler, the Lambda adapter and `main` are left out. They are fixed HTML,
  transport translation and flag parsing. The `-host` flag is a parameter instead.
- The byte formats of go.mod, Go source and zip are left out, as are the parsers, printers and
  compressors of `modfile`, `go/parser`, `go/format`, `strconv` and `archive/zip`. They are
  uninterpreted fields of `Foreign.Toolchain`.
- Foreign.AddModuleStmt: models only the case the engine reaches, a file that already has a
  module statement. The library's update of the statement's tokens is uninterpreted;
  GoMod.GoModReparses assumes it puts the auto-quoted path after the `module` keyword. A
  `module` statement written inside a parenthesised block is not modelled.
- Archive I/O is coarser than the source: opening and reading a member is one `Result` per member (`ZipEntry.data`).
  `CreateHeader`'s refusal is a function of the header. Writing a member's content fails only
  for a directory (a name ending in '/') given data, which `Archive.RewrittenMember` models;
  other writes go into an in-memory buffer, so they and `Close` are one `writeZip` step at the
  end.
- Zip metadata other than name and compression method is left out: the source drops it when it
  writes the new header.
- Every `strconv.Unquote` failure is reported as its syntax error, which is the only error it
  returns.
- GoMod.GoModReparses, GoImports.GoImportsReparse, Archive.ZipReadBack: the read-back
  properties hold under the stated hypotheses about the foreign libraries. The model
  cannot prove those hypotheses. For go.mod the printer is only assumed to print each line's
  tokens, so the proof depends on the rewrite updating those tokens.
- GoMod.GoModReparses: holds only when the parser accepts every moved require. modfile checks
  that a version fits the major version its path implies, and moving a path can break that:
  `gopkg.in/yaml.v2 v2.4.0`, marked `goclone:recursive`, becomes a require of
  `host/gopkg.in/yaml.v2`, where `.v2` no longer counts as a major version. The printed go.mod
  then does not parse again. rewriteGoMod itself does not check this, so the proxy serves such
  a go.mod; gopkg.in modules at major version 2 or above cannot be relocated usefully.
- GoImports.GoImportsReparse: does not promise the order or number of the imports read back.
  go/format sorts the specs of each parenthesised import block and drops exact duplicates, so
  only the set of import paths is kept.
- Concurrency between requests is left out: every operation here is request-scoped and pure.

Two behaviours of the code that a reader might not expect:
- The code rewrites only the module path and the require paths of a go.mod. It does not touch
  `exclude` or `replace` directives. The model follows this: `GoMod.RewrittenModFileContents`
  states that they are kept.
- For `.mod` and `.zip` requests, an upstream error status is not passed through unchanged. The
  body is parsed and rewritten like any other, and a parse failure is answered with 500 or 502.
  This belongs to the HTTP plumbing left out above; the model only shows that the dispatch
  (`ProxyPath.EndpointOf`) looks at the path alone, never at the status.
