/**
 * Abstract models of the Go libraries the rewrite engine calls but does not define:
 * golang.org/x/mod/modfile (parse, format, AutoQuote, AddModuleStmt), go/parser with
 * go/format, strconv.Quote/Unquote, and archive/zip. Their records keep only the fields the
 * engine reads or writes; their operations are the fields of a `Toolchain`, about which
 * nothing is assumed unless a lemma says so.
 */
module Foreign {
  import opened Wrappers

  newtype byte = b: int | 0 <= b < 0x100
  newtype uint16 = n: int | 0 <= n < 0x1_0000

  type Bytes = seq<byte>

  /** The `module` statement of a go.mod: its path and the tokens of its line. */
  datatype ModuleStmt = ModuleStmt(path: string, tokens: seq<string>)

  /** A `require` line: the module path and version, whether it sits inside a `require ( … )`
      block, the tokens of its line, and the tokens of its trailing comments. */
  datatype Require = Require(
    path: string,
    version: string,
    inBlock: bool,
    tokens: seq<string>,
    suffix: seq<string>)

  datatype Exclude = Exclude(path: string, version: string)

  datatype Replace = Replace(oldPath: string, oldVersion: string, newPath: string, newVersion: string)

  /** A parsed go.mod. `other` stands for the go, toolchain and retract directives. */
  datatype ModFile = ModFile(
    moduleStmt: Option<ModuleStmt>,
    require: seq<Require>,
    exclude: seq<Exclude>,
    replace: seq<Replace>,
    other: seq<string>)

  /** A parsed Go source file: the quoted literals of its import specs, in order, and the rest of
      its syntax tree. */
  datatype GoFile = GoFile(imports: seq<string>, other: seq<string>)

  /** A member of an archive as the reader sees it; `data` is what opening and reading it gives. */
  datatype ZipEntry = ZipEntry(name: string, compression: uint16, data: Result<Bytes>)

  /** A member as written to a new archive: a header with name and compression method, then its bytes. */
  datatype ZipMember = ZipMember(name: string, compression: uint16, data: Bytes)

  datatype Toolchain = Toolchain(
    parseMod: Bytes -> Result<ModFile>,                           // modfile.Parse
    formatMod: ModFile -> Result<Bytes>,                          // (*modfile.File).Format
    autoQuote: string -> string,                                  // modfile.AutoQuote
    readToken: string -> Option<string>,                          // the string a go.mod token denotes
    acceptsRequire: (string, string) -> bool,                     // modfile's check that a version fits its path's major version
    moduleTokens: (seq<string>, string) -> Result<seq<string>>,   // line update of AddModuleStmt
    parseGo: Bytes -> Result<GoFile>,                             // parser.ParseFile
    formatGo: GoFile -> Result<Bytes>,                            // format.Node
    quote: string -> string,                                      // strconv.Quote
    unquote: string -> Option<string>,                            // strconv.Unquote
    readZip: Bytes -> Result<seq<ZipEntry>>,                      // zip.NewReader
    createHeader: (string, uint16) -> Option<Error>,              // (*zip.Writer).CreateHeader's refusal
    writeZip: seq<ZipMember> -> Result<Bytes>)                    // the written members, then Close

  /** (*modfile.File).AddModuleStmt on a file that has a module statement: the statement takes
      the new path, and its line is updated by the library. */
  function AddModuleStmt(tc: Toolchain, m: ModuleStmt, path: string): (r: Result<ModuleStmt>)
    ensures r.Ok? ==> r.value.path == path
    ensures r.Err? <==> tc.moduleTokens(m.tokens, path).Err?
  {
    match tc.moduleTokens(m.tokens, path)
    case Err(e) => Err(e)
    case Ok(tokens) => Ok(ModuleStmt(path, tokens))
  }
}
