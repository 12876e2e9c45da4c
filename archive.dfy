/**
 * rewriteZip and extractGoModFromZip: the module archive is read member by member; every Go
 * file has its imports rewritten, every go.mod its paths, and every member name is moved under
 * the map before the member is written to the new archive.
 */
module Archive {
  import opened Wrappers
  import opened GoStrings
  import opened Foreign
  import opened PathRewrite
  import opened GoMod
  import opened GoImports
  import opened ModExtract
  import opened Results

  /** zip.Store: the method of a member that is not compressed. */
  const Store: uint16 := 0

  /** The error zip.Writer's directory writer returns when it is given data. */
  const ErrWriteToDirectory := Error("zip: write to directory")

  /** zip.Writer treats a name ending in '/' as a directory. */
  predicate IsDirectoryName(name: string) {
    HasSuffix(name, "/")
  }

  /** The method zip.Writer.CreateHeader records: Store for a directory, the requested one
      otherwise. */
  function WrittenMethod(name: string, requested: uint16): uint16 {
    if IsDirectoryName(name) then Store else requested
  }

  /** The bytes a member carries into the new archive: Go files go through rewriteGoImports
      (the `.go` suffix is tested first), files whose base name is go.mod through rewriteGoMod,
      anything else is copied. */
  function RewrittenContent(tc: Toolchain, name: string, b: Bytes, repl: map<string, string>): Result<Bytes> {
    if HasSuffix(name, ".go") then RewrittenGoSource(tc, b, repl)
    else if IsGoMod(name) then RewrittenGoMod(tc, b, repl)
    else Ok(b)
  }

  /** One turn of rewriteZip's loop: open and read the member, rewrite its content, move its
      name, create its header in the new archive (with the old compression method, which the
      writer turns into Store for a directory), and write the content, which a directory
      refuses unless it is empty. */
  function RewrittenMember(tc: Toolchain, e: ZipEntry, repl: map<string, string>): Result<ZipMember> {
    match e.data
    case Err(err) => Err(err)
    case Ok(b) =>
      match RewrittenContent(tc, e.name, b, repl)
      case Err(err) => Err(err)
      case Ok(content) =>
        var name := RewrittenFileName(e.name, repl);
        match tc.createHeader(name, e.compression)
        case Some(err) => Err(err)
        case None =>
          if IsDirectoryName(name) && content != [] then Err(ErrWriteToDirectory)
          else Ok(ZipMember(name, WrittenMethod(name, e.compression), content))
  }

  /** rewriteZip's loop body as a function value. */
  function MemberStep(tc: Toolchain, repl: map<string, string>): ZipEntry -> Result<ZipMember> {
    e => RewrittenMember(tc, e, repl)
  }

  /** All members, in archive order; the first member that fails ends the rewrite with its error. */
  function RewrittenMembers(tc: Toolchain, es: seq<ZipEntry>, repl: map<string, string>): Result<seq<ZipMember>> {
    MapUntilError(es, MemberStep(tc, repl))
  }

  /** What rewriteZip returns. */
  function RewrittenZip(tc: Toolchain, data: Bytes, repl: map<string, string>): Result<Bytes> {
    match tc.readZip(data)
    case Err(err) => Err(err)
    case Ok(es) =>
      match RewrittenMembers(tc, es, repl)
      case Err(err) => Err(err)
      case Ok(ms) => tc.writeZip(ms)
  }

  /** One member of rewriteZip's loop. */
  method RewriteMember(tc: Toolchain, e: ZipEntry, repl: map<string, string>) returns (r: Result<ZipMember>)
    ensures r == RewrittenMember(tc, e, repl)
  {
    if e.data.Err? {
      return Err(e.data.error);
    }
    var b := e.data.value;
    if HasSuffix(e.name, ".go") {
      var rewritten := RewriteGoImports(tc, b, repl);
      if rewritten.Err? {
        return Err(rewritten.error);
      }
      b := rewritten.value;
    } else if IsGoMod(e.name) {
      var rewritten := RewriteGoMod(tc, b, repl);
      if rewritten.Err? {
        return Err(rewritten.error);
      }
      b := rewritten.value;
    }
    var name := RewriteFileName(e.name, repl);
    var refused := tc.createHeader(name, e.compression);
    if refused.Some? {
      return Err(refused.value);
    }
    if IsDirectoryName(name) && b != [] {
      return Err(ErrWriteToDirectory);
    }
    return Ok(ZipMember(name, WrittenMethod(name, e.compression), b));
  }

  /** rewriteZip: members are written to the new archive as they are read. */
  method RewriteZip(tc: Toolchain, data: Bytes, repl: map<string, string>) returns (r: Result<Bytes>)
    ensures r == RewrittenZip(tc, data, repl)
  {
    var read := tc.readZip(data);
    if read.Err? {
      return Err(read.error);
    }
    var es := read.value;
    ghost var step := MemberStep(tc, repl);
    var written: seq<ZipMember> := [];
    var i := 0;
    while i < |es|
      invariant 0 <= i <= |es|
      invariant MapUntilError(es[..i], step) == Ok(written)
    {
      var m := RewriteMember(tc, es[i], repl);
      assert step(es[i]) == m;
      MapUntilErrorStep(es, step, i, written);
      if m.Err? {
        ErrorOfPrefix(es, step, i + 1);
        return Err(m.error);
      }
      written := written + [m.value];
      i := i + 1;
    }
    assert es[..i] == es;
    r := tc.writeZip(written);
  }

  /** The rewritten archive's members, as handed to the writer: one per original member, in
      order, each under its moved name with its compression method (Store for a directory) and
      its rewritten content, which is empty for a directory. */
  lemma ZipMembersRewritten(tc: Toolchain, data: Bytes, repl: map<string, string>)
    requires RewrittenZip(tc, data, repl).Ok?
    ensures tc.readZip(data).Ok?
    ensures var es := tc.readZip(data).value;
      && RewrittenMembers(tc, es, repl).Ok?
      && var ms := RewrittenMembers(tc, es, repl).value;
      && |ms| == |es|
      && forall i | 0 <= i < |es| ::
           && es[i].data.Ok?
           && ms[i].name == RewrittenFileName(es[i].name, repl)
           && ms[i].compression == WrittenMethod(ms[i].name, es[i].compression)
           && Ok(ms[i].data) == RewrittenContent(tc, es[i].name, es[i].data.value, repl)
           && (IsDirectoryName(ms[i].name) ==> ms[i].data == [])
  {
  }

  /** A member whose moved name ends in '/' and whose content is not empty fails with the
      directory writer's error once its header is accepted. */
  lemma DirectoryWithDataFails(tc: Toolchain, e: ZipEntry, repl: map<string, string>)
    requires e.data.Ok? && RewrittenContent(tc, e.name, e.data.value, repl).Ok?
    requires IsDirectoryName(RewrittenFileName(e.name, repl))
    requires RewrittenContent(tc, e.name, e.data.value, repl).value != []
    requires tc.createHeader(RewrittenFileName(e.name, repl), e.compression).None?
    ensures RewrittenMember(tc, e, repl) == Err(ErrWriteToDirectory)
  {
  }

  /** All or nothing: when member i is the first to fail, rewriteZip fails with its error and no
      archive is produced. */
  lemma ZipAbortsOnMemberError(tc: Toolchain, data: Bytes, repl: map<string, string>, i: nat)
    requires tc.readZip(data).Ok? && i < |tc.readZip(data).value|
    requires var es := tc.readZip(data).value;
      && (forall j | 0 <= j < i :: RewrittenMember(tc, es[j], repl).Ok?)
      && RewrittenMember(tc, es[i], repl).Err?
    ensures RewrittenZip(tc, data, repl) == Err(RewrittenMember(tc, tc.readZip(data).value[i], repl).error)
  {
    var es := tc.readZip(data).value;
    var step := MemberStep(tc, repl);
    assert forall j | 0 <= j < |es| :: step(es[j]) == RewrittenMember(tc, es[j], repl);
    var r := MapUntilError(es, step);
    assert !step(es[i]).Ok?;
    var k :| 0 <= k < |es| && (forall j | 0 <= j < k :: step(es[j]).Ok?) && step(es[k]) == Err(r.error);
    assert k == i;
  }

  /** Members as zip.Writer lets them be written: every directory is stored and empty. */
  predicate WritableMembers(ms: seq<ZipMember>) {
    forall i | 0 <= i < |ms| :: IsDirectoryName(ms[i].name) ==> ms[i].compression == Store && ms[i].data == []
  }

  /** The archive library reads back what it wrote, for members it lets be written. */
  ghost predicate ZipRoundTrips(tc: Toolchain) {
    forall ms: seq<ZipMember> | WritableMembers(ms) && tc.writeZip(ms).Ok? ::
      tc.readZip(tc.writeZip(ms).value) == Ok(AsRead(ms))
  }

  /** The members of a written archive as a reader opens them. */
  function AsRead(ms: seq<ZipMember>): seq<ZipEntry> {
    seq(|ms|, i requires 0 <= i < |ms| => ZipEntry(ms[i].name, ms[i].compression, Ok(ms[i].data)))
  }

  /** Reading the rewritten archive back: the same number of members, in order, each under its
      moved name, with its compression method (Store for a directory), and with content that
      rewrites the original's. */
  lemma ZipReadBack(tc: Toolchain, data: Bytes, repl: map<string, string>)
    requires ZipRoundTrips(tc)
    requires RewrittenZip(tc, data, repl).Ok?
    ensures var out := RewrittenZip(tc, data, repl).value;
      && tc.readZip(data).Ok? && tc.readZip(out).Ok?
      && var es := tc.readZip(data).value;
      && var fs := tc.readZip(out).value;
      && |fs| == |es|
      && forall i | 0 <= i < |es| ::
           && es[i].data.Ok?
           && fs[i].name == RewrittenFileName(es[i].name, repl)
           && fs[i].compression == WrittenMethod(fs[i].name, es[i].compression)
           && fs[i].data == RewrittenContent(tc, es[i].name, es[i].data.value, repl)
  {
    ZipMembersRewritten(tc, data, repl);
  }

  /** A member that is neither a Go file nor a go.mod keeps its bytes (a directory with bytes
      is refused by the writer). */
  lemma OtherMembersCopied(tc: Toolchain, e: ZipEntry, repl: map<string, string>)
    requires e.data.Ok? && !HasSuffix(e.name, ".go") && !IsGoMod(e.name)
    requires tc.createHeader(RewrittenFileName(e.name, repl), e.compression).None?
    ensures var name := RewrittenFileName(e.name, repl);
      RewrittenMember(tc, e, repl)
        == if IsDirectoryName(name) && e.data.value != [] then Err(ErrWriteToDirectory)
           else Ok(ZipMember(name, WrittenMethod(name, e.compression), e.data.value))
  {
  }
}
