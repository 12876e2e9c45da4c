/**
 * extractGoModFromZip: the go.mod inside a module archive, whose annotated requirements decide
 * the replacement map for a `.zip` request.
 */
module ModExtract {
  import opened Wrappers
  import opened GoStrings
  import opened Foreign
  import opened Search

  const ErrGoModNotFound := Error("go.mod not found")

  /** The member is a go.mod: its base name (path.Base) is go.mod, at whatever depth. */
  predicate IsGoMod(name: string) {
    Base(name) == "go.mod"
  }

  /** The test of extractGoModFromZip's loop, as a function value. */
  const GoModEntry: ZipEntry -> bool := (e: ZipEntry) => IsGoMod(e.name)

  /** What extractGoModFromZip returns: the content of the first go.mod member. */
  function ExtractedGoMod(tc: Toolchain, data: Bytes): Result<Bytes> {
    match tc.readZip(data)
    case Err(err) => Err(err)
    case Ok(es) =>
      match FirstFrom(es, GoModEntry, 0)
      case None => Err(ErrGoModNotFound)
      case Some(i) => es[i].data
  }

  /** The loop of extractGoModFromZip: the members are searched in order for the first go.mod. */
  method FindGoMod(es: seq<ZipEntry>) returns (r: Option<nat>)
    ensures r == FirstFrom(es, GoModEntry, 0)
  {
    var i := 0;
    while i < |es|
      invariant 0 <= i <= |es|
      invariant FirstFrom(es, GoModEntry, i) == FirstFrom(es, GoModEntry, 0)
    {
      assert GoModEntry(es[i]) == IsGoMod(es[i].name);
      if IsGoMod(es[i].name) {
        return Some(i);
      }
      i := i + 1;
    }
    return None;
  }

  /** extractGoModFromZip: the content of the first go.mod member, or "go.mod not found". */
  method ExtractGoModFromZip(tc: Toolchain, data: Bytes) returns (r: Result<Bytes>)
    ensures r == ExtractedGoMod(tc, data)
  {
    var read := tc.readZip(data);
    if read.Err? {
      return Err(read.error);
    }
    var es := read.value;
    var found := FindGoMod(es);
    if found.None? {
      return Err(ErrGoModNotFound);
    }
    return es[found.value].data;
  }

  /** The go.mod found is one whose base name is go.mod, and the first such: an archive whose
      first member is `mod@v/go.mod` yields that member's content. */
  lemma ExtractFirstGoMod(tc: Toolchain, data: Bytes, e: ZipEntry, rest: seq<ZipEntry>, mod: string, version: string)
    requires tc.readZip(data) == Ok([e] + rest)
    requires e.name == mod + "@" + version + "/" + "go.mod"
    ensures ExtractedGoMod(tc, data) == e.data
  {
    BaseOfJoin(mod + "@" + version, "go.mod");
  }
}
