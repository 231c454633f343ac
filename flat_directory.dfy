/**
 * What `FileUtils` and `DbFileUtils` share: one flat directory `db/items`
 * whose `.json` files are each one record, read without any shape check,
 * and looked up by the file name `<id>.json`.
 */
module FlatDirectory {
  import opened Wrappers
  import opened JsonValues
  import opened JsText
  import opened FileSystem

  /** `db/items`: `../db/items` from `utils`, and `../items` from `db/utils`. */
  const ItemsDir: Path := ["db", "items"]

  /** The template literal `${id}.json`. */
  function IdFileName(id: int): string {
    IntToString(id) + ".json"
  }

  function ItemPath(id: int): Path {
    ItemsDir + [IdFileName(id)]
  }

  /**
   * Every file parsed, in listing order; the first file that cannot be read
   * or parsed fails the whole batch.
   */
  function ParsedFiles(files: seq<Entry>): (r: Result<seq<Json>, ReadError>)
    ensures r.Err? <==> exists i :: 0 <= i < |files| && ReadJson(files[i].node).Err?
    ensures r.Ok? ==> |r.value| == |files| &&
                      forall i :: 0 <= i < |files| ==> files[i].node == File(Parsed(r.value[i]))
  {
    if files == [] then Ok([])
    else
      var front := files[..|files| - 1];
      assert forall i :: 0 <= i < |front| ==> front[i] == files[i];
      match ParsedFiles(front)
      case Err(e) => Err(e)
      case Ok(items) =>
        match ReadJson(files[|files| - 1].node)
        case Err(e) => Err(e)
        case Ok(v) => Ok(items + [v])
  }

  /** Once a prefix of the files fails, the whole batch fails with that error. */
  lemma {:induction false} ParsedFilesFailedPrefix(files: seq<Entry>, k: nat)
    requires k <= |files| && ParsedFiles(files[..k]).Err?
    ensures ParsedFiles(files) == ParsedFiles(files[..k])
    decreases |files| - k
  {
    if k < |files| {
      var longer := files[..k + 1];
      assert longer[..k] == files[..k];
      ParsedFilesFailedPrefix(files, k + 1);
    } else {
      assert files[..k] == files;
    }
  }

  /** The records of `db/items` before sorting. */
  function Listing(root: Node): Result<seq<Json>, ReadError> {
    match ReadDirAt(root, ItemsDir)
    case Err(e) => Err(SystemError(e))
    case Ok(entries) => ParsedFiles(JsonFiles(entries))
  }

  /** The loop over the `.json` files, pushing each parsed file and stopping at the first failure. */
  method ReadJsonFiles(jsonFiles: seq<Entry>) returns (r: Result<seq<Json>, ReadError>)
    ensures r == ParsedFiles(jsonFiles)
  {
    var items: seq<Json> := [];
    for k := 0 to |jsonFiles|
      invariant ParsedFiles(jsonFiles[..k]) == Ok(items)
    {
      assert jsonFiles[..k + 1][..k] == jsonFiles[..k];
      var item := ReadJson(jsonFiles[k].node);
      if item.Err? {
        ParsedFilesFailedPrefix(jsonFiles, k + 1);
        return Err(item.error);
      }
      items := items + [item.value];
    }
    assert jsonFiles[..|jsonFiles|] == jsonFiles;
    return Ok(items);
  }

  /** A flat listing holds exactly the contents of the `.json` files of `db/items`, whatever their shape. */
  lemma ListingMembers(root: Node, v: Json)
    requires Listing(root).Ok?
    ensures v in Listing(root).value <==>
      exists e :: e in ReadDirAt(root, ItemsDir).value && IsJsonEntry(e) && e.node == File(Parsed(v))
  {
    var files := JsonFiles(ReadDirAt(root, ItemsDir).value);
    var items := Listing(root).value;
    if v in items {
      var i :| 0 <= i < |items| && items[i] == v;
      assert files[i] in files;
    }
    if exists e :: e in ReadDirAt(root, ItemsDir).value && IsJsonEntry(e) && e.node == File(Parsed(v)) {
      var e :| e in ReadDirAt(root, ItemsDir).value && IsJsonEntry(e) && e.node == File(Parsed(v));
      assert e in files;
      var i :| 0 <= i < |files| && files[i] == e;
      assert items[i] == v;
    }
  }

  /**
   * A flat listing fails exactly when `db/items` cannot be listed or one of
   * its `.json` entries cannot be read or parsed: nothing is skipped.
   */
  lemma ListingFails(root: Node)
    ensures Listing(root).Err? <==>
      || ReadDirAt(root, ItemsDir).Err?
      || exists e :: e in ReadDirAt(root, ItemsDir).value && IsJsonEntry(e) && ReadJson(e.node).Err?
  {
    if ReadDirAt(root, ItemsDir).Ok? {
      var files := JsonFiles(ReadDirAt(root, ItemsDir).value);
      if Listing(root).Err? {
        var i :| 0 <= i < |files| && ReadJson(files[i].node).Err?;
        assert files[i] in files;
      }
      if exists e :: e in ReadDirAt(root, ItemsDir).value && IsJsonEntry(e) && ReadJson(e.node).Err? {
        var e :| e in ReadDirAt(root, ItemsDir).value && IsJsonEntry(e) && ReadJson(e.node).Err?;
        assert e in files;
        var i :| 0 <= i < |files| && files[i] == e;
      }
    }
  }

  /** Reading `<id>.json`: its parsed content, `None` when it does not exist (`ENOENT`), an error otherwise. */
  function ReadItemFile(root: Node, id: int): Result<Option<Json>, ReadError> {
    match ReadJsonAt(root, ItemPath(id))
    case Ok(v) => Ok(Some(v))
    case Err(SystemError(ENOENT)) => Ok(None)
    case Err(e) => Err(e)
  }

  /**
   * A lookup finds nothing exactly when `<id>.json` (or a directory above it)
   * does not exist, and finds a record exactly when that file parses to it.
   */
  lemma ReadItemFileOutcomes(root: Node, id: int, v: Json)
    ensures ReadItemFile(root, id) == Ok(None) <==> Resolve(root, ItemPath(id)) == Err(ENOENT)
    ensures ReadItemFile(root, id) == Ok(Some(v)) <==> Resolve(root, ItemPath(id)) == Ok(File(Parsed(v)))
  {
  }

  lemma IdFileNameIsJson(id: int)
    ensures IsJsonEntry(Entry(IdFileName(id), File(Unparsable)))
  {
    var name := IdFileName(id);
    assert name[|name| - 5..] == ".json";
  }

  /** A record found by file name also appears in a successful listing. */
  lemma LookupHitListed(root: Node, id: int, v: Json)
    requires ReadItemFile(root, id) == Ok(Some(v))
    requires Listing(root).Ok?
    ensures v in Listing(root).value
  {
    var name := IdFileName(id);
    ResolveAppend(root, ItemsDir, name);
    var entries := ReadDirAt(root, ItemsDir).value;
    assert Child(entries, name) == Some(File(Parsed(v)));
    IdFileNameIsJson(id);
    ListingMembers(root, v);
    assert Entry(name, File(Parsed(v))) in entries;
  }
}
