/**
 * `DbFileUtils`: a second reader of the same flat directory `db/items`. It
 * checks access before listing or reading and adds an existence test.
 */
module DbFileUtils {
  import opened Wrappers
  import opened JsonValues
  import opened JsText
  import opened FileSystem
  import opened ItemSort
  import opened FlatDirectory
  import FileUtils

  const LoadFailed := "Falha ao carregar itens do sistema"

  function LookupFailed(id: int): string {
    "Falha ao carregar item com ID " + IntToString(id)
  }

  /** What `getAllItems` resolves to: `fs.access` first, then the same read and sort as `FileUtils`, which fails in the same way when the comparator throws. */
  function AllItems(root: Node): Result<seq<Json>, string> {
    if Resolve(root, ItemsDir).Err? then Err(LoadFailed)
    else
      match Listing(root)
      case Err(_) => Err(LoadFailed)
      case Ok(items) => if ComparisonThrows(items) then Err(LoadFailed) else Ok(SortById(items))
  }

  method GetAllItems(root: Node) returns (r: Result<seq<Json>, string>)
    ensures r == AllItems(root)
  {
    var access := Resolve(root, ItemsDir);
    if access.Err? {
      return Err(LoadFailed);
    }
    var files := ReadDirAt(root, ItemsDir);
    if files.Err? {
      return Err(LoadFailed);
    }
    var items := ReadJsonFiles(JsonFiles(files.value));
    if items.Err? || ComparisonThrows(items.value) {
      return Err(LoadFailed);
    }
    return Ok(SortById(items.value));
  }

  /** `getItemById`: `fs.access` on `<id>.json`, then read and parse it; only `ENOENT` becomes `null`. */
  function GetItemById(root: Node, id: int): Result<Option<Json>, string> {
    match Resolve(root, ItemPath(id))
    case Err(ENOENT) => Ok(None)
    case Err(_) => Err(LookupFailed(id))
    case Ok(_) =>
      match ReadItemFile(root, id)
      case Ok(found) => Ok(found)
      case Err(_) => Err(LookupFailed(id))
  }

  /** `itemExists`: whether `<id>.json` is accessible; every failure is `false`. */
  predicate ItemExists(root: Node, id: int) {
    Resolve(root, ItemPath(id)).Ok?
  }

  /** The access check adds no failure of its own: both flat backends list the same records, or both fail. */
  lemma ListingsAgree(root: Node)
    ensures AllItems(root).Ok? <==> FileUtils.AllItems(root).Ok?
    ensures AllItems(root).Ok? ==> AllItems(root).value == FileUtils.AllItems(root).value
  {
  }

  /** Both flat backends find the same record, or both find nothing, or both throw. */
  lemma LookupsAgree(root: Node, id: int)
    ensures GetItemById(root, id).Ok? <==> FileUtils.GetItemById(root, id).Ok?
    ensures GetItemById(root, id).Ok? ==> GetItemById(root, id).value == FileUtils.GetItemById(root, id).value
  {
  }

  /**
   * `null` exactly when `<id>.json` does not exist; a found record means the
   * file exists; a file that exists is never reported missing.
   */
  lemma ExistsMatchesLookup(root: Node, id: int)
    ensures GetItemById(root, id) == Ok(None) <==> Resolve(root, ItemPath(id)) == Err(ENOENT)
    ensures GetItemById(root, id).Ok? && GetItemById(root, id).value.Some? ==> ItemExists(root, id)
    ensures ItemExists(root, id) ==> GetItemById(root, id) != Ok(None)
  {
  }
}
