/**
 * `FileUtils`: the catalogue backend behind the item routes. It reads the flat
 * directory `db/items`, sorts by `id`, looks a record up by its file name and
 * can create the directory.
 */
module FileUtils {
  import opened Wrappers
  import opened JsonValues
  import opened JsText
  import opened FileSystem
  import opened ItemSort
  import opened FlatDirectory

  const LoadFailed := "Falha ao carregar itens do banco de dados"

  function LookupFailed(id: int): string {
    "Falha ao carregar item " + IntToString(id)
  }

  /**
   * What `getAllItems` resolves to: every `.json` file parsed and sorted by
   * `id`, or the error it throws, also when the comparator throws.
   */
  function AllItems(root: Node): Result<seq<Json>, string> {
    match Listing(root)
    case Err(_) => Err(LoadFailed)
    case Ok(items) => if ComparisonThrows(items) then Err(LoadFailed) else Ok(SortById(items))
  }

  method GetAllItems(root: Node) returns (r: Result<seq<Json>, string>)
    ensures r == AllItems(root)
  {
    var files := ReadDirAt(root, ItemsDir);
    if files.Err? {
      return Err(LoadFailed);
    }
    var jsonFiles := JsonFiles(files.value);
    var items := ReadJsonFiles(jsonFiles);
    if items.Err? || ComparisonThrows(items.value) {
      return Err(LoadFailed);
    }
    return Ok(SortById(items.value));
  }

  /**
   * `getAllItems` throws exactly when `db/items` cannot be listed, when a
   * `.json` file cannot be read or parsed, or when there are two `.json` files
   * or more and one of them holds `null` or a record whose `id` cannot be
   * converted to a primitive.
   */
  lemma LoadFails(root: Node)
    ensures AllItems(root).Err? <==>
      || ReadDirAt(root, ItemsDir).Err?
      || (exists e :: e in ReadDirAt(root, ItemsDir).value && IsJsonEntry(e) && ReadJson(e.node).Err?)
      || (&& |JsonFiles(ReadDirAt(root, ItemsDir).value)| >= 2
          && exists e, v :: e in ReadDirAt(root, ItemsDir).value && IsJsonEntry(e) && e.node == File(Parsed(v)) && IdThrows(v))
  {
    ListingFails(root);
    if Listing(root).Ok? {
      var items := Listing(root).value;
      ComparisonThrowsIff(items);
      if exists i :: 0 <= i < |items| && IdThrows(items[i]) {
        var i :| 0 <= i < |items| && IdThrows(items[i]);
        ListingMembers(root, items[i]);
      }
      if exists e, v :: e in ReadDirAt(root, ItemsDir).value && IsJsonEntry(e) && e.node == File(Parsed(v)) && IdThrows(v) {
        var e, v :| e in ReadDirAt(root, ItemsDir).value && IsJsonEntry(e) && e.node == File(Parsed(v)) && IdThrows(v);
        ListingMembers(root, v);
        var i :| 0 <= i < |items| && items[i] == v;
      }
    }
  }

  /** `getItemById`: the parsed `<id>.json`, `null` when it does not exist, the error it throws otherwise. */
  function GetItemById(root: Node, id: int): Result<Option<Json>, string> {
    match ReadItemFile(root, id)
    case Ok(found) => Ok(found)
    case Err(_) => Err(LookupFailed(id))
  }

  /**
   * The listing holds the `.json` files' contents with their multiplicities,
   * and is sorted by `id` whenever every `id` converts to a number.
   */
  lemma ListingSorted(root: Node)
    requires AllItems(root).Ok?
    ensures multiset(AllItems(root).value) == multiset(Listing(root).value)
    ensures AllNumericIds(Listing(root).value) ==> SortedById(AllItems(root).value)
  {
    SortPermutes(Listing(root).value);
    if AllNumericIds(Listing(root).value) {
      SortSorts(Listing(root).value);
    }
  }

  /** A record found by `getItemById` is also in a successful `getAllItems`. */
  lemma LookupHitInListing(root: Node, id: int, v: Json)
    requires GetItemById(root, id) == Ok(Some(v))
    requires AllItems(root).Ok?
    ensures v in AllItems(root).value
  {
    LookupHitListed(root, id, v);
    SortPermutes(Listing(root).value);
    assert v in multiset(Listing(root).value);
  }

  /**
   * `ensureItemsDirectory`: when `fs.access` fails, `mkdir -p` the directory.
   * A path that is already there is left alone; a failed `mkdir` leaves the disk as it was.
   */
  method EnsureItemsDirectory(disk: Disk) returns (r: Result<(), Errno>)
    modifies disk
    ensures old(Resolve(disk.root, ItemsDir)).Ok? ==> r.Ok? && disk.root == old(disk.root)
    ensures old(Resolve(disk.root, ItemsDir)).Err? ==>
      match old(MkdirAll(disk.root, ItemsDir))
      case Ok(root') => r.Ok? && disk.root == root'
      case Err(e) => r == Err(e) && disk.root == old(disk.root)
    ensures r.Ok? ==> Resolve(disk.root, ItemsDir).Ok?
    ensures r.Ok? && old(Resolve(disk.root, ItemsDir)).Err? ==> IsDirectory(Resolve(disk.root, ItemsDir).value)
  {
    if Resolve(disk.root, ItemsDir).Ok? {
      return Ok(());
    }
    var made := MkdirAll(disk.root, ItemsDir);
    if made.Err? {
      return Err(made.error);
    }
    MkdirAllCreates(disk.root, ItemsDir);
    disk.root := made.value;
    return Ok(());
  }

  /**
   * `getItemById(id)` answers with whatever `<id>.json` holds: the record's own
   * `id` is never compared with `id`.
   */
  lemma LookupTrustsFileName(root: Node, id: int, v: Json)
    ensures GetItemById(root, id) == Ok(Some(v)) <==> Resolve(root, ItemPath(id)) == Ok(File(Parsed(v)))
  {
    ReadItemFileOutcomes(root, id, v);
  }
}
