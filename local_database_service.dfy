/**
 * `LocalDatabaseService`: the catalogue kept as JSON files in a tree of
 * category directories under `db/item`. Each category holds either its records
 * directly (`misc/3.json`) or one level of sub-directories that hold them
 * (`cons/1/1.json`). Records that cannot be read, parsed or validated are
 * skipped; only a directory that cannot be listed fails the whole call.
 */
module LocalDatabaseService {
  import opened Wrappers
  import opened JsonValues
  import opened Sequences
  import opened FileSystem
  import opened ItemSort

  /** `path.join(__dirname, 'item')`, where `__dirname` is the `db` directory. */
  const DbPath: Path := ["db", "item"]

  const LoadFailed := "Falha ao carregar itens do banco de dados local"
  const LookupFailed := "Falha ao buscar item no banco de dados local"

  /**
   * `isValidItem`: an object whose `id` and `type` are numbers and whose
   * `name` and `description` are strings. Arrays have none of these fields,
   * and `null` makes the check throw, which the caller also treats as invalid.
   */
  predicate IsValidItem(v: Json) {
    && v.JObject?
    && HasNumber(v, "id")
    && HasString(v, "name")
    && HasNumber(v, "type")
    && HasString(v, "description")
  }

  /** `readItemFromFile`: the parsed record when it is a valid item; any failure gives `None`. */
  function ReadItemFromFile(n: Node): Option<Json> {
    match ReadJson(n)
    case Err(_) => None
    case Ok(v) => if IsValidItem(v) then Some(v) else None
  }

  /** The items read from `files` in order, the failing ones left out. */
  function FileItems(files: seq<Entry>): seq<Json> {
    if files == [] then []
    else
      FileItems(files[..|files| - 1]) +
      match ReadItemFromFile(files[|files| - 1].node)
      case Some(v) => [v]
      case None => []
  }

  /** The items of a directory that holds records directly. */
  function LeafItems(leaf: Entry): Result<seq<Json>, Errno> {
    match ReadDir(leaf.node)
    case Err(e) => Err(e)
    case Ok(entries) => Ok(FileItems(JsonFiles(entries)))
  }

  /**
   * The items of one category: those of its sub-directories when it has any
   * (its own files are then ignored), otherwise those of its own `.json` files.
   */
  function CategoryItems(category: Entry): Result<seq<Json>, Errno> {
    match ReadDir(category.node)
    case Err(e) => Err(e)
    case Ok(entries) =>
      var subDirs := Subdirectories(entries);
      if |subDirs| > 0 then ConcatMap(subDirs, LeafItems) else Ok(FileItems(JsonFiles(entries)))
  }

  /** The items of every category of a root listing, in traversal order; plain files at the root are not categories. */
  function ListingItems(entries: seq<Entry>): Result<seq<Json>, Errno> {
    ConcatMap(Subdirectories(entries), CategoryItems)
  }

  /** The items collected before sorting. */
  function CollectedItems(root: Node): Result<seq<Json>, Errno> {
    match ReadDirAt(root, DbPath)
    case Err(e) => Err(e)
    case Ok(entries) => ListingItems(entries)
  }

  /** What `getAllItems` resolves to: the collected items sorted by `id`, or the error it throws. */
  function AllItems(root: Node): Result<seq<Json>, string> {
    match CollectedItems(root)
    case Err(_) => Err(LoadFailed)
    case Ok(items) => Ok(SortById(items))
  }

  /** The loop over one directory's `.json` files, pushing every record that reads as an item. */
  method PushFileItems(items: seq<Json>, jsonFiles: seq<Entry>) returns (items': seq<Json>)
    ensures items' == items + FileItems(jsonFiles)
  {
    items' := items;
    for k := 0 to |jsonFiles|
      invariant items' == items + FileItems(jsonFiles[..k])
    {
      var item := ReadItemFromFile(jsonFiles[k].node);
      if item.Some? {
        items' := items' + [item.value];
      }
      assert jsonFiles[..k + 1][..k] == jsonFiles[..k];
    }
    assert jsonFiles[..|jsonFiles|] == jsonFiles;
  }

  /** The loop over a category's sub-directories, pushing the records of each; `None` when one cannot be listed. */
  method PushLeafItems(items: seq<Json>, subDirs: seq<Entry>) returns (items': Option<seq<Json>>)
    ensures ConcatMap(subDirs, LeafItems).Err? <==> items'.None?
    ensures ConcatMap(subDirs, LeafItems).Ok? ==> items' == Some(items + ConcatMap(subDirs, LeafItems).value)
  {
    var acc := items;
    for j := 0 to |subDirs|
      invariant ConcatMap(subDirs[..j], LeafItems).Ok?
      invariant acc == items + ConcatMap(subDirs[..j], LeafItems).value
    {
      var files := ReadDir(subDirs[j].node);
      if files.Err? {
        assert ConcatMap(subDirs, LeafItems).Err? by {
          assert subDirs[..j + 1][..j] == subDirs[..j];
          ConcatMapFailedPrefix(subDirs, j + 1, LeafItems);
        }
        return None;
      }
      ghost var front := ConcatMap(subDirs[..j], LeafItems).value;
      ghost var leaf := FileItems(JsonFiles(files.value));
      assert ConcatMap(subDirs[..j + 1], LeafItems) == Ok(front + leaf) by {
        assert LeafItems(subDirs[j]) == Ok(leaf);
        ConcatMapStep(subDirs, j, LeafItems);
      }
      acc := PushFileItems(acc, JsonFiles(files.value));
      assert acc == items + (front + leaf);
    }
    assert subDirs[..|subDirs|] == subDirs;
    return Some(acc);
  }

  /**
   * The body of `getAllItems`'s outer loop for one category: its sub-directories'
   * records when it has any, otherwise its own; `None` when a directory cannot be listed.
   */
  method PushCategoryItems(items: seq<Json>, typeDir: Entry) returns (items': Option<seq<Json>>)
    ensures CategoryItems(typeDir).Err? <==> items'.None?
    ensures CategoryItems(typeDir).Ok? ==> items' == Some(items + CategoryItems(typeDir).value)
  {
    var found := ReadDir(typeDir.node);
    if found.Err? {
      return None;
    }
    var subDirs := Subdirectories(found.value);
    if |subDirs| == 0 {
      var pushed := PushFileItems(items, JsonFiles(found.value));
      return Some(pushed);
    }
    items' := PushLeafItems(items, subDirs);
  }

  /** `getAllItems`: the walk over the categories, then the sort. */
  method GetAllItems(root: Node) returns (r: Result<seq<Json>, string>)
    ensures r == AllItems(root)
  {
    var listing := ReadDirAt(root, DbPath);
    if listing.Err? {
      return Err(LoadFailed);
    }
    var typeDirectories := Subdirectories(listing.value);
    var items: seq<Json> := [];
    for i := 0 to |typeDirectories|
      invariant ConcatMap(typeDirectories[..i], CategoryItems) == Ok(items)
    {
      var pushed := PushCategoryItems(items, typeDirectories[i]);
      if pushed.None? {
        assert typeDirectories[..i + 1][..i] == typeDirectories[..i];
        ConcatMapFailedPrefix(typeDirectories, i + 1, CategoryItems);
        return Err(LoadFailed);
      }
      ConcatMapStep(typeDirectories, i, CategoryItems);
      items := pushed.value;
    }
    assert typeDirectories[..|typeDirectories|] == typeDirectories;
    return Ok(SortById(items));
  }

  /** `items.find(item => item.id === id) || null`: the first item with that `id`. */
  function Find(items: seq<Json>, id: int): (r: Option<Json>)
    ensures r.None? <==> forall i :: 0 <= i < |items| ==> IdKey(items[i]) != Some(id)
    ensures r.Some? ==> exists i :: 0 <= i < |items| && items[i] == r.value && IdKey(r.value) == Some(id)
                                    && forall j :: 0 <= j < i ==> IdKey(items[j]) != Some(id)
  {
    if items == [] then None
    else if IdKey(items[0]) == Some(id) then Some(items[0])
    else
      var r := Find(items[1..], id);
      assert forall i :: 1 <= i < |items| ==> items[i] == items[1..][i - 1];
      r
  }

  /** `getItemById`: a full listing followed by a search for the first match. */
  function GetItemById(root: Node, id: int): Result<Option<Json>, string> {
    match AllItems(root)
    case Err(_) => Err(LookupFailed)
    case Ok(items) => Ok(Find(items, id))
  }

  /** A record is kept exactly when some file of the list parses to a valid item. */
  lemma {:induction false} FileItemsMembers(files: seq<Entry>, v: Json)
    ensures v in FileItems(files) <==> exists e :: e in files && e.node == File(Parsed(v)) && IsValidItem(v)
  {
    if files != [] {
      var front := files[..|files| - 1];
      var last := files[|files| - 1];
      FileItemsMembers(front, v);
      assert files == front + [last];
      if v in FileItems(files) && v !in FileItems(front) {
        assert last.node == File(Parsed(v)) && IsValidItem(v);
      }
      if exists e :: e in files && e.node == File(Parsed(v)) && IsValidItem(v) {
        var e :| e in files && e.node == File(Parsed(v)) && IsValidItem(v);
        if e != last {
          assert e in front;
        }
      }
    }
  }

  /** In a directory of records, only `.json` names are read, and every valid record among them is kept. */
  lemma LeafMembers(leaf: Entry, v: Json)
    requires leaf.node.Dir?
    ensures LeafItems(leaf).Ok?
    ensures v in LeafItems(leaf).value <==>
      exists e :: e in leaf.node.entries && IsJsonEntry(e) && e.node == File(Parsed(v)) && IsValidItem(v)
  {
    FileItemsMembers(JsonFiles(leaf.node.entries), v);
  }

  /** A category without sub-directories contributes the valid records of its own `.json` files. */
  lemma FlatCategoryMembers(name: string, entries: seq<Entry>, v: Json)
    requires forall e :: e in entries ==> !IsDirectory(e.node)
    ensures CategoryItems(Entry(name, Dir(entries))).Ok?
    ensures v in CategoryItems(Entry(name, Dir(entries))).value <==>
      exists e :: e in entries && IsJsonEntry(e) && e.node == File(Parsed(v)) && IsValidItem(v)
  {
    FilterRejectsAll(entries, IsDirectoryEntry);
    LeafMembers(Entry(name, Dir(entries)), v);
  }

  /** `v` is a valid record in a `.json` file of a sub-directory among `entries`. */
  predicate InSubdirectoryFile(entries: seq<Entry>, v: Json) {
    exists s, e :: s in entries && s.node.Dir? && e in s.node.entries
                   && IsJsonEntry(e) && e.node == File(Parsed(v)) && IsValidItem(v)
  }

  /**
   * A category with sub-directories contributes the valid records of the
   * `.json` files inside them, and none of the files lying beside them.
   */
  lemma NestedCategoryMembers(name: string, entries: seq<Entry>, v: Json)
    requires Subdirectories(entries) != []
    requires CategoryItems(Entry(name, Dir(entries))).Ok?
    ensures v in CategoryItems(Entry(name, Dir(entries))).value <==> InSubdirectoryFile(entries, v)
  {
    var r := ConcatMap(Subdirectories(entries), LeafItems);
    assert CategoryItems(Entry(name, Dir(entries))) == r;
    if v in r.value {
      SubdirectoryItemFound(entries, v);
    }
    if InSubdirectoryFile(entries, v) {
      SubdirectoryItemCollected(entries, v);
    }
  }

  /** A record collected from the sub-directories comes from a `.json` file in one of them. */
  lemma SubdirectoryItemFound(entries: seq<Entry>, v: Json)
    requires ConcatMap(Subdirectories(entries), LeafItems).Ok?
    requires v in ConcatMap(Subdirectories(entries), LeafItems).value
    ensures InSubdirectoryFile(entries, v)
  {
    var subDirs := Subdirectories(entries);
    ConcatMapMembers(subDirs, LeafItems, v);
    var i :| 0 <= i < |subDirs| && LeafItems(subDirs[i]).Ok? && v in LeafItems(subDirs[i]).value;
    var s := subDirs[i];
    assert s in subDirs;
    LeafMembers(s, v);
  }

  /** A valid record in a `.json` file of a sub-directory is collected. */
  lemma SubdirectoryItemCollected(entries: seq<Entry>, v: Json)
    requires ConcatMap(Subdirectories(entries), LeafItems).Ok?
    requires InSubdirectoryFile(entries, v)
    ensures v in ConcatMap(Subdirectories(entries), LeafItems).value
  {
    var subDirs := Subdirectories(entries);
    var s, e :| s in entries && s.node.Dir? && e in s.node.entries
                && IsJsonEntry(e) && e.node == File(Parsed(v)) && IsValidItem(v);
    assert s in subDirs;
    var i :| 0 <= i < |subDirs| && subDirs[i] == s;
    LeafMembers(s, v);
    ConcatMapMembers(subDirs, LeafItems, v);
  }

  /** A category cannot be read when it, or one of its sub-directories, cannot be listed. */
  predicate CategoryUnlistable(category: Entry) {
    match ReadDir(category.node)
    case Err(_) => true
    case Ok(entries) => exists s :: s in entries && s.node.LockedDir?
  }

  lemma CategoryFails(category: Entry)
    ensures CategoryItems(category).Err? <==> CategoryUnlistable(category)
  {
    if category.node.Dir? {
      var subDirs := Subdirectories(category.node.entries);
      ConcatMapFails(subDirs, LeafItems);
      if exists s :: s in category.node.entries && s.node.LockedDir? {
        var s :| s in category.node.entries && s.node.LockedDir?;
        assert s in subDirs;
        var i :| 0 <= i < |subDirs| && subDirs[i] == s;
        assert LeafItems(subDirs[i]).Err?;
      }
      if ConcatMap(subDirs, LeafItems).Err? {
        var i :| 0 <= i < |subDirs| && LeafItems(subDirs[i]).Err?;
        assert subDirs[i] in category.node.entries;
      }
    }
  }

  /**
   * The listing fails exactly when `db/item` cannot be listed or one of its
   * categories cannot; an unreadable or invalid record never fails it.
   */
  lemma LocalListingFails(root: Node)
    ensures AllItems(root).Err? <==>
      || ReadDirAt(root, DbPath).Err?
      || exists c :: c in ReadDirAt(root, DbPath).value && IsDirectory(c.node) && CategoryUnlistable(c)
  {
    var listing := ReadDirAt(root, DbPath);
    if listing.Ok? {
      var categories := Subdirectories(listing.value);
      ConcatMapFails(categories, CategoryItems);
      if exists c :: c in listing.value && IsDirectory(c.node) && CategoryUnlistable(c) {
        var c :| c in listing.value && IsDirectory(c.node) && CategoryUnlistable(c);
        assert c in categories;
        var i :| 0 <= i < |categories| && categories[i] == c;
        CategoryFails(c);
      }
      if ConcatMap(categories, CategoryItems).Err? {
        var i :| 0 <= i < |categories| && CategoryItems(categories[i]).Err?;
        CategoryFails(categories[i]);
        assert categories[i] in listing.value;
      }
    }
  }

  /** Plain files at the `db/item` level are not categories: adding one changes nothing. */
  lemma RootFilesIgnored(before: seq<Entry>, file: Entry, after: seq<Entry>)
    requires !IsDirectory(file.node)
    ensures ListingItems(before + [file] + after) == ListingItems(before + after)
  {
    FilterSkips(before, file, after, IsDirectoryEntry);
  }

  /** Every record a category yields is a valid item. */
  lemma CategoryValid(category: Entry, v: Json)
    requires CategoryItems(category).Ok? && v in CategoryItems(category).value
    ensures IsValidItem(v)
  {
    var entries := ReadDir(category.node).value;
    var subDirs := Subdirectories(entries);
    if |subDirs| > 0 {
      ConcatMapMembers(subDirs, LeafItems, v);
      var i :| 0 <= i < |subDirs| && LeafItems(subDirs[i]).Ok? && v in LeafItems(subDirs[i]).value;
      FileItemsMembers(JsonFiles(ReadDir(subDirs[i].node).value), v);
    } else {
      FileItemsMembers(JsonFiles(entries), v);
    }
  }

  /** The collected records are exactly those of the categories, each a valid item. */
  lemma CollectedMembers(root: Node, v: Json)
    requires CollectedItems(root).Ok?
    ensures v in CollectedItems(root).value <==>
      exists c :: c in ReadDirAt(root, DbPath).value && IsDirectory(c.node)
                  && CategoryItems(c).Ok? && v in CategoryItems(c).value
    ensures v in CollectedItems(root).value ==> IsValidItem(v)
  {
    var listing := ReadDirAt(root, DbPath).value;
    var categories := Subdirectories(listing);
    assert CollectedItems(root) == ConcatMap(categories, CategoryItems);
    ConcatMapMembers(categories, CategoryItems, v);
    if v in ConcatMap(categories, CategoryItems).value {
      var i :| 0 <= i < |categories| && CategoryItems(categories[i]).Ok? && v in CategoryItems(categories[i]).value;
      assert categories[i] in listing && IsDirectory(categories[i].node);
      CategoryValid(categories[i], v);
    }
    if exists c :: c in listing && IsDirectory(c.node) && CategoryItems(c).Ok? && v in CategoryItems(c).value {
      var c :| c in listing && IsDirectory(c.node) && CategoryItems(c).Ok? && v in CategoryItems(c).value;
      assert c in categories;
      var i :| 0 <= i < |categories| && categories[i] == c;
    }
  }

  /** The listing holds exactly the records of its categories, each a valid item. */
  lemma LocalListingMembers(root: Node, v: Json)
    requires AllItems(root).Ok?
    ensures v in AllItems(root).value <==>
      exists c :: c in ReadDirAt(root, DbPath).value && IsDirectory(c.node)
                  && CategoryItems(c).Ok? && v in CategoryItems(c).value
    ensures v in AllItems(root).value ==> IsValidItem(v)
  {
    var collected := CollectedItems(root).value;
    SortPermutes(collected);
    assert v in AllItems(root).value <==> v in multiset(collected);
    CollectedMembers(root, v);
  }

  /** The listing is sorted by `id`, every id a number, and holds the collected records with their multiplicities. */
  lemma LocalListingSorted(root: Node)
    requires AllItems(root).Ok?
    ensures SortedById(AllItems(root).value)
    ensures multiset(AllItems(root).value) == multiset(CollectedItems(root).value)
  {
    var collected := CollectedItems(root).value;
    SortPermutes(collected);
    forall i | 0 <= i < |collected| ensures SortKey(collected[i]).Some? {
      assert collected[i] in multiset(AllItems(root).value);
      LocalListingMembers(root, collected[i]);
      NumberIdSortKey(collected[i]);
    }
    SortSorts(collected);
  }

  /**
   * A lookup fails exactly when the listing does; otherwise it finds the first
   * listed item with that `id`, and finds nothing only when none has it.
   */
  lemma LookupAgreesWithListing(root: Node, id: int)
    ensures GetItemById(root, id).Err? <==> AllItems(root).Err?
    ensures GetItemById(root, id) == Ok(None) <==>
      AllItems(root).Ok? && forall v :: v in AllItems(root).value ==> IdKey(v) != Some(id)
    ensures GetItemById(root, id).Ok? && GetItemById(root, id).value.Some? ==>
      var v := GetItemById(root, id).value.value;
      v in AllItems(root).value && IdKey(v) == Some(id) && IsValidItem(v)
  {
    if AllItems(root).Ok? {
      var items := AllItems(root).value;
      var found := Find(items, id);
      if found.Some? {
        LocalListingMembers(root, found.value);
      }
    }
  }
}
