/**
 * The part of Node's `fs` module the item loaders use, over an abstract tree of
 * directories and files. A directory's entries are kept in the order its
 * listing returns them, which the operating system leaves unspecified.
 */
module FileSystem {
  import opened Wrappers
  import opened JsonValues
  import opened Sequences
  import JsText

  /** What `JSON.parse` makes of a file's text: a value, or a syntax error. */
  datatype Content = Parsed(value: Json) | Unparsable

  /**
   * A file, a directory with its listing, or a directory that can be neither
   * listed nor entered (no read or search permission).
   */
  datatype Node = File(content: Content) | Dir(entries: seq<Entry>) | LockedDir

  datatype Entry = Entry(name: string, node: Node)

  /** The error codes the loaders can meet. */
  datatype Errno = ENOENT | ENOTDIR | EISDIR | EACCES | EEXIST

  /** Why reading and parsing a JSON file failed. */
  datatype ReadError = SystemError(errno: Errno) | SyntaxError

  /** A path as its sequence of names, relative to the directory holding the compiled sources. */
  type Path = seq<string>

  /** `Dirent.isDirectory()`. */
  predicate IsDirectory(n: Node) {
    n.Dir? || n.LockedDir?
  }

  /** The first entry of a listing with the given name. */
  function Child(entries: seq<Entry>, name: string): (r: Option<Node>)
    ensures r.None? <==> forall i :: 0 <= i < |entries| ==> entries[i].name != name
    ensures r.Some? ==> Entry(name, r.value) in entries
  {
    if entries == [] then None
    else if entries[0].name == name then Some(entries[0].node)
    else Child(entries[1..], name)
  }

  /** Follows `path` from `root`, failing as the operating system does. */
  function Resolve(root: Node, path: Path): Result<Node, Errno>
    decreases path
  {
    if path == [] then Ok(root)
    else
      match root
      case File(_) => Err(ENOTDIR)
      case LockedDir => Err(EACCES)
      case Dir(entries) =>
        match Child(entries, path[0])
        case None => Err(ENOENT)
        case Some(child) => Resolve(child, path[1..])
  }

  /** `fs.readdir` of a node already reached. */
  function ReadDir(n: Node): Result<seq<Entry>, Errno> {
    match n
    case Dir(entries) => Ok(entries)
    case LockedDir => Err(EACCES)
    case File(_) => Err(ENOTDIR)
  }

  /** `fs.readdir(path)`. */
  function ReadDirAt(root: Node, path: Path): Result<seq<Entry>, Errno> {
    match Resolve(root, path)
    case Err(e) => Err(e)
    case Ok(n) => ReadDir(n)
  }

  /** `JSON.parse(fs.readFile(...))` of a node already reached. */
  function ReadJson(n: Node): Result<Json, ReadError> {
    match n
    case File(Parsed(v)) => Ok(v)
    case File(Unparsable) => Err(SyntaxError)
    case _ => Err(SystemError(EISDIR))
  }

  /** `JSON.parse(await fs.readFile(path))`: the file system error, or the parse error, on the way. */
  function ReadJsonAt(root: Node, path: Path): Result<Json, ReadError> {
    match Resolve(root, path)
    case Err(e) => Err(SystemError(e))
    case Ok(n) => ReadJson(n)
  }

  /** Following a path one name further is following the path, then looking that name up. */
  lemma {:induction false} ResolveAppend(root: Node, path: Path, name: string)
    ensures Resolve(root, path + [name]) ==
      match Resolve(root, path)
      case Err(e) => Err(e)
      case Ok(n) => Resolve(n, [name])
    decreases path
  {
    if path != [] {
      assert (path + [name])[0] == path[0];
      assert (path + [name])[1..] == path[1..] + [name];
      match root
      case File(_) =>
      case LockedDir =>
      case Dir(entries) =>
        match Child(entries, path[0])
        case None =>
        case Some(child) => ResolveAppend(child, path[1..], name);
    } else {
      assert path + [name] == [name];
    }
  }

  predicate IsJsonEntry(e: Entry) {
    JsText.EndsWith(e.name, ".json")
  }

  predicate IsDirectoryEntry(e: Entry) {
    IsDirectory(e.node)
  }

  /** `names.filter(file => file.endsWith('.json'))`: a test on the name alone. */
  function JsonFiles(entries: seq<Entry>): seq<Entry> {
    Filter(entries, IsJsonEntry)
  }

  /** `entries.filter(dirent => dirent.isDirectory())`. */
  function Subdirectories(entries: seq<Entry>): seq<Entry> {
    Filter(entries, IsDirectoryEntry)
  }

  /** A fresh directory holding the empty directories along `path`. */
  function EmptyChain(path: Path): Node
    decreases path
  {
    if path == [] then Dir([]) else Dir([Entry(path[0], EmptyChain(path[1..]))])
  }

  /** The listing with the first entry named `name` pointing to `node` instead. */
  function ReplaceChild(entries: seq<Entry>, name: string, node: Node): seq<Entry> {
    if entries == [] then []
    else if entries[0].name == name then [Entry(name, node)] + entries[1..]
    else [entries[0]] + ReplaceChild(entries[1..], name, node)
  }

  /**
   * `fs.mkdir(path, { recursive: true })`: creates every missing directory on
   * `path`; a directory already there is fine, anything else on the way is an error.
   */
  function MkdirAll(root: Node, path: Path): Result<Node, Errno>
    decreases path
  {
    if path == [] then
      if IsDirectory(root) then Ok(root) else Err(EEXIST)
    else
      match root
      case File(_) => Err(ENOTDIR)
      case LockedDir => Err(EACCES)
      case Dir(entries) =>
        match Child(entries, path[0])
        case None => Ok(Dir(entries + [Entry(path[0], EmptyChain(path[1..]))]))
        case Some(child) =>
          match MkdirAll(child, path[1..])
          case Err(e) => Err(e)
          case Ok(child') => Ok(Dir(ReplaceChild(entries, path[0], child')))
  }

  lemma {:induction false} ChildOfReplaced(entries: seq<Entry>, name: string, node: Node)
    requires Child(entries, name).Some?
    ensures Child(ReplaceChild(entries, name, node), name) == Some(node)
  {
    if entries[0].name != name {
      ChildOfReplaced(entries[1..], name, node);
    }
  }

  lemma ChildOfAppended(entries: seq<Entry>, name: string, node: Node)
    requires Child(entries, name).None?
    ensures Child(entries + [Entry(name, node)], name) == Some(node)
  {
    if entries != [] {
      assert (entries + [Entry(name, node)])[1..] == entries[1..] + [Entry(name, node)];
      ChildOfAppended(entries[1..], name, node);
    }
  }

  lemma {:induction false} EmptyChainResolves(path: Path)
    ensures Resolve(EmptyChain(path), path) == Ok(Dir([]))
    decreases path
  {
    if path != [] {
      EmptyChainResolves(path[1..]);
    }
  }

  /** After a successful `mkdir -p`, the path leads to a directory. */
  lemma {:induction false} MkdirAllCreates(root: Node, path: Path)
    requires MkdirAll(root, path).Ok?
    ensures Resolve(MkdirAll(root, path).value, path).Ok?
    ensures IsDirectory(Resolve(MkdirAll(root, path).value, path).value)
    decreases path
  {
    if path != [] {
      var entries := root.entries;
      match Child(entries, path[0])
      case None =>
        ChildOfAppended(entries, path[0], EmptyChain(path[1..]));
        EmptyChainResolves(path[1..]);
      case Some(child) =>
        MkdirAllCreates(child, path[1..]);
        ChildOfReplaced(entries, path[0], MkdirAll(child, path[1..]).value);
    }
  }

  /** The mutable file system: what the process sees under the directory holding its sources. */
  class Disk {
    var root: Node

    constructor (root: Node)
      ensures this.root == root
    {
      this.root := root;
    }
  }
}
