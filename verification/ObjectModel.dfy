/** The object database: commits, trees, tags and blobs that name each other by
    id, and a local store that holds some of them. */
module ObjectModel {
  import opened Reachability

  /** The kinds of tree entry the walks tell apart. */
  datatype FileMode = Dir | Regular | Executable | Symlink | Submodule

  datatype TreeEntry = TreeEntry(mode: FileMode, hash: Hash)

  datatype Object =
    | CommitObject(tree: Hash, parents: seq<Hash>, when: int)
    | TreeObject(entries: seq<TreeEntry>)
    | TagObject(target: Hash)
    | BlobObject

  datatype ObjectType = CommitType | TreeType | TagType | BlobType

  function TypeOf(o: Object): ObjectType {
    match o
    case CommitObject(_, _, _) => CommitType
    case TreeObject(_) => TreeType
    case TagObject(_) => TagType
    case BlobObject => BlobType
  }

  /** The whole history a repository takes part in, wherever its parts are stored. */
  type Graph = map<Hash, Object>

  /** What an object links to. A submodule entry names a commit of another
      repository, so it links to nothing here; a shallow root has no parents. */
  function Links(o: Object, shallowRoot: bool): set<Hash> {
    match o
    case CommitObject(t, ps, _) => if shallowRoot then {t} else {t} + (set p | p in ps)
    case TreeObject(es) => set e | e in es && e.mode != Submodule :: e.hash
    case TagObject(t) => {t}
    case BlobObject => {}
  }

  function EdgesOf(g: Graph, shallow: set<Hash>): Edges {
    map h | h in g :: Links(g[h], h in shallow)
  }

  /** The type a tree entry with this mode refers to. */
  function EntryType(m: FileMode): ObjectType {
    if m == Dir then TreeType else BlobType
  }

  /** An entry that is not a directory names a blob, wherever that blob is. */
  ghost predicate FileEntriesNameBlobs(g: Graph) {
    forall h, e :: h in g && g[h].TreeObject? && e in g[h].entries && e.mode != Dir && e.mode != Submodule && e.hash in g
      ==> g[e.hash].BlobObject?
  }

  /** Every link names an object of the kind it should. */
  ghost predicate WellTyped(g: Graph) {
    && FileEntriesNameBlobs(g)
    && (forall h, e :: h in g && g[h].TreeObject? && e in g[h].entries && e.mode == Dir && e.hash in g
          ==> g[e.hash].TreeObject?)
    && (forall h :: h in g && g[h].CommitObject? && g[h].tree in g ==> g[g[h].tree].TreeObject?)
    && (forall h, p :: h in g && g[h].CommitObject? && p in g[h].parents && p in g ==> g[p].CommitObject?)
  }

  datatype Lookup<+T> = Found(value: T) | NotFound | Failed

  /** The local store: the objects it holds, the ids whose read fails with an
      error other than "not found", and the shallow roots. */
  datatype Store = Store(objects: map<Hash, Object>, broken: set<Hash>, shallow: set<Hash>)

  /** The commit and tree values the walks carry around. */
  datatype Commit = Commit(hash: Hash, tree: Hash, parents: seq<Hash>, when: int)

  datatype Tree = Tree(hash: Hash, entries: seq<TreeEntry>)

  function GetObject(s: Store, h: Hash): Lookup<Object> {
    if h in s.broken then Failed else if h in s.objects then Found(s.objects[h]) else NotFound
  }

  /** An object of another type counts as not found. */
  function GetCommit(s: Store, h: Hash): Lookup<Commit> {
    match GetObject(s, h)
    case Found(o) => if o.CommitObject? then Found(Commit(h, o.tree, o.parents, o.when)) else NotFound
    case NotFound => NotFound
    case Failed => Failed
  }

  function GetTree(s: Store, h: Hash): Lookup<Tree> {
    match GetObject(s, h)
    case Found(o) => if o.TreeObject? then Found(Tree(h, o.entries)) else NotFound
    case NotFound => NotFound
    case Failed => Failed
  }

  /** The store holds a part of the graph, and never something else under an id
      of the graph. */
  ghost predicate HoldsPartOf(s: Store, g: Graph) {
    forall h :: h in s.objects ==> h in g && g[h] == s.objects[h]
  }
}
