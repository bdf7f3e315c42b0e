/**
 * The tree the encoder walks, supplied as input.  Directory enumeration and
 * entry classification come from an external library; each node records
 * the class it was given, the metadata the encoder's stat of it returns,
 * and whether that stat (or open, read, readlink, directory read) succeeds.
 */
module SourceTree {
  import opened Wire

  /** What a stat of the entry reports: base name, mtime in Unix seconds, and
      the raw mode bits. */
  datatype Info = Info(name: Name, mtime: int64, mode: uint32)

  datatype Node =
      /** A regular file whose stat reports `statSize` bytes and whose read
          until end of file yields `data`. */
    | RegularNode(info: Info, statSize: nat, data: seq<byte>, readable: bool)
      /** A directory with its children in the order the listing gives them. */
    | DirectoryNode(info: Info, children: seq<Node>, readable: bool)
    | SymlinkNode(info: Info, referent: string, readable: bool)
    | FifoNode(info: Info, readable: bool)
    | SocketNode(info: Info, readable: bool)
    | DeviceNode(info: Info)
      /** Any other entry type. */
    | OtherNode(info: Info)

  /** A command-line target: either it resolves to an entry, or it does not. */
  datatype Target = Found(node: Node) | Unresolved(path: string)

  function Size(n: Node): nat {
    if n.DirectoryNode? then 1 + SizeAll(n.children) else 1
  }

  function SizeAll(cs: seq<Node>): nat {
    if cs == [] then 0 else Size(cs[0]) + SizeAll(cs[1..])
  }

  lemma {:induction false} ChildSmaller(cs: seq<Node>, i: nat)
    requires i < |cs|
    ensures Size(cs[i]) <= SizeAll(cs)
  {
    if i > 0 {
      ChildSmaller(cs[1..], i - 1);
    }
  }

  /** Sibling names are distinct, at every level of the tree. */
  predicate UniqueNames(n: Node)
    decreases Size(n), 0
  {
    n.DirectoryNode? ==> DistinctNames(n.children) && AllUniqueNames(n.children)
  }

  predicate AllUniqueNames(cs: seq<Node>)
    decreases SizeAll(cs), 1
  {
    cs != [] ==> UniqueNames(cs[0]) && AllUniqueNames(cs[1..])
  }

  predicate DistinctNames(cs: seq<Node>) {
    forall i, j :: 0 <= i < j < |cs| ==> cs[i].info.name != cs[j].info.name
  }
}
