/**
 * The destination filesystem as the decoder sees it: a map from paths to
 * the entries stored there.  A path is a sequence of base names relative
 * to the directory the extraction starts in, which is the empty path.
 */
module FileSystem {
  import opened Wire

  type Path = seq<Name>

  datatype Entry =
      /** A directory; its mode is the one it was created with, unchanged by
          later traffic, its mtime the one last set on it. */
    | Directory(mode: uint32, mtime: int64)
      /** A regular file with its contents and permission bits. */
    | Regular(data: seq<byte>, perm: nat, mtime: int64)
    | Symlink(referent: string)
    | Fifo(mode: uint32, mtime: int64)
    | Socket
    | Device

  type FS = map<Path, Entry>

  function Parent(p: Path): (q: Path)
    requires p != []
    ensures q + [p[|p| - 1]] == p
  {
    p[..|p| - 1]
  }

  /** The start directory exists, and every other entry sits inside a
      directory. */
  ghost predicate WellFormed(fs: FS) {
    && [] in fs && fs[[]].Directory?
    && forall q :: q in fs && q != [] ==> Parent(q) in fs && fs[Parent(q)].Directory?
  }

  /** Removes the entry at `p` together with everything below it. */
  function RemoveAll(fs: FS, p: Path): (r: FS)
    ensures p !in r
    ensures forall q :: q in r <==> q in fs && !(p <= q)
    ensures forall q :: q in r ==> r[q] == fs[q]
  {
    map q | q in fs && !(p <= q) :: fs[q]
  }

  /** Removes the entry at `p` only. */
  function Remove(fs: FS, p: Path): (r: FS)
    ensures p !in r
    ensures forall q :: q in r <==> q in fs && q != p
    ensures forall q :: q in r ==> r[q] == fs[q]
  {
    fs - {p}
  }

  /** An entry that is not a directory has nothing below it. */
  lemma {:induction false} NothingBelowLeaf(fs: FS, p: Path, q: Path)
    requires WellFormed(fs) && p in fs && !fs[p].Directory?
    requires q in fs && p <= q
    ensures q == p
    decreases |q|
  {
    if q != p {
      assert |p| < |q|;
      var up := Parent(q);
      assert p <= up by {
        assert up[..|p|] == q[..|p|];
      }
      NothingBelowLeaf(fs, p, up);
      assert false;
    }
  }

  /** Non-recursive removal of a non-directory is the same as removing
      everything below it. */
  lemma RemoveLeaf(fs: FS, p: Path)
    requires WellFormed(fs) && p in fs && !fs[p].Directory?
    ensures Remove(fs, p) == RemoveAll(fs, p)
  {
    forall q | q in fs && p <= q
      ensures q == p
    {
      NothingBelowLeaf(fs, p, q);
    }
  }

  lemma {:induction false} RemoveAllWellFormed(fs: FS, p: Path)
    requires WellFormed(fs) && p != []
    ensures WellFormed(RemoveAll(fs, p))
  {
    var r := RemoveAll(fs, p);
    forall q | q in r && q != []
      ensures Parent(q) in r && r[Parent(q)].Directory?
    {
    }
  }

  /** Creating an entry inside an existing directory. */
  lemma {:induction false} AddWellFormed(fs: FS, dir: Path, name: Name, e: Entry)
    requires WellFormed(fs) && dir in fs && fs[dir].Directory?
    requires dir + [name] in fs ==> (fs[dir + [name]].Directory? <==> e.Directory?)
    ensures WellFormed(fs[dir + [name] := e])
  {
    var p := dir + [name];
    var r := fs[p := e];
    assert Parent(p) == dir;
    forall q | q in r && q != []
      ensures Parent(q) in r && r[Parent(q)].Directory?
    {
      if q != p && Parent(q) == p {
        assert q in fs;
      }
    }
  }

  // ---------------------------------------------------------------------
  // File contents as a positioned write followed by a truncation.

  /** Writes `bytes` at offset zero, keeping whatever lies beyond them. */
  function WriteAt(data: seq<byte>, bytes: seq<byte>): (r: seq<byte>)
    ensures |r| == if |bytes| < |data| then |data| else |bytes|
    ensures r[..|bytes|] == bytes
    ensures forall k :: |bytes| <= k < |data| ==> r[k] == data[k]
  {
    if |bytes| < |data| then bytes + data[|bytes|..] else bytes
  }

  /** Cuts the contents to `n` bytes, or pads them with zero bytes. */
  function Truncate(data: seq<byte>, n: nat): (r: seq<byte>)
    ensures |r| == n
    ensures n <= |data| ==> r == data[..n]
    ensures n > |data| ==> r[..|data|] == data
  {
    if n <= |data| then data[..n] else data + seq(n - |data|, _ => 0)
  }

  /** Whatever the file held before, writing new contents and truncating to
      the count written leaves exactly the new contents. */
  lemma {:induction false} OverwriteExactly(data: seq<byte>, bytes: seq<byte>)
    ensures Truncate(WriteAt(data, bytes), |bytes|) == bytes
  {
    var w := WriteAt(data, bytes);
    assert |bytes| <= |w|;
    assert Truncate(w, |bytes|) == w[..|bytes|];
  }
}
