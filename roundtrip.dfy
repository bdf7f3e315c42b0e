/**
 * Extracting what the encoder emits for a tree reproduces the tree: every
 * entry it could read, with its name, type, file contents, permission bits
 * and link referent, and directory and file mtimes.
 */
module RoundTrip {
  import opened Wire
  import opened SourceTree
  import opened Transcript
  import opened FileSystem
  import opened Replay

  /** The entries a tree should leave below `dir`: sockets, devices, other
      types and unreadable entries leave none, and FIFOs only on Unix. */
  function Image(n: Node, dir: Path, platform: Platform): FS
    decreases Size(n), 0
  {
    var p := dir + [n.info.name];
    match n
    case RegularNode(info, size, data, readable) =>
      if readable && size <= |data| then map[p := Regular(data, info.mode % 512, info.mtime)] else map[]
    case DirectoryNode(info, children, readable) =>
      if readable then ImageAll(children, p, platform)[p := Directory(info.mode, info.mtime)] else map[]
    case SymlinkNode(_, referent, readable) =>
      if readable then map[p := Symlink(referent)] else map[]
    case FifoNode(info, readable) =>
      if readable && platform.Unix? then map[p := Fifo(info.mode, info.mtime)] else map[]
    case SocketNode(_, _) => map[]
    case DeviceNode(_) => map[]
    case OtherNode(_) => map[]
  }

  function ImageAll(cs: seq<Node>, dir: Path, platform: Platform): FS
    decreases SizeAll(cs), 1
  {
    if cs == [] then map[] else Image(cs[0], dir, platform) + ImageAll(cs[1..], dir, platform)
  }

  /** Nothing exists at or below `p`. */
  ghost predicate Fresh(fs: FS, p: Path) {
    forall q :: q in fs ==> !(p <= q)
  }

  /** Everything an entry leaves lies at or below its own path. */
  lemma {:induction false} ImageUnder(n: Node, dir: Path, platform: Platform)
    ensures forall q :: q in Image(n, dir, platform) ==> dir + [n.info.name] <= q
    decreases Size(n), 0
  {
    if n.DirectoryNode? && n.readable {
      var p := dir + [n.info.name];
      ImageAllUnder(n.children, p, platform);
      forall q | q in Image(n, dir, platform)
        ensures p <= q
      {
        if q != p {
          assert q in ImageAll(n.children, p, platform);
        }
      }
    }
  }

  lemma {:induction false} ImageAllUnder(cs: seq<Node>, dir: Path, platform: Platform)
    ensures forall q :: q in ImageAll(cs, dir, platform) ==> dir <= q && |dir| < |q|
    decreases SizeAll(cs), 1
  {
    if cs != [] {
      ImageUnder(cs[0], dir, platform);
      ImageAllUnder(cs[1..], dir, platform);
      forall q | q in Image(cs[0], dir, platform)
        ensures dir <= q && |dir| < |q|
      {
        assert (dir + [cs[0].info.name])[..|dir|] == dir;
        assert q[..|dir|] == (dir + [cs[0].info.name])[..|dir|];
      }
    }
  }

  /** One frame that is not fatal, replayed on its own. */
  lemma RunSingle(env: Env, st: State, f: Frame)
    requires Inside(st) && !Step(env, st, f).Fatal?
    ensures Run(env, st, [f]).fatal.None? && Run(env, st, [f]).st == Step(env, st, f).st
  {
    assert [f][1..] == [];
  }

  /** The one frame of a readable file, link, FIFO or socket, replayed where
      nothing of its name exists, adds the entry's image. */
  lemma LeafStep(env: Env, st: State, n: Node)
    requires Inside(st) && Fresh(st.fs, st.cwd + [n.info.name])
    requires !n.DirectoryNode? && IdealFrames(env.hash, n) != []
    ensures var s := Step(env, st, IdealFrames(env.hash, n)[0]);
      !s.Fatal? && s.st == State(st.fs + Image(n, st.cwd, env.platform), st.cwd)
  {
    assert st.cwd + [n.info.name] !in st.fs;
    match n
    case RegularNode(_, _, _, _) => FileStep(env, st, n);
    case SymlinkNode(_, _, _) => SymlinkStep(env, st, n);
    case FifoNode(_, _) => FifoStep(env, st, n);
    case SocketNode(info, _) =>
      var h := NodeHeader(info.name, info.mtime, info.mode);
      NodeHeaderRoundTrip(h, []);
      assert NodeFields(h) + [] == NodeFields(h);
      assert st.fs + map[] == st.fs;
  }

  lemma FileStep(env: Env, st: State, n: Node)
    requires Inside(st) && st.cwd + [n.info.name] !in st.fs
    requires n.RegularNode? && n.readable && n.statSize <= |n.data|
    ensures var s := Step(env, st, IdealFrames(env.hash, n)[0]);
      !s.Fatal? && s.st == State(st.fs + Image(n, st.cwd, env.platform), st.cwd)
  {
    var info := n.info;
    var p := st.cwd + [info.name];
    var h := FileHeader(info.name, info.mtime, info.mode, env.hash(n.data), n.statSize);
    FileHeaderRoundTrip(h, []);
    assert FileFields(h) + [] == FileFields(h);
    var e := Regular(n.data, info.mode % 512, info.mtime);
    assert DecodeFile(env, st, FileFrame(info, env.hash(n.data), n.statSize, n.data)) == Done(State(st.fs[p := e], st.cwd));
    assert st.fs + map[p := e] == st.fs[p := e];
  }

  lemma SymlinkStep(env: Env, st: State, n: Node)
    requires Inside(st) && st.cwd + [n.info.name] !in st.fs
    requires n.SymlinkNode? && n.readable
    ensures var s := Step(env, st, IdealFrames(env.hash, n)[0]);
      !s.Fatal? && s.st == State(st.fs + Image(n, st.cwd, env.platform), st.cwd)
  {
    var info := n.info;
    var p := st.cwd + [info.name];
    var h := SymlinkHeader(info.name, n.referent, info.mtime, info.mode);
    SymlinkHeaderRoundTrip(h, []);
    assert SymlinkFields(h) + [] == SymlinkFields(h);
    assert DecodeSymlink(st, SymlinkFrame(info, n.referent)) == Done(State(st.fs[p := Symlink(n.referent)], st.cwd));
    assert st.fs + map[p := Symlink(n.referent)] == st.fs[p := Symlink(n.referent)];
  }

  lemma FifoStep(env: Env, st: State, n: Node)
    requires Inside(st) && st.cwd + [n.info.name] !in st.fs
    requires n.FifoNode? && n.readable
    ensures var s := Step(env, st, IdealFrames(env.hash, n)[0]);
      !s.Fatal? && s.st == State(st.fs + Image(n, st.cwd, env.platform), st.cwd)
  {
    var info := n.info;
    var p := st.cwd + [info.name];
    var h := NodeHeader(info.name, info.mtime, info.mode);
    NodeHeaderRoundTrip(h, []);
    assert NodeFields(h) + [] == NodeFields(h);
    if env.platform.Unix? {
      assert DecodeFifo(env, st, FifoFrame(info)) == Done(State(st.fs[p := Fifo(info.mode, info.mtime)], st.cwd));
      assert st.fs + map[p := Fifo(info.mode, info.mtime)] == st.fs[p := Fifo(info.mode, info.mtime)];
    } else {
      assert st.fs + map[] == st.fs;
    }
  }

  /** Replaying the reference frames of one entry into a place where
      nothing of that name exists adds exactly the entry's image, ends where
      it started and is never fatal. */
  lemma {:induction false} ReplayImage(env: Env, st: State, n: Node)
    requires Inside(st) && UniqueNames(n) && Fresh(st.fs, st.cwd + [n.info.name])
    ensures var r := Run(env, st, IdealFrames(env.hash, n));
      r.fatal.None? && r.st == State(st.fs + Image(n, st.cwd, env.platform), st.cwd)
    decreases Size(n), 1
  {
    var frames := IdealFrames(env.hash, n);
    if n.DirectoryNode? && n.readable {
      ReplayDirectory(env, st, n);
    } else if frames == [] {
      assert Image(n, st.cwd, env.platform) == map[] by {
        if n.FifoNode? {
          assert !(n.readable && env.platform.Unix?);
        }
      }
      assert st.fs + map[] == st.fs;
    } else {
      assert frames == [frames[0]];
      LeafStep(env, st, n);
      RunSingle(env, st, frames[0]);
    }
  }

  /** Descending into a name that does not exist creates the directory with
      the transmitted mode and the current time. */
  lemma DescendNew(env: Env, st: State, info: Info)
    requires Inside(st) && st.cwd + [info.name] !in st.fs
    ensures var p := st.cwd + [info.name];
      && Run(env, st, [DescendFrame(info)]).fatal.None?
      && Run(env, st, [DescendFrame(info)]).st == State(st.fs[p := Directory(info.mode, env.now)], p)
  {
    var hd := DescendHeader(info.name, info.mode);
    DescendHeaderRoundTrip(hd, []);
    assert DescendFields(hd) + [] == DescendFields(hd);
    RunSingle(env, st, DescendFrame(info));
  }

  /** Ascending sets the working directory's mtime and moves to its parent. */
  lemma AscendUp(env: Env, st: State, mtime: int64)
    requires Inside(st) && st.cwd != []
    ensures && Run(env, st, [AscendFrame(mtime)]).fatal.None?
            && Run(env, st, [AscendFrame(mtime)]).st
               == State(st.fs[st.cwd := Directory(st.fs[st.cwd].mode, mtime)], Parent(st.cwd))
  {
    AscendRoundTrip(mtime, []);
    assert AscendFields(mtime) + [] == AscendFields(mtime);
    RunSingle(env, st, AscendFrame(mtime));
  }

  lemma ChildFresh(fs: FS, p: Path, e: Entry, name: Name)
    requires Fresh(fs, p)
    ensures Fresh(fs[p := e], p + [name])
  {
  }

  /** Children of a directory just created are fresh in it. */
  lemma ChildrenFresh(fs: FS, p: Path, e: Entry, cs: seq<Node>)
    requires Fresh(fs, p)
    ensures forall i :: 0 <= i < |cs| ==> Fresh(fs[p := e], p + [cs[i].info.name])
  {
    forall i | 0 <= i < |cs|
      ensures Fresh(fs[p := e], p + [cs[i].info.name])
    {
      ChildFresh(fs, p, e, cs[i].info.name);
    }
  }

  /** Two non-fatal replays in a row. */
  lemma RunThen(env: Env, st: State, a: seq<Frame>, b: seq<Frame>, mid: State, end: State)
    requires Inside(st)
    requires Run(env, st, a).fatal.None? && Run(env, st, a).st == mid
    requires Inside(mid) && Run(env, mid, b).fatal.None? && Run(env, mid, b).st == end
    ensures Run(env, st, a + b).fatal.None? && Run(env, st, a + b).st == end
  {
    RunAppend(env, st, a, b);
  }

  /** Creating a directory, filling it and then setting its mtime adds the
      directory with its final mtime and what it was filled with. */
  lemma DirectoryImage(fs: FS, p: Path, mode: uint32, now: int64, mtime: int64, img: FS)
    requires p !in img
    ensures (fs[p := Directory(mode, now)] + img)[p := Directory(mode, mtime)] == fs + img[p := Directory(mode, mtime)]
  {
  }

  /** The directory case: descend makes the directory, the children fill
      it, and ascend sets its mtime and moves back up. */
  lemma {:induction false} ReplayDirectory(env: Env, st: State, n: Node)
    requires n.DirectoryNode? && n.readable
    requires Inside(st) && UniqueNames(n) && Fresh(st.fs, st.cwd + [n.info.name])
    ensures var r := Run(env, st, IdealFrames(env.hash, n));
      r.fatal.None? && r.st == State(st.fs + Image(n, st.cwd, env.platform), st.cwd)
    decreases Size(n), 0
  {
    var info := n.info;
    var p := st.cwd + [info.name];
    var d := DescendFrame(info);
    var kids := IdealAll(env.hash, n.children);
    var a := AscendFrame(info.mtime);
    assert IdealFrames(env.hash, n) == [d] + kids + [a];

    DescendNew(env, st, info);
    var fs1 := st.fs[p := Directory(info.mode, env.now)];
    var st1 := State(fs1, p);

    ChildrenFresh(st.fs, p, Directory(info.mode, env.now), n.children);
    ReplayChildren(env, st1, n.children);
    var img := ImageAll(n.children, p, env.platform);
    var fs2 := fs1 + img;
    ImageAllUnder(n.children, p, env.platform);
    assert p !in img;
    assert fs2[p] == Directory(info.mode, env.now);

    assert Parent(p) == st.cwd;
    AscendUp(env, State(fs2, p), info.mtime);
    var fs3 := fs2[p := Directory(info.mode, info.mtime)];
    DirectoryImage(st.fs, p, info.mode, env.now, info.mtime, img);
    assert fs3 == st.fs + Image(n, st.cwd, env.platform);

    RunThen(env, st, [d], kids, st1, State(fs2, p));
    RunThen(env, st, [d] + kids, [a], State(fs2, p), State(fs3, st.cwd));
  }

  /** A later sibling's name is still fresh once an earlier sibling's image
      has been added, because the names differ. */
  lemma SiblingFresh(fs: FS, dir: Path, b: Name, c: Name, img: FS)
    requires Fresh(fs, dir + [c]) && b != c
    requires forall q :: q in img ==> dir + [b] <= q
    ensures Fresh(fs + img, dir + [c])
  {
    forall q | q in img
      ensures !(dir + [c] <= q)
    {
      assert dir + [b] <= q;
      assert (dir + [b])[|dir|] == b;
      assert q[|dir|] == b;
    }
  }

  /** After the first sibling's image is added, the others are still fresh
      and still distinct. */
  lemma RestFresh(env: Env, st: State, cs: seq<Node>)
    requires cs != [] && DistinctNames(cs)
    requires forall i :: 0 <= i < |cs| ==> Fresh(st.fs, st.cwd + [cs[i].info.name])
    ensures var fs := st.fs + Image(cs[0], st.cwd, env.platform);
      forall i :: 0 <= i < |cs[1..]| ==> Fresh(fs, st.cwd + [cs[1..][i].info.name])
    ensures DistinctNames(cs[1..])
  {
    var img := Image(cs[0], st.cwd, env.platform);
    ImageUnder(cs[0], st.cwd, env.platform);
    forall i | 0 <= i < |cs[1..]|
      ensures Fresh(st.fs + img, st.cwd + [cs[1..][i].info.name])
    {
      assert cs[1..][i] == cs[i + 1];
      SiblingFresh(st.fs, st.cwd, cs[0].info.name, cs[i + 1].info.name, img);
    }
    forall i, j | 0 <= i < j < |cs[1..]|
      ensures cs[1..][i].info.name != cs[1..][j].info.name
    {
      assert cs[1..][i] == cs[i + 1] && cs[1..][j] == cs[j + 1];
    }
  }

  lemma UnionAssociative(a: FS, b: FS, c: FS)
    ensures a + b + c == a + (b + c)
  {
  }

  /** Siblings with distinct names, none of which exists yet, add the union
      of their images. */
  lemma {:induction false} ReplayChildren(env: Env, st: State, cs: seq<Node>)
    requires Inside(st) && DistinctNames(cs) && AllUniqueNames(cs)
    requires forall i :: 0 <= i < |cs| ==> Fresh(st.fs, st.cwd + [cs[i].info.name])
    ensures var r := Run(env, st, IdealAll(env.hash, cs));
      r.fatal.None? && r.st == State(st.fs + ImageAll(cs, st.cwd, env.platform), st.cwd)
    decreases SizeAll(cs), 2
  {
    if cs != [] {
      var first := IdealFrames(env.hash, cs[0]);
      var rest := IdealAll(env.hash, cs[1..]);
      var img := Image(cs[0], st.cwd, env.platform);
      ChildSmaller(cs, 0);
      ReplayImage(env, st, cs[0]);
      var st1 := State(st.fs + img, st.cwd);
      RestFresh(env, st, cs);
      ReplayChildren(env, st1, cs[1..]);
      var imgs := ImageAll(cs[1..], st.cwd, env.platform);
      RunThen(env, st, first, rest, st1, State(st1.fs + imgs, st.cwd));
      assert IdealAll(env.hash, cs) == first + rest;
      assert ImageAll(cs, st.cwd, env.platform) == img + imgs;
      UnionAssociative(st.fs, img, imgs);
    }
  }

  /** Encoding a tree whose sibling names are distinct, with room in the
      sink for all of it, and extracting the transcript into a destination
      holding only its start directory, leaves the start directory plus the
      tree's image and ends in the start directory. */
  lemma RoundTripIntoEmpty(env: Env, n: Node, root: Entry, room: nat)
    requires root.Directory? && UniqueNames(n) && |IdealFrames(env.hash, n)| <= room
    ensures var e := DirentTranscript(env.hash, n, room);
      var r := Run(env, State(map[[] := root], []), e.frames);
      && r.fatal.None?
      && r.st == State(map[[] := root] + Image(n, [], env.platform), [])
  {
    AmpleRoom(env.hash, n, room);
    var st := State(map[[] := root], []);
    assert Inside(st);
    ReplayImage(env, st, n);
  }
}
