/**
 * What the decoder does with a transcript, as functions of the destination
 * state: one function per message handler, the tag dispatch, and the
 * driver that applies frames in order, reporting failed ones and stopping
 * at a fatal one.
 *
 * The position in the tree, which the source keeps as the process working
 * directory, is the `cwd` path of the state.
 */
module Replay {
  import opened Wire
  import opened FileSystem
  import Transcript

  datatype Option<+T> = None | Some(value: T)

  /** Which platform file supplies the FIFO and socket creators. */
  datatype Platform = Unix | Windows

  /** What the handlers take from outside the transcript: the time a new
      directory gets, the platform, and the content hash. */
  datatype Env = Env(now: int64, platform: Platform, hash: Transcript.Hash)

  datatype State = State(fs: FS, cwd: Path)

  /** The working directory and all its ancestors are directories. */
  predicate Inside(st: State) {
    && st.cwd in st.fs && st.fs[st.cwd].Directory?
    && forall k :: 0 <= k < |st.cwd| ==> st.cwd[..k] in st.fs && st.fs[st.cwd[..k]].Directory?
  }

  /** Setting the working directory's mtime and moving to its parent keeps
      the position inside directories. */
  lemma {:induction false} AscendStaysInside(st: State, mtime: int64)
    requires Inside(st)
    ensures Inside(State(st.fs[st.cwd := Directory(st.fs[st.cwd].mode, mtime)], if st.cwd == [] then [] else Parent(st.cwd)))
  {
    var fs := st.fs[st.cwd := Directory(st.fs[st.cwd].mode, mtime)];
    if st.cwd != [] {
      var up := Parent(st.cwd);
      assert up == st.cwd[..|st.cwd| - 1];
      forall k | 0 <= k < |up|
        ensures up[..k] in fs && fs[up[..k]].Directory?
      {
        assert up[..k] == st.cwd[..k];
      }
    }
  }

  datatype Failure =
    | Undecodable(error: WireError)
    | UnexpectedEOF(got: nat, want: nat)
    | HashMismatch(declared: uint64, computed: uint64)
      /** Creating a symbolic link or FIFO over an existing one. */
    | AlreadyExists
    | NotImplemented
      /** The dispatch table has no handler for the tag. */
    | NoHandler(tag: uint32)

  /** How one frame went: applied, failed with a warning (after whatever
      changes the handler made first), or failed fatally. */
  datatype Handled = Done(st: State) | Warned(st: State, failure: Failure) | Fatal(failure: Failure)

  datatype Kind = DirectoryKind | RegularKind | SymlinkKind | FifoKind | SocketKind | DeviceKind

  function KindOf(e: Entry): Kind {
    match e
    case Directory(_, _) => DirectoryKind
    case Regular(_, _, _) => RegularKind
    case Symlink(_) => SymlinkKind
    case Fifo(_, _) => FifoKind
    case Socket => SocketKind
    case Device => DeviceKind
  }

  /** A same-named entry of another type is removed, with everything below
      it, before the new one is made. */
  function ClearWrongType(fs: FS, p: Path, k: Kind): FS {
    if p in fs && KindOf(fs[p]) != k then RemoveAll(fs, p) else fs
  }

  // ---------------------------------------------------------------------
  // The handlers.

  function DecodeFile(env: Env, st: State, f: Frame): (r: Handled)
    requires Inside(st)
    ensures !r.Fatal?
    ensures Inside(r.st)
  {
    match ParseFileHeader(f.fields)
    case Err(e) => Warned(st, Undecodable(e))
    case Ok(h) =>
      // the contents are every remaining byte of the payload
      var computed := env.hash(f.body);
      if |f.body| < h.size then Warned(st, UnexpectedEOF(|f.body|, h.size))
      else if h.hash != computed then Warned(st, HashMismatch(h.hash, computed))
      else
        var p := st.cwd + [h.name];
        var fs := ClearWrongType(st.fs, p, RegularKind);
        Done(State(fs[p := Regular(f.body, h.mode % 512, h.mtime)], st.cwd))
  }

  /** The decoded mtime and mode are not applied to the link. */
  function DecodeSymlink(st: State, f: Frame): (r: Handled)
    requires Inside(st)
    ensures !r.Fatal?
    ensures Inside(r.st)
  {
    match ParseSymlinkHeader(f.fields)
    case Err(e) => Warned(st, Undecodable(e))
    case Ok(h) =>
      var p := st.cwd + [h.name];
      var fs := ClearWrongType(st.fs, p, SymlinkKind);
      if p in fs then Warned(State(fs, st.cwd), AlreadyExists)
      else Done(State(fs[p := Symlink(h.referent)], st.cwd))
  }

  function DecodeFifo(env: Env, st: State, f: Frame): (r: Handled)
    requires Inside(st)
    ensures !r.Fatal?
    ensures Inside(r.st)
  {
    match ParseNodeHeader(f.fields)
    case Err(e) => Warned(st, Undecodable(e))
    case Ok(h) =>
      var p := st.cwd + [h.name];
      var fs := ClearWrongType(st.fs, p, FifoKind);
      if env.platform.Windows? then Warned(State(fs, st.cwd), NotImplemented)
      else if p in fs then Warned(State(fs, st.cwd), AlreadyExists)
      else Done(State(fs[p := Fifo(h.mode, h.mtime)], st.cwd))
  }

  /** Socket creation is not implemented on either platform. */
  function DecodeSocket(st: State, f: Frame): (r: Handled)
    requires Inside(st)
    ensures !r.Fatal?
    ensures Inside(r.st)
    ensures r.Warned?
  {
    match ParseNodeHeader(f.fields)
    case Err(e) => Warned(st, Undecodable(e))
    case Ok(h) =>
      var p := st.cwd + [h.name];
      Warned(State(ClearWrongType(st.fs, p, SocketKind), st.cwd), NotImplemented)
  }

  function DecodeDevice(st: State, f: Frame): (r: Handled)
    requires Inside(st)
    ensures !r.Fatal?
    ensures Inside(r.st)
    ensures r.Warned? && r.st == st
  {
    match ReadString(f.fields)
    case Err(e) => Warned(st, Undecodable(e))
    case Ok(_) => Warned(st, NotImplemented)
  }

  /** Every failure here is fatal.  A non-directory in the way is removed
      non-recursively; the new directory gets the transmitted mode. */
  function DecodeDescend(env: Env, st: State, f: Frame): (r: Handled)
    requires Inside(st)
    ensures r.Done? ==> Inside(r.st)
  {
    match ParseDescendHeader(f.fields)
    case Err(e) => Fatal(Undecodable(e))
    case Ok(h) =>
      var p := st.cwd + [h.name];
      if p in st.fs && st.fs[p].Directory? then
        DescendStaysInside(st, h.name, st.fs);
        Done(State(st.fs, p))
      else
        var fs := if p in st.fs then Remove(st.fs, p) else st.fs;
        DescendStaysInside(st, h.name, fs[p := Directory(h.mode, env.now)]);
        Done(State(fs[p := Directory(h.mode, env.now)], p))
  }

  /** Moving into a directory just below the working directory, with the
      working directory and its ancestors left as they were. */
  lemma {:induction false} DescendStaysInside(st: State, name: Name, fs: FS)
    requires Inside(st)
    requires st.cwd + [name] in fs && fs[st.cwd + [name]].Directory?
    requires forall q :: q in st.fs && |q| <= |st.cwd| ==> q in fs && fs[q] == st.fs[q]
    ensures Inside(State(fs, st.cwd + [name]))
  {
    var p := st.cwd + [name];
    forall k | 0 <= k < |p|
      ensures p[..k] in fs && fs[p[..k]].Directory?
    {
      if k == |st.cwd| {
        assert p[..k] == st.cwd;
      } else {
        assert p[..k] == st.cwd[..k];
      }
    }
  }

  /** Sets the mtime of the directory being left, then moves to its parent.
      Positions above the start directory are outside the destination and
      are not represented: an ascend at the start directory stays there. */
  function DecodeAscend(st: State, f: Frame): (r: Handled)
    requires Inside(st)
    ensures !r.Fatal?
    ensures Inside(r.st)
  {
    match ParseAscendMtime(f.fields)
    case Err(e) => Warned(st, Undecodable(e))
    case Ok(mtime) =>
      AscendStaysInside(st, mtime);
      var fs := st.fs[st.cwd := Directory(st.fs[st.cwd].mode, mtime)];
      Done(State(fs, if st.cwd == [] then [] else Parent(st.cwd)))
  }

  /** The tag dispatch table. */
  function Step(env: Env, st: State, f: Frame): (r: Handled)
    requires Inside(st)
    ensures !r.Fatal? ==> Inside(r.st)
    ensures r.Fatal? ==> f.tag == DirectoryDescendTag
  {
    if f.tag == RegularFileTag then DecodeFile(env, st, f)
    else if f.tag == DirectoryAscendTag then DecodeAscend(st, f)
    else if f.tag == DirectoryDescendTag then DecodeDescend(env, st, f)
    else if f.tag == SymlinkTag then DecodeSymlink(st, f)
    else if f.tag == FifoTag then DecodeFifo(env, st, f)
    else if f.tag == SocketTag then DecodeSocket(st, f)
    else if f.tag == DeviceTag then DecodeDevice(st, f)
    else Warned(st, NoHandler(f.tag))
  }

  /** The end state, the failures reported along the way, and the fatal
      failure that stopped the pass, if any. */
  datatype Replayed = Replayed(st: State, warnings: seq<Failure>, fatal: Option<Failure>)

  function Run(env: Env, st: State, frames: seq<Frame>): (r: Replayed)
    requires Inside(st)
    ensures r.fatal.None? ==> Inside(r.st)
    ensures |r.warnings| <= |frames|
    decreases |frames|
  {
    if frames == [] then Replayed(st, [], None)
    else
      match Step(env, st, frames[0])
      case Done(next) => Run(env, next, frames[1..])
      case Warned(next, e) =>
        var rest := Run(env, next, frames[1..]);
        Replayed(rest.st, [e] + rest.warnings, rest.fatal)
      case Fatal(e) => Replayed(st, [], Some(e))
  }

  /** One step of the replay: a fatal first frame stops it, a warned one is
      reported ahead of the rest. */
  lemma RunCons(env: Env, st: State, frames: seq<Frame>)
    requires Inside(st) && frames != []
    ensures var s := Step(env, st, frames[0]);
      Run(env, st, frames) ==
        if s.Fatal? then Replayed(st, [], Some(s.failure))
        else if s.Done? then Run(env, s.st, frames[1..])
        else Replayed(Run(env, s.st, frames[1..]).st, [s.failure] + Run(env, s.st, frames[1..]).warnings, Run(env, s.st, frames[1..]).fatal)
  {
  }

  /** Replaying a concatenation is replaying its parts one after the
      other. */
  lemma {:induction false} RunAppend(env: Env, st: State, a: seq<Frame>, b: seq<Frame>)
    requires Inside(st)
    ensures Run(env, st, a).fatal.Some? ==> Run(env, st, a + b) == Run(env, st, a)
    ensures Run(env, st, a).fatal.None? ==>
      var ra := Run(env, st, a);
      var rb := Run(env, ra.st, b);
      Run(env, st, a + b) == Replayed(rb.st, ra.warnings + rb.warnings, rb.fatal)
    decreases |a|, 1
  {
    if a == [] {
      assert a + b == b;
    } else {
      var s := Step(env, st, a[0]);
      if s.Done? {
        RunAppendDone(env, st, a, b);
      } else if s.Warned? {
        RunAppendWarned(env, st, a, b);
      } else {
        RunCons(env, st, a);
        assert (a + b)[0] == a[0];
        RunCons(env, st, a + b);
      }
    }
  }

  lemma {:induction false} RunAppendDone(env: Env, st: State, a: seq<Frame>, b: seq<Frame>)
    requires Inside(st) && a != [] && Step(env, st, a[0]).Done?
    ensures Run(env, st, a).fatal.Some? ==> Run(env, st, a + b) == Run(env, st, a)
    ensures Run(env, st, a).fatal.None? ==>
      var ra := Run(env, st, a);
      var rb := Run(env, ra.st, b);
      Run(env, st, a + b) == Replayed(rb.st, ra.warnings + rb.warnings, rb.fatal)
    decreases |a|, 0
  {
    var s := Step(env, st, a[0]);
    assert (a + b)[0] == a[0];
    assert (a + b)[1..] == a[1..] + b;
    RunCons(env, st, a);
    RunCons(env, st, a + b);
    RunAppend(env, s.st, a[1..], b);
  }

  lemma {:induction false} RunAppendWarned(env: Env, st: State, a: seq<Frame>, b: seq<Frame>)
    requires Inside(st) && a != [] && Step(env, st, a[0]).Warned?
    ensures Run(env, st, a).fatal.Some? ==> Run(env, st, a + b) == Run(env, st, a)
    ensures Run(env, st, a).fatal.None? ==>
      var ra := Run(env, st, a);
      var rb := Run(env, ra.st, b);
      Run(env, st, a + b) == Replayed(rb.st, ra.warnings + rb.warnings, rb.fatal)
    decreases |a|, 0
  {
    var s := Step(env, st, a[0]);
    assert (a + b)[0] == a[0];
    assert (a + b)[1..] == a[1..] + b;
    RunCons(env, st, a);
    RunCons(env, st, a + b);
    var ra := Run(env, s.st, a[1..]);
    RunAppend(env, s.st, a[1..], b);
    var rb := if ra.fatal.None? then Run(env, ra.st, b) else ra;
    WarnedJoin(s.failure, ra, rb, Run(env, s.st, a[1..] + b), Run(env, st, a), Run(env, st, a + b));
  }

  /** The bookkeeping of a warned first step: its failure heads the
      warnings of the whole replay, with or without the appended part. */
  lemma WarnedJoin(e: Failure, ra: Replayed, rb: Replayed, rab: Replayed, x: Replayed, y: Replayed)
    requires x == Replayed(ra.st, [e] + ra.warnings, ra.fatal)
    requires y == Replayed(rab.st, [e] + rab.warnings, rab.fatal)
    requires ra.fatal.Some? ==> rab == ra
    requires ra.fatal.None? ==> rab == Replayed(rb.st, ra.warnings + rb.warnings, rb.fatal)
    ensures x.fatal.Some? ==> y == x
    ensures x.fatal.None? ==> y == Replayed(rb.st, x.warnings + rb.warnings, rb.fatal)
  {
    if ra.fatal.None? {
      assert [e] + (ra.warnings + rb.warnings) == [e] + ra.warnings + rb.warnings;
    }
  }

  // ---------------------------------------------------------------------
  // Depth: descend and ascend move one level, everything else stays put.

  lemma DescendMoves(env: Env, st: State, f: Frame)
    requires Inside(st) && f.tag == DirectoryDescendTag
    ensures var r := Step(env, st, f);
      && (r.Fatal? <==> ParseDescendHeader(f.fields).Err?)
      && (r.Done? <==> ParseDescendHeader(f.fields).Ok?)
      && (r.Done? ==> r.st.cwd == st.cwd + [ParseDescendHeader(f.fields).value.name])
  {
  }

  lemma AscendMoves(st: State, env: Env, f: Frame)
    requires Inside(st) && f.tag == DirectoryAscendTag
    ensures var r := Step(env, st, f);
      && !r.Fatal?
      && (r.Done? <==> ParseAscendMtime(f.fields).Ok?)
      && (r.Warned? ==> r.st == st)
      && (r.Done? ==> r.st.cwd == if st.cwd == [] then [] else Parent(st.cwd))
      && (r.Done? ==> r.st.fs == st.fs[st.cwd := Directory(st.fs[st.cwd].mode, ParseAscendMtime(f.fields).value)])
  {
  }

  /** Nothing but a descend can be fatal, and nothing but a descend or an
      ascend moves the working directory. */
  lemma OthersStay(env: Env, st: State, f: Frame)
    requires Inside(st) && f.tag != DirectoryDescendTag && f.tag != DirectoryAscendTag
    ensures !Step(env, st, f).Fatal? && Step(env, st, f).st.cwd == st.cwd
  {
  }

  // ---------------------------------------------------------------------
  // Each handler touches nothing but its own entry and what lies below it.

  ghost predicate SameOutside(fs: FS, fs': FS, p: Path) {
    forall q :: !(p <= q) ==> (q in fs <==> q in fs') && (q in fs ==> fs[q] == fs'[q])
  }

  /** The name an entry message carries. */
  function EntryName(f: Frame): Option<Name> {
    match ReadString(f.fields)
    case Ok(v) => Some(v.0)
    case Err(_) => None
  }

  /** Clearing a name, then perhaps creating an entry there, touches
      nothing outside it. */
  /** Clearing a name for an entry of kind `k` leaves nothing of another
      kind there, only ever removes entries, keeps everything outside the
      name, and changes nothing when the entry already has kind `k`. */
  lemma ClearWrongTypeRules(fs: FS, p: Path, k: Kind)
    ensures var r := ClearWrongType(fs, p, k);
      && (p in r ==> KindOf(r[p]) == k)
      && (forall q :: q in r ==> q in fs && r[q] == fs[q])
      && (forall q :: q in fs && !(p <= q) ==> q in r)
      && (p in fs && KindOf(fs[p]) == k ==> r == fs)
      && (p in fs && KindOf(fs[p]) != k ==> r == RemoveAll(fs, p))
  {
  }

  lemma ClearThenSetIsLocal(fs: FS, p: Path, k: Kind, e: Option<Entry>)
    ensures var c := ClearWrongType(fs, p, k);
      SameOutside(fs, if e.Some? then c[p := e.value] else c, p)
  {
    var c := ClearWrongType(fs, p, k);
    var r := if e.Some? then c[p := e.value] else c;
    forall q | !(p <= q)
      ensures (q in fs <==> q in r) && (q in fs ==> fs[q] == r[q])
    {
      assert q != p;
    }
  }

  lemma FileIsLocal(env: Env, st: State, f: Frame)
    requires Inside(st) && ParseFileHeader(f.fields).Ok?
    ensures var h := ParseFileHeader(f.fields).value;
      SameOutside(st.fs, DecodeFile(env, st, f).st.fs, st.cwd + [h.name])
  {
    var h := ParseFileHeader(f.fields).value;
    var p := st.cwd + [h.name];
    if DecodeFile(env, st, f).Done? {
      ClearThenSetIsLocal(st.fs, p, RegularKind, Some(Regular(f.body, h.mode % 512, h.mtime)));
    } else {
      assert DecodeFile(env, st, f).st == st;
      SameOutsideRefl(st.fs, p);
    }
  }

  lemma SameOutsideRefl(fs: FS, p: Path)
    ensures SameOutside(fs, fs, p)
  {
  }

  lemma SymlinkIsLocal(st: State, f: Frame)
    requires Inside(st) && ParseSymlinkHeader(f.fields).Ok?
    ensures var h := ParseSymlinkHeader(f.fields).value;
      SameOutside(st.fs, DecodeSymlink(st, f).st.fs, st.cwd + [h.name])
  {
    var h := ParseSymlinkHeader(f.fields).value;
    var p := st.cwd + [h.name];
    var r := DecodeSymlink(st, f);
    ClearThenSetIsLocal(st.fs, p, SymlinkKind, if r.Done? then Some(Symlink(h.referent)) else None);
  }

  lemma FifoIsLocal(env: Env, st: State, f: Frame)
    requires Inside(st) && ParseNodeHeader(f.fields).Ok?
    ensures var h := ParseNodeHeader(f.fields).value;
      SameOutside(st.fs, DecodeFifo(env, st, f).st.fs, st.cwd + [h.name])
  {
    var h := ParseNodeHeader(f.fields).value;
    var p := st.cwd + [h.name];
    var r := DecodeFifo(env, st, f);
    ClearThenSetIsLocal(st.fs, p, FifoKind, if r.Done? then Some(Fifo(h.mode, h.mtime)) else None);
  }

  lemma SocketIsLocal(st: State, f: Frame)
    requires Inside(st) && ParseNodeHeader(f.fields).Ok?
    ensures var h := ParseNodeHeader(f.fields).value;
      SameOutside(st.fs, DecodeSocket(st, f).st.fs, st.cwd + [h.name])
  {
    var h := ParseNodeHeader(f.fields).value;
    ClearThenSetIsLocal(st.fs, st.cwd + [h.name], SocketKind, None);
  }

  lemma {:induction false} EntryStepsAreLocal(env: Env, st: State, f: Frame)
    requires Inside(st) && f.tag != DirectoryDescendTag && f.tag != DirectoryAscendTag
    ensures var r := Step(env, st, f);
      && (EntryName(f).None? ==> r.st == st)
      && (EntryName(f).Some? ==> SameOutside(st.fs, r.st.fs, st.cwd + [EntryName(f).value]))
  {
    var r := Step(env, st, f);
    if EntryName(f).Some? {
      var p := st.cwd + [EntryName(f).value];
      if f.tag == RegularFileTag && ParseFileHeader(f.fields).Ok? {
        FileIsLocal(env, st, f);
      } else if f.tag == SymlinkTag && ParseSymlinkHeader(f.fields).Ok? {
        SymlinkIsLocal(st, f);
      } else if f.tag == FifoTag && ParseNodeHeader(f.fields).Ok? {
        FifoIsLocal(env, st, f);
      } else if f.tag == SocketTag && ParseNodeHeader(f.fields).Ok? {
        SocketIsLocal(st, f);
      } else {
        SameOutsideRefl(st.fs, p);
      }
    }
  }

  // ---------------------------------------------------------------------
  // Regular files.

  /** The truncation and hash checks decide, before anything is changed:
      a file message is applied exactly when its payload has at least the
      declared size and hashes to the declared value, and otherwise the
      state is left as it was. */
  lemma FileChecksFirst(env: Env, st: State, f: Frame)
    requires Inside(st) && f.tag == RegularFileTag && ParseFileHeader(f.fields).Ok?
    ensures var h := ParseFileHeader(f.fields).value;
      var r := Step(env, st, f);
      && (r.Done? <==> h.size <= |f.body| && h.hash == env.hash(f.body))
      && (|f.body| < h.size ==> r == Warned(st, UnexpectedEOF(|f.body|, h.size)))
      && (h.size <= |f.body| && h.hash != env.hash(f.body) ==> r == Warned(st, HashMismatch(h.hash, env.hash(f.body))))
  {
  }

  /** An applied file message leaves a regular file holding exactly the
      payload contents, with the permission bits of the mode and the
      decoded mtime; an entry of another type is replaced with everything
      below it, and a regular file is overwritten in place. */
  lemma {:induction false} FileReplaces(env: Env, st: State, f: Frame)
    requires Inside(st) && f.tag == RegularFileTag && ParseFileHeader(f.fields).Ok?
    requires Step(env, st, f).Done?
    ensures var h := ParseFileHeader(f.fields).value;
      var p := st.cwd + [h.name];
      var r := Step(env, st, f).st;
      && r.cwd == st.cwd
      && r.fs[p] == Regular(f.body, h.mode % 512, h.mtime)
      && SameOutside(st.fs, r.fs, p)
      && (p in st.fs && st.fs[p].Regular? ==> r.fs == st.fs[p := r.fs[p]])
      && (p in st.fs && !st.fs[p].Regular? ==> forall q :: p < q ==> q !in r.fs)
  {
    var h := ParseFileHeader(f.fields).value;
    var p := st.cwd + [h.name];
    var r := Step(env, st, f).st;
    forall q | !(p <= q)
      ensures (q in st.fs <==> q in r.fs) && (q in st.fs ==> st.fs[q] == r.fs[q])
    {
      assert q != p;
    }
  }

  // ---------------------------------------------------------------------
  // Directories.

  /** Descending into an existing directory changes nothing else; into an
      absent name or a non-directory, it makes a new directory with the
      transmitted mode, removing the entry that was in the way. */
  lemma {:induction false} DescendRules(env: Env, st: State, f: Frame)
    requires Inside(st) && f.tag == DirectoryDescendTag && ParseDescendHeader(f.fields).Ok?
    ensures var h := ParseDescendHeader(f.fields).value;
      var p := st.cwd + [h.name];
      var r := Step(env, st, f);
      && r.Done? && r.st.cwd == p
      && (p in st.fs && st.fs[p].Directory? ==> r.st.fs == st.fs)
      && (!(p in st.fs && st.fs[p].Directory?) ==> r.st.fs == st.fs - {p} + map[p := Directory(h.mode, env.now)])
      && (forall q :: q != p ==> (q in st.fs <==> q in r.st.fs) && (q in st.fs ==> st.fs[q] == r.st.fs[q]))
  {
    var h := ParseDescendHeader(f.fields).value;
    var p := st.cwd + [h.name];
    var r := Step(env, st, f);
    if !(p in st.fs && st.fs[p].Directory?) {
      assert r.st.fs == st.fs - {p} + map[p := Directory(h.mode, env.now)];
    }
  }

  // ---------------------------------------------------------------------
  // Symbolic links, FIFOs, sockets, devices and unknown tags.

  /** A link is made unless one already exists under that name, in which
      case creation fails and nothing changes. */
  lemma {:induction false} SymlinkRules(env: Env, st: State, f: Frame)
    requires Inside(st) && f.tag == SymlinkTag && ParseSymlinkHeader(f.fields).Ok?
    ensures var h := ParseSymlinkHeader(f.fields).value;
      var p := st.cwd + [h.name];
      var r := Step(env, st, f);
      && (r.Done? <==> !(p in st.fs && st.fs[p].Symlink?))
      && (r.Warned? ==> r == Warned(st, AlreadyExists))
      && (r.Done? ==> r.st.fs[p] == Symlink(h.referent))
  {
    var h := ParseSymlinkHeader(f.fields).value;
    var p := st.cwd + [h.name];
    if p in st.fs && st.fs[p].Symlink? {
      assert ClearWrongType(st.fs, p, SymlinkKind) == st.fs;
    }
  }

  /** On Unix a FIFO is made unless one already exists; on Windows creation
      always fails, after any entry of another type has been removed. */
  lemma {:induction false} FifoRules(env: Env, st: State, f: Frame)
    requires Inside(st) && f.tag == FifoTag && ParseNodeHeader(f.fields).Ok?
    ensures var h := ParseNodeHeader(f.fields).value;
      var p := st.cwd + [h.name];
      var r := Step(env, st, f);
      && (r.Done? <==> env.platform.Unix? && !(p in st.fs && st.fs[p].Fifo?))
      && (r.Done? ==> r.st.fs[p] == Fifo(h.mode, h.mtime))
      && (env.platform.Windows? ==> r == Warned(State(ClearWrongType(st.fs, p, FifoKind), st.cwd), NotImplemented))
      && (p in st.fs && st.fs[p].Fifo? && env.platform.Unix? ==> r == Warned(st, AlreadyExists))
  {
    var h := ParseNodeHeader(f.fields).value;
    var p := st.cwd + [h.name];
    if p in st.fs && st.fs[p].Fifo? {
      assert ClearWrongType(st.fs, p, FifoKind) == st.fs;
    }
  }

  /** A socket message never succeeds; it only removes an entry of another
      type in the way. */
  lemma SocketNeverMade(env: Env, st: State, f: Frame)
    requires Inside(st) && f.tag == SocketTag
    ensures var r := Step(env, st, f);
      && r.Warned?
      && (ParseNodeHeader(f.fields).Ok? ==> r.failure == NotImplemented)
      && forall q :: q in r.st.fs ==> q in st.fs && r.st.fs[q] == st.fs[q]
  {
  }

  /** Device messages, the two handshake tags and every tag past the last
      defined one always fail, leaving the state as it was. */
  lemma UnhandledAlwaysFail(env: Env, st: State, f: Frame)
    requires Inside(st)
    requires f.tag == DeviceTag || f.tag == SynTag || f.tag == SynAckTag || f.tag > DeviceTag
    ensures Step(env, st, f).Warned? && Step(env, st, f).st == st
    ensures f.tag != DeviceTag ==> Step(env, st, f).failure == NoHandler(f.tag)
    ensures f.tag == DeviceTag && ReadString(f.fields).Ok? ==> Step(env, st, f).failure == NotImplemented
  {
  }

  // ---------------------------------------------------------------------
  // Well-formedness is kept by every step.

  lemma {:induction false} ClearKeepsWellFormed(fs: FS, p: Path, k: Kind)
    requires WellFormed(fs) && p != []
    ensures WellFormed(ClearWrongType(fs, p, k))
  {
    if p in fs && KindOf(fs[p]) != k {
      RemoveAllWellFormed(fs, p);
    }
  }

  lemma {:induction false} StepKeepsWellFormed(env: Env, st: State, f: Frame)
    requires Inside(st) && WellFormed(st.fs)
    ensures !Step(env, st, f).Fatal? ==> WellFormed(Step(env, st, f).st.fs)
  {
    var r := Step(env, st, f);
    if f.tag == RegularFileTag && r.Done? {
      var h := ParseFileHeader(f.fields).value;
      var p := st.cwd + [h.name];
      ClearKeepsWellFormed(st.fs, p, RegularKind);
      AddWellFormed(ClearWrongType(st.fs, p, RegularKind), st.cwd, h.name, Regular(f.body, h.mode % 512, h.mtime));
    } else if f.tag == DirectoryAscendTag && r.Done? {
      var fs := r.st.fs;
      forall q | q in fs && q != []
        ensures Parent(q) in fs && fs[Parent(q)].Directory?
      {
      }
    } else if f.tag == DirectoryDescendTag && r.Done? {
      var h := ParseDescendHeader(f.fields).value;
      var p := st.cwd + [h.name];
      if !(p in st.fs && st.fs[p].Directory?) {
        var fs := if p in st.fs then Remove(st.fs, p) else st.fs;
        if p in st.fs {
          RemoveLeaf(st.fs, p);
          RemoveAllWellFormed(st.fs, p);
        }
        AddWellFormed(fs, st.cwd, h.name, Directory(h.mode, env.now));
      }
    } else if f.tag == SymlinkTag && ParseSymlinkHeader(f.fields).Ok? {
      var h := ParseSymlinkHeader(f.fields).value;
      var p := st.cwd + [h.name];
      ClearKeepsWellFormed(st.fs, p, SymlinkKind);
      if r.Done? {
        AddWellFormed(ClearWrongType(st.fs, p, SymlinkKind), st.cwd, h.name, Symlink(h.referent));
      }
    } else if f.tag == FifoTag && ParseNodeHeader(f.fields).Ok? {
      var h := ParseNodeHeader(f.fields).value;
      var p := st.cwd + [h.name];
      ClearKeepsWellFormed(st.fs, p, FifoKind);
      if r.Done? {
        AddWellFormed(ClearWrongType(st.fs, p, FifoKind), st.cwd, h.name, Fifo(h.mode, h.mtime));
      }
    } else if f.tag == SocketTag && ParseNodeHeader(f.fields).Ok? {
      var h := ParseNodeHeader(f.fields).value;
      ClearKeepsWellFormed(st.fs, st.cwd + [h.name], SocketKind);
    }
  }

  lemma {:induction false} RunKeepsWellFormed(env: Env, st: State, frames: seq<Frame>)
    requires Inside(st) && WellFormed(st.fs)
    ensures WellFormed(Run(env, st, frames).st.fs)
    decreases |frames|
  {
    if frames != [] {
      StepKeepsWellFormed(env, st, frames[0]);
      match Step(env, st, frames[0])
      case Done(next) => RunKeepsWellFormed(env, next, frames[1..]);
      case Warned(next, _) => RunKeepsWellFormed(env, next, frames[1..]);
      case Fatal(_) =>
    }
  }
}
