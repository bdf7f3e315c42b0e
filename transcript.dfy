/**
 * What the encoder emits for a tree, as functions of the tree and of the
 * room left in the sink.  The sink is an external byte channel; it is
 * modelled as accepting frames until it has accepted `limit` of them and
 * refusing every frame after that, so `room` is the number of frames it
 * will still take.
 */
module Transcript {
  import opened Wire
  import opened SourceTree

  /** The content hasher (xxHash64), left abstract. */
  type Hash = seq<byte> -> uint64

  datatype EncodeError =
    | CannotAccess                   // stat, open, read, readlink or directory read failed
    | ShortRead(got: nat, want: nat) // fewer bytes read than the stat reported
    | SinkFailed                     // the sink refused the frame
    | Unsupported                    // device node or other unsupported type
    | CannotResolve                  // a command-line target could not be resolved

  datatype Outcome = Encoded | Failed(error: EncodeError) | Halted

  /** A diagnostic about an entry whose encoding failed. */
  datatype Warning = Warning(subject: string, error: EncodeError)

  datatype Emitted = Emitted(frames: seq<Frame>, warnings: seq<Warning>, outcome: Outcome)

  // ---------------------------------------------------------------------
  // The frame of each entry kind.

  function FileFrame(info: Info, hash: uint64, size: nat, data: seq<byte>): Frame {
    Frame(RegularFileTag, FileFields(FileHeader(info.name, info.mtime, info.mode, hash, size)), data)
  }

  function DescendFrame(info: Info): Frame {
    Frame(DirectoryDescendTag, DescendFields(DescendHeader(info.name, info.mode)), [])
  }

  function AscendFrame(mtime: int64): Frame {
    Frame(DirectoryAscendTag, AscendFields(mtime), [])
  }

  function SymlinkFrame(info: Info, referent: string): Frame {
    Frame(SymlinkTag, SymlinkFields(SymlinkHeader(info.name, referent, info.mtime, info.mode)), [])
  }

  function FifoFrame(info: Info): Frame {
    Frame(FifoTag, NodeFields(NodeHeader(info.name, info.mtime, info.mode)), [])
  }

  function SocketFrame(info: Info): Frame {
    Frame(SocketTag, NodeFields(NodeHeader(info.name, info.mtime, info.mode)), [])
  }

  // ---------------------------------------------------------------------
  // The transcript.

  function Fail(e: EncodeError): Emitted {
    Emitted([], [], Failed(e))
  }

  /** Handing one frame to the sink. */
  function Compose(f: Frame, room: nat): Emitted {
    if room > 0 then Emitted([f], [], Encoded) else Fail(SinkFailed)
  }

  function FileTranscript(hash: Hash, n: Node, room: nat): Emitted
    requires n.RegularNode?
  {
    if !n.readable then Fail(CannotAccess)
    else if |n.data| < n.statSize then Fail(ShortRead(|n.data|, n.statSize))
    else Compose(FileFrame(n.info, hash(n.data), n.statSize, n.data), room)
  }

  /** The frames, warnings and outcome of encoding one entry and, for a
      directory, everything below it. */
  function DirentTranscript(hash: Hash, n: Node, room: nat): (r: Emitted)
    ensures |r.frames| <= room
    decreases Size(n), 0
  {
    match n
    case RegularNode(_, _, _, _) => FileTranscript(hash, n, room)
    case DirectoryNode(info, children, readable) =>
      if !readable then Fail(CannotAccess)
      else if room == 0 then Fail(SinkFailed)
      else
        var kids := ChildrenTranscript(hash, children, room - 1);
        var descended := [DescendFrame(info)] + kids.frames;
        if kids.outcome.Halted? || room - 1 - |kids.frames| == 0 then
          Emitted(descended, kids.warnings, Halted)
        else
          Emitted(descended + [AscendFrame(info.mtime)], kids.warnings, Encoded)
    case SymlinkNode(info, referent, readable) =>
      if readable then Compose(SymlinkFrame(info, referent), room) else Fail(CannotAccess)
    case FifoNode(info, readable) =>
      if readable then Compose(FifoFrame(info), room) else Fail(CannotAccess)
    case SocketNode(info, readable) =>
      if readable then Compose(SocketFrame(info), room) else Fail(CannotAccess)
    case DeviceNode(_) => Fail(Unsupported)
    case OtherNode(_) => Fail(Unsupported)
  }

  /** The warning printed for an entry that failed, if it did. */
  function WarningFor(subject: string, outcome: Outcome): seq<Warning> {
    if outcome.Failed? then [Warning(subject, outcome.error)] else []
  }

  /** The children of a directory, in listing order: a failed child is only
      warned about, a halt stops everything. */
  function ChildrenTranscript(hash: Hash, cs: seq<Node>, room: nat): (r: Emitted)
    ensures |r.frames| <= room
    ensures !r.outcome.Failed?
    decreases SizeAll(cs), 1
  {
    if cs == [] then Emitted([], [], Encoded)
    else
      var first := DirentTranscript(hash, cs[0], room);
      if first.outcome.Halted? then first
      else
        var warned := WarningFor(cs[0].info.name, first.outcome);
        var rest := ChildrenTranscript(hash, cs[1..], room - |first.frames|);
        Emitted(first.frames + rest.frames, first.warnings + warned + rest.warnings, rest.outcome)
  }

  function TargetTranscript(hash: Hash, t: Target, room: nat): (r: Emitted)
    ensures |r.frames| <= room
  {
    match t
    case Found(n) => DirentTranscript(hash, n, room)
    case Unresolved(_) => Fail(CannotResolve)
  }

  function TargetSubject(t: Target): string {
    match t
    case Found(n) => n.info.name
    case Unresolved(path) => path
  }

  /** All command-line targets in order: a failed target is warned about and
      the next is encoded; a halt stops the pass. */
  function CreateTranscript(hash: Hash, ts: seq<Target>, room: nat): (r: Emitted)
    ensures |r.frames| <= room
    ensures !r.outcome.Failed?
  {
    if ts == [] then Emitted([], [], Encoded)
    else
      var first := TargetTranscript(hash, ts[0], room);
      if first.outcome.Halted? then first
      else
        var warned := WarningFor(TargetSubject(ts[0]), first.outcome);
        var rest := CreateTranscript(hash, ts[1..], room - |first.frames|);
        Emitted(first.frames + rest.frames, first.warnings + warned + rest.warnings, rest.outcome)
  }

  // ---------------------------------------------------------------------
  // Reference: the frames of a tree when the sink never refuses one.  Every
  // entry that can be read contributes its frames, whatever its siblings do.

  function IdealFrames(hash: Hash, n: Node): seq<Frame>
    decreases Size(n), 0
  {
    match n
    case RegularNode(info, size, data, readable) =>
      if readable && size <= |data| then [FileFrame(info, hash(data), size, data)] else []
    case DirectoryNode(info, children, readable) =>
      if readable then [DescendFrame(info)] + IdealAll(hash, children) + [AscendFrame(info.mtime)] else []
    case SymlinkNode(info, referent, readable) =>
      if readable then [SymlinkFrame(info, referent)] else []
    case FifoNode(info, readable) => if readable then [FifoFrame(info)] else []
    case SocketNode(info, readable) => if readable then [SocketFrame(info)] else []
    case DeviceNode(_) => []
    case OtherNode(_) => []
  }

  function IdealAll(hash: Hash, cs: seq<Node>): seq<Frame>
    decreases SizeAll(cs), 1
  {
    if cs == [] then [] else IdealFrames(hash, cs[0]) + IdealAll(hash, cs[1..])
  }

  /** The entry itself can be encoded (its own stat and read succeed and its
      type is supported). */
  predicate Encodable(n: Node) {
    match n
    case RegularNode(_, size, data, readable) => readable && size <= |data|
    case DirectoryNode(_, _, readable) => readable
    case SymlinkNode(_, _, readable) => readable
    case FifoNode(_, readable) => readable
    case SocketNode(_, readable) => readable
    case DeviceNode(_) => false
    case OtherNode(_) => false
  }

  /** With room for every frame, the transcript is the reference one, the
      pass does not halt, and the entry fails exactly when it cannot be
      encoded. */
  lemma {:induction false} AmpleRoom(hash: Hash, n: Node, room: nat)
    requires |IdealFrames(hash, n)| <= room
    ensures DirentTranscript(hash, n, room).frames == IdealFrames(hash, n)
    ensures DirentTranscript(hash, n, room).outcome == (if Encodable(n) then Encoded else Failed(DirentTranscript(hash, n, room).outcome.error))
    decreases Size(n), 0
  {
    if n.DirectoryNode? && n.readable {
      AmpleRoomAll(hash, n.children, room - 1);
    }
  }

  lemma {:induction false} AmpleRoomAll(hash: Hash, cs: seq<Node>, room: nat)
    requires |IdealAll(hash, cs)| <= room
    ensures ChildrenTranscript(hash, cs, room).frames == IdealAll(hash, cs)
    ensures ChildrenTranscript(hash, cs, room).outcome == Encoded
    decreases SizeAll(cs), 1
  {
    if cs != [] {
      AmpleRoom(hash, cs[0], room);
      AmpleRoomAll(hash, cs[1..], room - |IdealFrames(hash, cs[0])|);
    }
  }

  // ---------------------------------------------------------------------
  // Directory nesting: descend and ascend frames pair up like brackets.

  function CountTag(frames: seq<Frame>, tag: uint32): nat {
    if frames == [] then 0
    else (if frames[0].tag == tag then 1 else 0) + CountTag(frames[1..], tag)
  }

  /** No prefix has more ascends than descends. */
  ghost predicate NeverUnderflows(frames: seq<Frame>) {
    forall k :: 0 <= k <= |frames| ==>
      CountTag(frames[..k], DirectoryAscendTag) <= CountTag(frames[..k], DirectoryDescendTag)
  }

  /** As many ascends as descends, and no prefix with more ascends. */
  ghost predicate Balanced(frames: seq<Frame>) {
    && CountTag(frames, DirectoryDescendTag) == CountTag(frames, DirectoryAscendTag)
    && NeverUnderflows(frames)
  }

  lemma {:induction false} CountConcat(a: seq<Frame>, b: seq<Frame>, tag: uint32)
    ensures CountTag(a + b, tag) == CountTag(a, tag) + CountTag(b, tag)
  {
    if a != [] {
      assert (a + b)[0] == a[0];
      assert (a + b)[1..] == a[1..] + b;
      CountConcat(a[1..], b, tag);
    } else {
      assert a + b == b;
    }
  }

  lemma CountOne(f: Frame, tag: uint32)
    ensures CountTag([f], tag) == if f.tag == tag then 1 else 0
  {
    assert [f][1..] == [];
  }

  /** A balanced run followed by a run that never underflows never underflows;
      two balanced runs make a balanced run. */
  lemma {:induction false} BalancedConcat(a: seq<Frame>, b: seq<Frame>)
    requires Balanced(a) && NeverUnderflows(b)
    ensures NeverUnderflows(a + b)
    ensures Balanced(b) ==> Balanced(a + b)
  {
    forall k | 0 <= k <= |a + b|
      ensures CountTag((a + b)[..k], DirectoryAscendTag) <= CountTag((a + b)[..k], DirectoryDescendTag)
    {
      if k <= |a| {
        assert (a + b)[..k] == a[..k];
      } else {
        assert (a + b)[..k] == a + b[..k - |a|];
        CountConcat(a, b[..k - |a|], DirectoryAscendTag);
        CountConcat(a, b[..k - |a|], DirectoryDescendTag);
        assert a[..|a|] == a;
      }
    }
    CountConcat(a, b, DirectoryAscendTag);
    CountConcat(a, b, DirectoryDescendTag);
  }

  /** A descend in front of a run that never underflows never underflows. */
  lemma {:induction false} DescendPrefix(info: Info, m: seq<Frame>)
    requires NeverUnderflows(m)
    ensures NeverUnderflows([DescendFrame(info)] + m)
  {
    var s := [DescendFrame(info)] + m;
    forall k | 0 <= k <= |s|
      ensures CountTag(s[..k], DirectoryAscendTag) <= CountTag(s[..k], DirectoryDescendTag)
    {
      if k > 0 {
        assert s[..k] == [DescendFrame(info)] + m[..k - 1];
        CountConcat([DescendFrame(info)], m[..k - 1], DirectoryAscendTag);
        CountConcat([DescendFrame(info)], m[..k - 1], DirectoryDescendTag);
        CountOne(DescendFrame(info), DirectoryAscendTag);
        CountOne(DescendFrame(info), DirectoryDescendTag);
      }
    }
  }

  /** A balanced run between a descend and an ascend is balanced. */
  lemma {:induction false} Bracket(info: Info, mtime: int64, m: seq<Frame>)
    requires Balanced(m)
    ensures Balanced([DescendFrame(info)] + m + [AscendFrame(mtime)])
  {
    var d := [DescendFrame(info)];
    var a := [AscendFrame(mtime)];
    var s := d + m + a;
    DescendPrefix(info, m);
    CountConcat(d + m, a, DirectoryAscendTag);
    CountConcat(d + m, a, DirectoryDescendTag);
    CountConcat(d, m, DirectoryAscendTag);
    CountConcat(d, m, DirectoryDescendTag);
    CountOne(DescendFrame(info), DirectoryAscendTag);
    CountOne(DescendFrame(info), DirectoryDescendTag);
    CountOne(AscendFrame(mtime), DirectoryAscendTag);
    CountOne(AscendFrame(mtime), DirectoryDescendTag);
    forall k | 0 <= k <= |s|
      ensures CountTag(s[..k], DirectoryAscendTag) <= CountTag(s[..k], DirectoryDescendTag)
    {
      if k <= |d + m| {
        assert s[..k] == (d + m)[..k];
        assert CountTag((d + m)[..k], DirectoryAscendTag) <= CountTag((d + m)[..k], DirectoryDescendTag);
      } else {
        assert s[..k] == s;
      }
    }
  }

  lemma EmptyBalanced()
    ensures Balanced([])
  {
    var e: seq<Frame> := [];
    assert forall k :: 0 <= k <= |e| ==> e[..k] == [];
  }

  lemma {:induction false} SingleBalanced(f: Frame)
    requires f.tag != DirectoryDescendTag && f.tag != DirectoryAscendTag
    ensures Balanced([f])
  {
    CountOne(f, DirectoryAscendTag);
    CountOne(f, DirectoryDescendTag);
    forall k | 0 <= k <= |[f]|
      ensures CountTag([f][..k], DirectoryAscendTag) <= CountTag([f][..k], DirectoryDescendTag)
    {
      if k == 0 {
        assert [f][..k] == [];
      } else {
        assert [f][..k] == [f];
      }
    }
  }

  /** Every prefix of an encoder transcript has at least as many descends as
      ascends, and unless the pass halted the counts are equal. */
  lemma {:induction false} TranscriptNests(hash: Hash, n: Node, room: nat)
    ensures NeverUnderflows(DirentTranscript(hash, n, room).frames)
    ensures !DirentTranscript(hash, n, room).outcome.Halted? ==> Balanced(DirentTranscript(hash, n, room).frames)
    decreases Size(n), 0
  {
    var r := DirentTranscript(hash, n, room);
    if r.frames == [] {
      EmptyBalanced();
    } else if n.DirectoryNode? {
      var kids := ChildrenTranscript(hash, n.children, room - 1);
      ChildrenNest(hash, n.children, room - 1);
      DescendPrefix(n.info, kids.frames);
      if !r.outcome.Halted? {
        Bracket(n.info, n.info.mtime, kids.frames);
      }
    } else {
      SingleBalanced(r.frames[0]);
    }
  }

  lemma {:induction false} ChildrenNest(hash: Hash, cs: seq<Node>, room: nat)
    ensures NeverUnderflows(ChildrenTranscript(hash, cs, room).frames)
    ensures !ChildrenTranscript(hash, cs, room).outcome.Halted? ==> Balanced(ChildrenTranscript(hash, cs, room).frames)
    decreases SizeAll(cs), 1
  {
    if cs == [] {
      EmptyBalanced();
    } else {
      var first := DirentTranscript(hash, cs[0], room);
      TranscriptNests(hash, cs[0], room);
      if !first.outcome.Halted? {
        ChildrenNest(hash, cs[1..], room - |first.frames|);
        BalancedConcat(first.frames, ChildrenTranscript(hash, cs[1..], room - |first.frames|).frames);
      }
    }
  }

  /** The same holds for the whole pass over the command-line targets. */
  lemma {:induction false} CreateNests(hash: Hash, ts: seq<Target>, room: nat)
    ensures NeverUnderflows(CreateTranscript(hash, ts, room).frames)
    ensures !CreateTranscript(hash, ts, room).outcome.Halted? ==> Balanced(CreateTranscript(hash, ts, room).frames)
  {
    if ts == [] {
      EmptyBalanced();
    } else {
      var first := TargetTranscript(hash, ts[0], room);
      if ts[0].Found? {
        TranscriptNests(hash, ts[0].node, room);
      } else {
        EmptyBalanced();
      }
      if !first.outcome.Halted? {
        CreateNests(hash, ts[1..], room - |first.frames|);
        BalancedConcat(first.frames, CreateTranscript(hash, ts[1..], room - |first.frames|).frames);
      }
    }
  }

  /** The reference transcript of any tree is balanced. */
  lemma {:induction false} IdealBalanced(hash: Hash, n: Node)
    ensures Balanced(IdealFrames(hash, n))
    decreases Size(n), 0
  {
    if IdealFrames(hash, n) == [] {
      EmptyBalanced();
    } else if n.DirectoryNode? {
      IdealAllBalanced(hash, n.children);
      Bracket(n.info, n.info.mtime, IdealAll(hash, n.children));
    } else {
      SingleBalanced(IdealFrames(hash, n)[0]);
    }
  }

  lemma {:induction false} IdealAllBalanced(hash: Hash, cs: seq<Node>)
    ensures Balanced(IdealAll(hash, cs))
    decreases SizeAll(cs), 1
  {
    if cs == [] {
      EmptyBalanced();
    } else {
      IdealBalanced(hash, cs[0]);
      IdealAllBalanced(hash, cs[1..]);
      BalancedConcat(IdealFrames(hash, cs[0]), IdealAll(hash, cs[1..]));
    }
  }

  // ---------------------------------------------------------------------
  // The shape of one directory's transcript.

  /** A directory whose stat or listing fails yields nothing and an error.
      Otherwise, unless the sink is already full, its descend frame comes
      first; when the pass goes on, its ascend frame, carrying the mtime of
      the stat taken before the children, comes last and exactly the
      children's transcript, which is balanced, lies between. */
  lemma {:induction false} DirectoryShape(hash: Hash, n: Node, room: nat)
    requires n.DirectoryNode?
    ensures var r := DirentTranscript(hash, n, room);
      && (!n.readable ==> r.frames == [] && r.outcome == Failed(CannotAccess))
      && (n.readable && room == 0 ==> r.frames == [] && r.outcome == Failed(SinkFailed))
      && (n.readable && room > 0 ==> |r.frames| >= 1 && r.frames[0] == DescendFrame(n.info) && !r.outcome.Failed?)
      && (n.readable && r.outcome == Encoded ==>
            && |r.frames| >= 2
            && r.frames[|r.frames| - 1] == AscendFrame(n.info.mtime)
            && r.frames[1..|r.frames| - 1] == ChildrenTranscript(hash, n.children, room - 1).frames
            && Balanced(r.frames[1..|r.frames| - 1]))
  {
    var r := DirentTranscript(hash, n, room);
    if n.readable && room > 0 {
      var kids := ChildrenTranscript(hash, n.children, room - 1);
      if r.outcome == Encoded {
        ChildrenNest(hash, n.children, room - 1);
        assert r.frames[1..|r.frames| - 1] == kids.frames;
      }
    }
  }

  /** The pass halts only after the sink has refused a frame: a halted
      transcript filled the sink exactly. */
  lemma {:induction false} HaltMeansSinkFull(hash: Hash, n: Node, room: nat)
    ensures DirentTranscript(hash, n, room).outcome.Halted? ==> |DirentTranscript(hash, n, room).frames| == room
    decreases Size(n), 0
  {
    if n.DirectoryNode? && n.readable && room > 0 {
      HaltMeansSinkFullAll(hash, n.children, room - 1);
    }
  }

  lemma {:induction false} HaltMeansSinkFullAll(hash: Hash, cs: seq<Node>, room: nat)
    ensures ChildrenTranscript(hash, cs, room).outcome.Halted? ==> |ChildrenTranscript(hash, cs, room).frames| == room
    decreases SizeAll(cs), 1
  {
    if cs != [] {
      var first := DirentTranscript(hash, cs[0], room);
      HaltMeansSinkFull(hash, cs[0], room);
      if !first.outcome.Halted? {
        HaltMeansSinkFullAll(hash, cs[1..], room - |first.frames|);
      }
    }
  }

  /** A regular file yields one frame holding name, mtime, mode, the hash of
      exactly the contents sent, the stat size, and the contents; a read
      shorter than the stat size yields no frame. */
  /** The sink takes a frame exactly when it has room, and then that frame
      is all that is emitted; a refusal emits nothing and fails the entry. */
  lemma ComposeAccepts(f: Frame, room: nat)
    ensures var r := Compose(f, room);
      && r.warnings == []
      && (r.outcome == Encoded <==> room > 0)
      && (r.outcome == Encoded ==> r.frames == [f])
      && (r.outcome != Encoded ==> r.frames == [] && r.outcome == Failed(SinkFailed))
  {
  }

  /** A regular file gives at most one frame and never halts the pass; an
      open or stat failure fails it; an emitted frame carries the contents
      as its body and a header the file handler reads back as the file's
      name, mtime, mode, the hash of those contents and the stat size. */
  lemma {:induction false} FileTranscriptReadsBack(hash: Hash, n: Node, room: nat)
    requires n.RegularNode?
    ensures var r := FileTranscript(hash, n, room);
      && r.warnings == [] && !r.outcome.Halted? && |r.frames| <= 1
      && (!n.readable ==> r.outcome == Failed(CannotAccess))
      && (r.outcome == Encoded <==> n.readable && n.statSize <= |n.data| && room > 0)
      && (r.outcome == Encoded ==>
            && r.frames[0].tag == RegularFileTag
            && r.frames[0].body == n.data
            && ParseFileHeader(r.frames[0].fields) == Ok(FileHeader(n.info.name, n.info.mtime, n.info.mode, hash(n.data), n.statSize)))
  {
    var h := FileHeader(n.info.name, n.info.mtime, n.info.mode, hash(n.data), n.statSize);
    FileHeaderRoundTrip(h, []);
    assert FileFields(h) + [] == FileFields(h);
  }

  lemma FileShape(hash: Hash, n: Node, room: nat)
    requires n.RegularNode?
    ensures var r := DirentTranscript(hash, n, room);
      && (n.readable && |n.data| < n.statSize ==> r.frames == [] && r.outcome == Failed(ShortRead(|n.data|, n.statSize)))
      && (r.outcome == Encoded <==> n.readable && n.statSize <= |n.data| && room > 0)
      && (r.outcome == Encoded ==>
            && r.frames == [Frame(RegularFileTag, [Str(n.info.name), I64(n.info.mtime), U32(n.info.mode),
                                                   U64(hash(r.frames[0].body)), Uvwi(n.statSize)], n.data)]
            && n.statSize <= |r.frames[0].body|)
      && (r.outcome != Encoded ==> r.frames == [])
  {
  }

  /** Device nodes and unsupported entry types are never encoded. */
  lemma UnsupportedNeverEncoded(hash: Hash, n: Node, room: nat)
    requires n.DeviceNode? || n.OtherNode?
    ensures DirentTranscript(hash, n, room) == Emitted([], [], Failed(Unsupported))
  {
  }
}
