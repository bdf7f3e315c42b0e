/**
 * The encoder as the source runs it: a walk that appends frames to a
 * shared composer and warnings to the diagnostic channel as it goes.  Each
 * method is proved to emit exactly what the transcript functions describe.
 */
module Encoder {
  import opened Wire
  import opened SourceTree
  import opened Transcript

  lemma ChildrenUnfold(hash: Hash, cs: seq<Node>, i: nat, room: nat)
    requires i < |cs|
    ensures var first := DirentTranscript(hash, cs[i], room);
      var warned := WarningFor(cs[i].info.name, first.outcome);
      var rest := ChildrenTranscript(hash, cs[i + 1..], room - |first.frames|);
      ChildrenTranscript(hash, cs[i..], room)
        == if first.outcome.Halted? then first
           else Emitted(first.frames + rest.frames, first.warnings + warned + rest.warnings, rest.outcome)
  {
    assert cs[i..][0] == cs[i];
    assert cs[i..][1..] == cs[i + 1..];
  }

  lemma CreateUnfold(hash: Hash, ts: seq<Target>, i: nat, room: nat)
    requires i < |ts|
    ensures var first := TargetTranscript(hash, ts[i], room);
      var warned := WarningFor(TargetSubject(ts[i]), first.outcome);
      var rest := CreateTranscript(hash, ts[i + 1..], room - |first.frames|);
      CreateTranscript(hash, ts[i..], room)
        == if first.outcome.Halted? then first
           else Emitted(first.frames + rest.frames, first.warnings + warned + rest.warnings, rest.outcome)
  {
    var s := ts[i..];
    assert s[0] == ts[i] && s[1..] == ts[i + 1..];
    CreateCons(hash, s, room);
  }

  lemma CreateCons(hash: Hash, s: seq<Target>, room: nat)
    requires s != []
    ensures var first := TargetTranscript(hash, s[0], room);
      var warned := WarningFor(TargetSubject(s[0]), first.outcome);
      var rest := CreateTranscript(hash, s[1..], room - |first.frames|);
      CreateTranscript(hash, s, room)
        == if first.outcome.Halted? then first
           else Emitted(first.frames + rest.frames, first.warnings + warned + rest.warnings, rest.outcome)
  {
  }

  lemma Associative<T>(a: seq<T>, b: seq<T>, c: seq<T>)
    ensures a + (b + c) == (a + b) + c
  {
  }

  // ---------------------------------------------------------------------
  // The two loops as the composer and the diagnostic channel see them: each
  // turn appends what one entry emits, until the input ends or the sink
  // halts.  The loop state is the whole composer, whose capacity is fixed,
  // so the room left is recomputed from it on every turn.

  /** One turn of the children loop: what the entry emits, and the warning
      about it if it failed. */
  function ChildTurn(hash: Hash, c: Node, frames: seq<Frame>, warnings: seq<Warning>, room: nat): (t: Emitted)
    ensures |t.frames| <= |frames| + room
  {
    var e := DirentTranscript(hash, c, room);
    Emitted(frames + e.frames, warnings + (e.warnings + WarningFor(c.info.name, e.outcome)), e.outcome)
  }

  /** The children loop from the `i`th child on, with `room` frames left
      in the sink. */
  function ChildrenFrom(hash: Hash, cs: seq<Node>, i: nat, frames: seq<Frame>, warnings: seq<Warning>, room: nat): Emitted
    requires i <= |cs|
    decreases |cs| - i
  {
    if i == |cs| then Emitted(frames, warnings, Encoded)
    else
      var t := ChildTurn(hash, cs[i], frames, warnings, room);
      if t.outcome.Halted? then t
      else ChildrenFrom(hash, cs, i + 1, t.frames, t.warnings, room - (|t.frames| - |frames|))
  }

  /** The loop appends exactly the transcript of the children it has not
      visited yet. */
  lemma {:induction false} ChildrenFromTranscript(hash: Hash, cs: seq<Node>, i: nat, frames: seq<Frame>, warnings: seq<Warning>, room: nat)
    requires i <= |cs|
    ensures var c := ChildrenTranscript(hash, cs[i..], room);
      ChildrenFrom(hash, cs, i, frames, warnings, room) == Emitted(frames + c.frames, warnings + c.warnings, c.outcome)
    decreases |cs| - i
  {
    if i == |cs| {
      assert cs[i..] == [];
      assert frames + [] == frames && warnings + [] == warnings;
    } else {
      var t := ChildTurn(hash, cs[i], frames, warnings, room);
      var e := DirentTranscript(hash, cs[i], room);
      var warned := WarningFor(cs[i].info.name, e.outcome);
      assert t == Emitted(frames + e.frames, warnings + (e.warnings + warned), e.outcome);
      ChildrenUnfold(hash, cs, i, room);
      if e.outcome.Halted? {
        assert e.warnings + [] == e.warnings;
      } else {
        var room' := room - |e.frames|;
        assert room - (|t.frames| - |frames|) == room';
        ChildrenFromTranscript(hash, cs, i + 1, t.frames, t.warnings, room');
        var rest := ChildrenTranscript(hash, cs[i + 1..], room');
        Associative(frames, e.frames, rest.frames);
        Associative(warnings, e.warnings + warned, rest.warnings);
      }
    }
  }

  /** One turn of the loop over the targets. */
  function TargetTurn(hash: Hash, t: Target, frames: seq<Frame>, warnings: seq<Warning>, room: nat): (r: Emitted)
    ensures |r.frames| <= |frames| + room
  {
    var e := TargetTranscript(hash, t, room);
    Emitted(frames + e.frames, warnings + (e.warnings + WarningFor(TargetSubject(t), e.outcome)), e.outcome)
  }

  function CreateFrom(hash: Hash, ts: seq<Target>, i: nat, frames: seq<Frame>, warnings: seq<Warning>, room: nat): Emitted
    requires i <= |ts|
    decreases |ts| - i
  {
    if i == |ts| then Emitted(frames, warnings, Encoded)
    else
      var t := TargetTurn(hash, ts[i], frames, warnings, room);
      if t.outcome.Halted? then t
      else CreateFrom(hash, ts, i + 1, t.frames, t.warnings, room - (|t.frames| - |frames|))
  }

  lemma {:induction false} CreateFromTranscript(hash: Hash, ts: seq<Target>, i: nat, frames: seq<Frame>, warnings: seq<Warning>, room: nat)
    requires i <= |ts|
    ensures var c := CreateTranscript(hash, ts[i..], room);
      CreateFrom(hash, ts, i, frames, warnings, room) == Emitted(frames + c.frames, warnings + c.warnings, c.outcome)
    decreases |ts| - i
  {
    if i == |ts| {
      assert ts[i..] == [];
      assert frames + [] == frames && warnings + [] == warnings;
    } else {
      var t := TargetTurn(hash, ts[i], frames, warnings, room);
      var e := TargetTranscript(hash, ts[i], room);
      var warned := WarningFor(TargetSubject(ts[i]), e.outcome);
      assert t == Emitted(frames + e.frames, warnings + (e.warnings + warned), e.outcome);
      CreateUnfold(hash, ts, i, room);
      if e.outcome.Halted? {
        assert e.warnings + [] == e.warnings;
      } else {
        var room' := room - |e.frames|;
        assert room - (|t.frames| - |frames|) == room';
        CreateFromTranscript(hash, ts, i + 1, t.frames, t.warnings, room');
        var rest := CreateTranscript(hash, ts[i + 1..], room');
        Associative(frames, e.frames, rest.frames);
        Associative(warnings, e.warnings + warned, rest.warnings);
      }
    }
  }

  class Encoder {
    /** The frames the composer has accepted, in order. */
    var frames: seq<Frame>
    /** The warnings printed so far, in order. */
    var warnings: seq<Warning>
    /** How many frames the sink accepts before it fails. */
    const limit: nat
    const hash: Hash

    ghost predicate Valid()
      reads this
    {
      |frames| <= limit
    }

    function Room(): nat
      reads this
      requires Valid()
    {
      limit - |frames|
    }

    constructor (limit: nat, hash: Hash)
      ensures Valid() && this.limit == limit && this.hash == hash
      ensures frames == [] && warnings == []
    {
      this.limit := limit;
      this.hash := hash;
      frames := [];
      warnings := [];
    }

    /** Hands one frame to the sink, which takes it while it has room. */
    method Compose(f: Frame) returns (ok: bool)
      requires Valid()
      modifies this`frames
      ensures Valid()
      ensures ok == (old(Room()) > 0)
      ensures frames == old(frames) + Transcript.Compose(f, old(Room())).frames
    {
      ok := |frames| < limit;
      if ok {
        frames := frames + [f];
      }
    }

    method EncodeFile(n: Node) returns (outcome: Outcome)
      requires Valid() && n.RegularNode?
      modifies this`frames
      ensures Valid()
      ensures var e := DirentTranscript(hash, n, old(Room()));
        frames == old(frames) + e.frames && outcome == e.outcome
    {
      if !n.readable {
        // open, stat, read or close failed
        return Failed(CannotAccess);
      }
      var size := n.statSize;
      var contents := n.data;  // read until end of file
      if |contents| < size {
        return Failed(ShortRead(|contents|, size));
      }
      var h := hash(contents);
      var scratch: seq<Field> := [];
      scratch := scratch + [Str(n.info.name)];
      scratch := scratch + [I64(n.info.mtime)];
      scratch := scratch + [U32(n.info.mode)];
      scratch := scratch + [U64(h)];
      scratch := scratch + [Uvwi(size)];
      assert scratch == FileFields(FileHeader(n.info.name, n.info.mtime, n.info.mode, h, size));
      var ok := Compose(Frame(RegularFileTag, scratch, contents));
      outcome := if ok then Encoded else Failed(SinkFailed);
    }

    method EncodeSymlink(n: Node) returns (outcome: Outcome)
      requires Valid() && n.SymlinkNode?
      modifies this`frames
      ensures Valid()
      ensures var e := DirentTranscript(hash, n, old(Room()));
        frames == old(frames) + e.frames && outcome == e.outcome
    {
      if !n.readable {
        // lstat or readlink failed
        return Failed(CannotAccess);
      }
      var scratch: seq<Field> := [];
      scratch := scratch + [Str(n.info.name)];
      scratch := scratch + [Str(n.referent)];
      scratch := scratch + [I64(n.info.mtime)];
      scratch := scratch + [U32(n.info.mode)];
      assert scratch == SymlinkFields(SymlinkHeader(n.info.name, n.referent, n.info.mtime, n.info.mode));
      var ok := Compose(Frame(SymlinkTag, scratch, []));
      outcome := if ok then Encoded else Failed(SinkFailed);
    }

    /** FIFOs and sockets share one layout under different tags. */
    method EncodeSpecial(n: Node) returns (outcome: Outcome)
      requires Valid() && (n.FifoNode? || n.SocketNode?)
      modifies this`frames
      ensures Valid()
      ensures var e := DirentTranscript(hash, n, old(Room()));
        frames == old(frames) + e.frames && outcome == e.outcome
    {
      if !n.readable {
        // stat failed
        return Failed(CannotAccess);
      }
      var scratch: seq<Field> := [];
      scratch := scratch + [Str(n.info.name)];
      scratch := scratch + [I64(n.info.mtime)];
      scratch := scratch + [U32(n.info.mode)];
      assert scratch == NodeFields(NodeHeader(n.info.name, n.info.mtime, n.info.mode));
      var tag := if n.FifoNode? then FifoTag else SocketTag;
      var ok := Compose(Frame(tag, scratch, []));
      outcome := if ok then Encoded else Failed(SinkFailed);
    }

    method EncodeDescend(info: Info) returns (ok: bool)
      requires Valid()
      modifies this`frames
      ensures Valid()
      ensures ok == (old(Room()) > 0)
      ensures frames == old(frames) + Transcript.Compose(DescendFrame(info), old(Room())).frames
    {
      var scratch: seq<Field> := [];
      scratch := scratch + [Str(info.name)];
      scratch := scratch + [U32(info.mode)];
      assert scratch == DescendFields(DescendHeader(info.name, info.mode));
      ok := Compose(Frame(DirectoryDescendTag, scratch, []));
    }

    method EncodeAscend(info: Info) returns (ok: bool)
      requires Valid()
      modifies this`frames
      ensures Valid()
      ensures ok == (old(Room()) > 0)
      ensures frames == old(frames) + Transcript.Compose(AscendFrame(info.mtime), old(Room())).frames
    {
      var scratch: seq<Field> := [];
      scratch := scratch + [I64(info.mtime)];
      assert scratch == AscendFields(info.mtime);
      ok := Compose(Frame(DirectoryAscendTag, scratch, []));
    }

    /** Dispatches on the entry's type. */
    method EncodeDirent(n: Node) returns (outcome: Outcome)
      requires Valid()
      modifies this
      ensures Valid()
      ensures var e := DirentTranscript(hash, n, old(Room()));
        && frames == old(frames) + e.frames
        && warnings == old(warnings) + e.warnings
        && outcome == e.outcome
      decreases Size(n), 1
    {
      match n
      case RegularNode(_, _, _, _) =>
        outcome := EncodeFile(n);
      case DirectoryNode(_, _, _) =>
        outcome := EncodeDirectory(n);
      case SymlinkNode(_, _, _) =>
        outcome := EncodeSymlink(n);
      case FifoNode(_, _) =>
        outcome := EncodeSpecial(n);
      case SocketNode(_, _) =>
        outcome := EncodeSpecial(n);
      case DeviceNode(_) =>
        outcome := Failed(Unsupported);
      case OtherNode(_) =>
        outcome := Failed(Unsupported);
    }

    /** Descend frame, then every child in listing order (a failed child is
        only warned about), then the ascend frame with the mtime of the stat
        taken first.  A refused ascend halts the whole pass. */
    method EncodeDirectory(n: Node) returns (outcome: Outcome)
      requires Valid() && n.DirectoryNode?
      modifies this
      ensures Valid()
      ensures var e := DirentTranscript(hash, n, old(Room()));
        && frames == old(frames) + e.frames
        && warnings == old(warnings) + e.warnings
        && outcome == e.outcome
      decreases Size(n), 0
    {
      if !n.readable {
        // stat or directory read failed
        return Failed(CannotAccess);
      }
      var fi := n.info;
      var children := n.children;
      var ok := EncodeDescend(fi);
      if !ok {
        return Failed(SinkFailed);
      }
      ghost var kids := ChildrenTranscript(hash, children, Room());
      ghost var base := frames;
      assert base == old(frames) + [DescendFrame(fi)];
      outcome := EncodeChildren(children);
      Associative(old(frames), [DescendFrame(fi)], kids.frames);
      if outcome.Halted? {
        return;
      }
      ok := EncodeAscend(fi);
      if !ok {
        // no recovery: the two sides would be in different directories
        return Halted;
      }
      Associative(old(frames), [DescendFrame(fi)] + kids.frames, [AscendFrame(fi.mtime)]);
      outcome := Encoded;
    }

    /** Encodes one entry of a directory listing, warning if it fails. */
    method EncodeChild(c: Node) returns (outcome: Outcome)
      requires Valid()
      modifies this
      ensures Valid()
      ensures Emitted(frames, warnings, outcome) == ChildTurn(hash, c, old(frames), old(warnings), old(Room()))
      decreases Size(c), 2
    {
      outcome := EncodeDirent(c);
      if outcome.Failed? {
        warnings := warnings + [Warning(c.info.name, outcome.error)];
      }
    }

    /** The loop over a directory's children, in listing order, stated turn
        by turn. */
    method EncodeChildList(children: seq<Node>) returns (outcome: Outcome)
      requires Valid()
      modifies this
      ensures Valid()
      ensures Emitted(frames, warnings, outcome) == ChildrenFrom(hash, children, 0, old(frames), old(warnings), old(Room()))
      decreases SizeAll(children), 3
    {
      ghost var room := Room();
      ghost var result := ChildrenFrom(hash, children, 0, frames, warnings, room);
      var i := 0;
      while i < |children|
        invariant Valid() && 0 <= i <= |children| && room == Room()
        invariant ChildrenFrom(hash, children, i, frames, warnings, room) == result
      {
        ghost var before := frames;
        ChildSmaller(children, i);
        var r := EncodeChild(children[i]);
        if r.Halted? {
          return Halted;
        }
        room := room - (|frames| - |before|);
        i := i + 1;
      }
      outcome := Encoded;
    }

    method EncodeChildren(children: seq<Node>) returns (outcome: Outcome)
      requires Valid()
      modifies this
      ensures Valid()
      ensures var e := ChildrenTranscript(hash, children, old(Room()));
        && frames == old(frames) + e.frames
        && warnings == old(warnings) + e.warnings
        && outcome == e.outcome
      decreases SizeAll(children), 4
    {
      ChildrenFromTranscript(hash, children, 0, frames, warnings, Room());
      assert children[0..] == children;
      outcome := EncodeChildList(children);
    }

    method EncodeTarget(t: Target) returns (outcome: Outcome)
      requires Valid()
      modifies this
      ensures Valid()
      ensures var e := TargetTranscript(hash, t, old(Room()));
        && frames == old(frames) + e.frames
        && warnings == old(warnings) + e.warnings
        && outcome == e.outcome
    {
      match t
      case Unresolved(_) =>
        outcome := Failed(CannotResolve);
      case Found(n) =>
        outcome := EncodeDirent(n);
    }

    /** Encodes one command-line target, warning if it fails. */
    method EncodeTargetWarn(t: Target) returns (outcome: Outcome)
      requires Valid()
      modifies this
      ensures Valid()
      ensures Emitted(frames, warnings, outcome) == TargetTurn(hash, t, old(frames), old(warnings), old(Room()))
    {
      outcome := EncodeTarget(t);
      if outcome.Failed? {
        warnings := warnings + [Warning(TargetSubject(t), outcome.error)];
      }
    }

    /** The loop over the targets, stated turn by turn. */
    method EncodeTargets(targets: seq<Target>) returns (outcome: Outcome)
      requires Valid()
      modifies this
      ensures Valid()
      ensures Emitted(frames, warnings, outcome) == CreateFrom(hash, targets, 0, old(frames), old(warnings), old(Room()))
    {
      ghost var room := Room();
      ghost var result := CreateFrom(hash, targets, 0, frames, warnings, room);
      var i := 0;
      while i < |targets|
        invariant Valid() && 0 <= i <= |targets| && room == Room()
        invariant CreateFrom(hash, targets, i, frames, warnings, room) == result
      {
        ghost var before := frames;
        var r := EncodeTargetWarn(targets[i]);
        if r.Halted? {
          return Halted;
        }
        room := room - (|frames| - |before|);
        i := i + 1;
      }
      outcome := Encoded;
    }

    /** Encodes every target in order, warning about the ones that fail. */
    method Create(targets: seq<Target>) returns (outcome: Outcome)
      requires Valid()
      modifies this
      ensures Valid()
      ensures var e := CreateTranscript(hash, targets, old(Room()));
        && frames == old(frames) + e.frames
        && warnings == old(warnings) + e.warnings
        && outcome == e.outcome
    {
      CreateFromTranscript(hash, targets, 0, frames, warnings, Room());
      assert targets[0..] == targets;
      outcome := EncodeTargets(targets);
    }
  }
}
