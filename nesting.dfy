/**
 * The directory-stack discipline shared by the two sides: replaying frames
 * whose descends and ascends nest like brackets is never fatal and leaves
 * the decoder where it started, and the encoder only emits such frames.
 */
module Nesting {
  import opened Wire
  import opened SourceTree
  import opened Transcript
  import opened FileSystem
  import opened Replay

  /** The frames that move the decoder carry payloads it can read. */
  predicate Sound(f: Frame) {
    && (f.tag == DirectoryDescendTag ==> ParseDescendHeader(f.fields).Ok?)
    && (f.tag == DirectoryAscendTag ==> ParseAscendMtime(f.fields).Ok?)
  }

  ghost predicate AllSound(frames: seq<Frame>) {
    forall i :: 0 <= i < |frames| ==> Sound(frames[i])
  }

  /** No prefix has more ascends than `slack` plus its descends. */
  ghost predicate NoUnderflowBy(frames: seq<Frame>, slack: nat) {
    forall k :: 0 <= k <= |frames| ==>
      CountTag(frames[..k], DirectoryAscendTag) <= CountTag(frames[..k], DirectoryDescendTag) + slack
  }

  lemma {:induction false} CountFirst(frames: seq<Frame>, k: nat, tag: uint32)
    requires 0 < k <= |frames|
    ensures CountTag(frames[..k], tag) == (if frames[0].tag == tag then 1 else 0) + CountTag(frames[1..][..k - 1], tag)
  {
    assert frames[..k][0] == frames[0];
    assert frames[..k][1..] == frames[1..][..k - 1];
  }

  /** After the first frame the slack grows by a descend and shrinks by an
      ascend. */
  lemma {:induction false} SlackAfterFirst(frames: seq<Frame>, slack: nat)
    requires frames != [] && NoUnderflowBy(frames, slack)
    ensures frames[0].tag == DirectoryAscendTag ==> slack >= 1
    ensures var d := if frames[0].tag == DirectoryDescendTag then 1 else 0;
      var a := if frames[0].tag == DirectoryAscendTag then 1 else 0;
      slack + d >= a && NoUnderflowBy(frames[1..], slack + d - a)
  {
    var d := if frames[0].tag == DirectoryDescendTag then 1 else 0;
    var a := if frames[0].tag == DirectoryAscendTag then 1 else 0;
    CountFirst(frames, 1, DirectoryAscendTag);
    CountFirst(frames, 1, DirectoryDescendTag);
    assert frames[1..][..0] == [];
    forall k | 0 <= k <= |frames[1..]|
      ensures CountTag(frames[1..][..k], DirectoryAscendTag) <= CountTag(frames[1..][..k], DirectoryDescendTag) + (slack + d - a)
    {
      CountFirst(frames, k + 1, DirectoryAscendTag);
      CountFirst(frames, k + 1, DirectoryDescendTag);
    }
  }

  /** The working directory stays below `base` and its depth tracks the
      descends and ascends replayed; nothing is fatal. */
  lemma {:induction false} DepthTracks(env: Env, st: State, frames: seq<Frame>, base: Path, slack: nat)
    requires Inside(st) && base <= st.cwd && |st.cwd| == |base| + slack
    requires NoUnderflowBy(frames, slack) && AllSound(frames)
    ensures var r := Run(env, st, frames);
      && r.fatal.None?
      && base <= r.st.cwd
      && |r.st.cwd| + CountTag(frames, DirectoryAscendTag) == |base| + slack + CountTag(frames, DirectoryDescendTag)
    decreases |frames|
  {
    if frames != [] {
      var f := frames[0];
      assert Sound(f);
      SlackAfterFirst(frames, slack);
      var d := if f.tag == DirectoryDescendTag then 1 else 0;
      var a := if f.tag == DirectoryAscendTag then 1 else 0;
      var s := Step(env, st, f);
      if f.tag == DirectoryDescendTag {
        DescendMoves(env, st, f);
        assert s.st.cwd[..|base|] == st.cwd[..|base|];
      } else if f.tag == DirectoryAscendTag {
        AscendMoves(st, env, f);
        assert s.st.cwd == st.cwd[..|st.cwd| - 1];
        assert s.st.cwd[..|base|] == st.cwd[..|base|];
      } else {
        OthersStay(env, st, f);
      }
      assert AllSound(frames[1..]) by {
        forall i | 0 <= i < |frames[1..]|
          ensures Sound(frames[1..][i])
        {
          assert frames[1..][i] == frames[i + 1];
        }
      }
      DepthTracks(env, s.st, frames[1..], base, slack + d - a);
    }
  }

  /** Balanced, readable descends and ascends are replayed without a fatal
      failure, and the decoder ends in the directory it started in. */
  lemma {:induction false} BalancedReturns(env: Env, st: State, frames: seq<Frame>)
    requires Inside(st) && Balanced(frames) && AllSound(frames)
    ensures Run(env, st, frames).fatal.None?
    ensures Run(env, st, frames).st.cwd == st.cwd
  {
    assert NoUnderflowBy(frames, 0);
    DepthTracks(env, st, frames, st.cwd, 0);
  }

  /** A prefix that never underflows may stop anywhere below the start
      directory, but it is never fatal either. */
  lemma {:induction false} NestedNeverFatal(env: Env, st: State, frames: seq<Frame>)
    requires Inside(st) && NeverUnderflows(frames) && AllSound(frames)
    ensures Run(env, st, frames).fatal.None?
    ensures st.cwd <= Run(env, st, frames).st.cwd
  {
    assert NoUnderflowBy(frames, 0);
    DepthTracks(env, st, frames, st.cwd, 0);
  }

  // ---------------------------------------------------------------------
  // The encoder only emits sound frames.

  lemma {:induction false} SoundConcat(a: seq<Frame>, b: seq<Frame>)
    requires AllSound(a) && AllSound(b)
    ensures AllSound(a + b)
  {
    forall i | 0 <= i < |a + b|
      ensures Sound((a + b)[i])
    {
      if i < |a| {
        assert (a + b)[i] == a[i];
      } else {
        assert (a + b)[i] == b[i - |a|];
      }
    }
  }

  lemma DescendSound(info: Info)
    ensures Sound(DescendFrame(info))
  {
    DescendHeaderRoundTrip(DescendHeader(info.name, info.mode), []);
    assert DescendFields(DescendHeader(info.name, info.mode)) + [] == DescendFields(DescendHeader(info.name, info.mode));
  }

  lemma {:induction false} TranscriptSound(hash: Hash, n: Node, room: nat)
    ensures AllSound(DirentTranscript(hash, n, room).frames)
    decreases Size(n), 0
  {
    if n.DirectoryNode? && n.readable && room > 0 {
      var kids := ChildrenTranscript(hash, n.children, room - 1);
      ChildrenSound(hash, n.children, room - 1);
      DescendSound(n.info);
      SoundConcat([DescendFrame(n.info)], kids.frames);
      SoundConcat([DescendFrame(n.info)] + kids.frames, [AscendFrame(n.info.mtime)]);
    }
  }

  lemma {:induction false} ChildrenSound(hash: Hash, cs: seq<Node>, room: nat)
    ensures AllSound(ChildrenTranscript(hash, cs, room).frames)
    decreases SizeAll(cs), 1
  {
    if cs != [] {
      var first := DirentTranscript(hash, cs[0], room);
      TranscriptSound(hash, cs[0], room);
      if !first.outcome.Halted? {
        ChildrenSound(hash, cs[1..], room - |first.frames|);
        SoundConcat(first.frames, ChildrenTranscript(hash, cs[1..], room - |first.frames|).frames);
      }
    }
  }

  lemma {:induction false} CreateSound(hash: Hash, ts: seq<Target>, room: nat)
    ensures AllSound(CreateTranscript(hash, ts, room).frames)
  {
    if ts != [] {
      var first := TargetTranscript(hash, ts[0], room);
      if ts[0].Found? {
        TranscriptSound(hash, ts[0].node, room);
      }
      if !first.outcome.Halted? {
        CreateSound(hash, ts[1..], room - |first.frames|);
        SoundConcat(first.frames, CreateTranscript(hash, ts[1..], room - |first.frames|).frames);
      }
    }
  }

  /** Extracting whatever a create pass emitted is never fatal, and unless
      the pass halted the extraction ends in the directory it started in. */
  lemma EncodedPassReturns(env: Env, st: State, hash: Hash, ts: seq<Target>, room: nat)
    requires Inside(st)
    ensures var e := CreateTranscript(hash, ts, room);
      && Run(env, st, e.frames).fatal.None?
      && st.cwd <= Run(env, st, e.frames).st.cwd
      && (!e.outcome.Halted? ==> Run(env, st, e.frames).st.cwd == st.cwd)
  {
    var e := CreateTranscript(hash, ts, room);
    CreateNests(hash, ts, room);
    CreateSound(hash, ts, room);
    NestedNeverFatal(env, st, e.frames);
    if !e.outcome.Halted? {
      BalancedReturns(env, st, e.frames);
    }
  }
}
