/**
 * The decoder as the source runs it: handlers that change the filesystem
 * and the working directory one system call at a time, the tag dispatch,
 * and the driver loop.  Each method is proved to do exactly what the
 * replay functions describe.
 */
module Decoder {
  import opened Wire
  import opened FileSystem
  import opened Replay

  /** What a handler reports: success, an error the driver warns about, or
      an error that ends the process. */
  datatype Verdict = Applied | Errored(failure: Failure) | Exited(failure: Failure)

  function WithState(v: Verdict, st: State): Handled {
    match v
    case Applied => Done(st)
    case Errored(e) => Warned(st, e)
    case Exited(e) => Fatal(e)
  }

  /** Setting the modification time of an entry whose type has one. */
  function Touched(e: Entry, mtime: int64): Entry {
    match e
    case Directory(mode, _) => Directory(mode, mtime)
    case Regular(data, perm, _) => Regular(data, perm, mtime)
    case Fifo(mode, _) => Fifo(mode, mtime)
    case _ => e
  }

  /** The error the driver returns: that of the last message, when it
      failed, and no error otherwise. */
  function LastError(env: Env, st: State, frames: seq<Frame>): (r: Option<Failure>)
    requires Inside(st)
    ensures r.Some? ==>
      && Run(env, st, frames).fatal.None?
      && |Run(env, st, frames).warnings| > 0
      && r.value == Run(env, st, frames).warnings[|Run(env, st, frames).warnings| - 1]
    decreases |frames|
  {
    if frames == [] then None
    else
      match Step(env, st, frames[0])
      case Done(next) => if |frames| == 1 then None else LastError(env, next, frames[1..])
      case Warned(next, e) => if |frames| == 1 then Some(e) else LastError(env, next, frames[1..])
      case Fatal(_) => None
  }

  /** The driver loop from the `i`th frame on: the state, the warnings so
      far, the error of the message handled last, and the error that ended
      the process. */
  datatype Extracted = Extracted(st: State, warnings: seq<Failure>, err: Option<Failure>, fatal: Option<Failure>)

  function ExtractFrom(env: Env, frames: seq<Frame>, i: nat, st: State, warnings: seq<Failure>, err: Option<Failure>): Extracted
    requires Inside(st) && i <= |frames|
    decreases |frames| - i
  {
    if i == |frames| then Extracted(st, warnings, err, None)
    else
      match Step(env, st, frames[i])
      case Done(next) => ExtractFrom(env, frames, i + 1, next, warnings, None)
      case Warned(next, e) => ExtractFrom(env, frames, i + 1, next, warnings + [e], Some(e))
      case Fatal(e) => Extracted(st, warnings, err, Some(e))
  }

  /** The loop does what replaying the frames it has not handled yet
      describes. */
  lemma {:induction false} ExtractFromRun(env: Env, frames: seq<Frame>, i: nat, st: State, warnings: seq<Failure>, err: Option<Failure>)
    requires Inside(st) && i <= |frames|
    ensures var r := Run(env, st, frames[i..]);
      var x := ExtractFrom(env, frames, i, st, warnings, err);
      && x.st == r.st && x.warnings == warnings + r.warnings && x.fatal == r.fatal
      && (r.fatal.None? ==> x.err == if i < |frames| then LastError(env, st, frames[i..]) else err)
    decreases |frames| - i
  {
    if i == |frames| {
      assert frames[i..] == [];
      assert warnings + [] == warnings;
    } else {
      var s := frames[i..];
      assert s[0] == frames[i] && s[1..] == frames[i + 1..];
      match Step(env, st, frames[i])
      case Done(next) =>
        ExtractFromRun(env, frames, i + 1, next, warnings, None);
      case Warned(next, e) =>
        ExtractFromRun(env, frames, i + 1, next, warnings + [e], Some(e));
        assert warnings + [e] + Run(env, next, frames[i + 1..]).warnings == warnings + ([e] + Run(env, next, frames[i + 1..]).warnings);
      case Fatal(e) =>
        assert warnings + [] == warnings;
    }
  }

  class Extractor {
    var fs: FS
    var cwd: Path
    /** The failures warned about so far, in order. */
    var warnings: seq<Failure>
    const env: Env

    function St(): State
      reads this
    {
      State(fs, cwd)
    }

    predicate Valid()
      reads this
    {
      Inside(St())
    }

    /** Starts in `start`, which is a directory of `fs`. */
    constructor (fs: FS, start: Path, env: Env)
      requires Inside(State(fs, start))
      ensures Valid() && St() == State(fs, start) && warnings == [] && this.env == env
    {
      this.fs := fs;
      cwd := start;
      warnings := [];
      this.env := env;
    }

    // -------------------------------------------------------------------
    // System calls, on names relative to the working directory.

    method Lstat(name: Name) returns (e: Option<Entry>)
      ensures e == if cwd + [name] in fs then Some(fs[cwd + [name]]) else None
    {
      var p := cwd + [name];
      e := if p in fs then Some(fs[p]) else None;
    }

    method RemoveAll(name: Name)
      modifies this`fs
      ensures fs == FileSystem.RemoveAll(old(fs), cwd + [name])
    {
      fs := FileSystem.RemoveAll(fs, cwd + [name]);
    }

    method Remove(name: Name)
      modifies this`fs
      ensures fs == FileSystem.Remove(old(fs), cwd + [name])
    {
      fs := FileSystem.Remove(fs, cwd + [name]);
    }

    /** A new directory gets the current time as its mtime. */
    method Mkdir(name: Name, mode: uint32)
      modifies this`fs
      ensures fs == old(fs)[cwd + [name] := Directory(mode, env.now)]
    {
      fs := fs[cwd + [name] := Directory(mode, env.now)];
    }

    method Chdir(name: Name)
      requires Valid() && cwd + [name] in fs && fs[cwd + [name]].Directory?
      modifies this`cwd
      ensures Valid() && cwd == old(cwd) + [name]
    {
      DescendStaysInside(St(), name, fs);
      cwd := cwd + [name];
    }

    /** Opens for reading and writing, creating an empty file with every
        permission bit when the name is absent. */
    method OpenFile(name: Name)
      requires cwd + [name] in fs ==> fs[cwd + [name]].Regular?
      modifies this`fs
      ensures fs == if cwd + [name] in old(fs) then old(fs) else old(fs)[cwd + [name] := Regular([], 511, env.now)]
    {
      var p := cwd + [name];
      if p !in fs {
        fs := fs[p := Regular([], 511, env.now)];
      }
    }

    /** Writes the buffer at the start of the open file. */
    method Write(name: Name, bytes: seq<byte>) returns (c: nat)
      requires cwd + [name] in fs && fs[cwd + [name]].Regular?
      modifies this`fs
      ensures c == |bytes|
      ensures var e := old(fs)[cwd + [name]];
        fs == old(fs)[cwd + [name] := Regular(WriteAt(e.data, bytes), e.perm, e.mtime)]
    {
      var p := cwd + [name];
      var e := fs[p];
      fs := fs[p := Regular(WriteAt(e.data, bytes), e.perm, e.mtime)];
      c := |bytes|;
    }

    method TruncateFile(name: Name, n: nat)
      requires cwd + [name] in fs && fs[cwd + [name]].Regular?
      modifies this`fs
      ensures var e := old(fs)[cwd + [name]];
        fs == old(fs)[cwd + [name] := Regular(Truncate(e.data, n), e.perm, e.mtime)]
    {
      var p := cwd + [name];
      var e := fs[p];
      fs := fs[p := Regular(Truncate(e.data, n), e.perm, e.mtime)];
    }

    method Chmod(name: Name, perm: nat)
      requires cwd + [name] in fs && fs[cwd + [name]].Regular?
      modifies this`fs
      ensures var e := old(fs)[cwd + [name]];
        fs == old(fs)[cwd + [name] := Regular(e.data, perm, e.mtime)]
    {
      var p := cwd + [name];
      var e := fs[p];
      fs := fs[p := Regular(e.data, perm, e.mtime)];
    }

    method Chtimes(p: Path, mtime: int64)
      requires p in fs
      modifies this`fs
      ensures fs == old(fs)[p := Touched(old(fs)[p], mtime)]
    {
      fs := fs[p := Touched(fs[p], mtime)];
    }

    /** Fails when the name is taken. */
    method MakeSymlink(referent: string, name: Name) returns (ok: bool)
      modifies this`fs
      ensures ok == (cwd + [name] !in old(fs))
      ensures fs == if ok then old(fs)[cwd + [name] := Symlink(referent)] else old(fs)
    {
      var p := cwd + [name];
      ok := p !in fs;
      if ok {
        fs := fs[p := Symlink(referent)];
      }
    }

    /** The platform's FIFO creator: on Unix a FIFO with the given mode whose
        mtime is then set, failing when the name is taken; on Windows it
        always fails. */
    method MakeFifo(name: Name, mode: uint32, mtime: int64) returns (err: Option<Failure>)
      modifies this`fs
      ensures err == if env.platform.Windows? then Some(NotImplemented)
                     else if cwd + [name] in old(fs) then Some(AlreadyExists) else None
      ensures fs == if err.None? then old(fs)[cwd + [name] := Fifo(mode, mtime)] else old(fs)
    {
      var p := cwd + [name];
      if env.platform.Windows? {
        return Some(NotImplemented);
      }
      if p in fs {
        return Some(AlreadyExists);
      }
      fs := fs[p := Fifo(mode, env.now)];
      Chtimes(p, mtime);
      err := None;
    }

    /** The platform's socket creator fails on both platforms. */
    method MakeSocket(name: Name, mode: uint32, mtime: int64) returns (err: Failure)
      ensures err == NotImplemented
    {
      err := NotImplemented;
    }

    // -------------------------------------------------------------------
    // The handlers.

    /** Removes a same-named entry of another type. */
    method ClearWrongType(name: Name, k: Kind) returns (e: Option<Entry>)
      modifies this`fs
      ensures fs == Replay.ClearWrongType(old(fs), cwd + [name], k)
      ensures e == if cwd + [name] in old(fs) then Some(old(fs)[cwd + [name]]) else None
    {
      e := Lstat(name);
      if e.Some? && KindOf(e.value) != k {
        RemoveAll(name);
      }
    }

    method DecodeFile(f: Frame) returns (v: Verdict)
      requires Valid()
      modifies this`fs
      ensures Valid() && !v.Exited?
      ensures Replay.DecodeFile(env, old(St()), f) == WithState(v, St())
    {
      var header := ParseFileHeader(f.fields);
      if header.Err? {
        return Errored(Undecodable(header.error));
      }
      var h := header.value;
      // the contents are every remaining byte of the payload, hashed as
      // they are read
      var contents := f.body;
      var computed := env.hash(contents);
      if |contents| < h.size {
        return Errored(UnexpectedEOF(|contents|, h.size));
      }
      if h.hash != computed {
        return Errored(HashMismatch(h.hash, computed));
      }
      var _ := ClearWrongType(h.name, RegularKind);
      WriteContents(h.name, contents, h.mode % 512, h.mtime);
      v := Applied;
    }

    /** Opens or creates the file, writes the contents over it, truncates it
        to the count written, then sets its permission bits and mtime. */
    method WriteContents(name: Name, contents: seq<byte>, perm: nat, mtime: int64)
      requires cwd + [name] in fs ==> fs[cwd + [name]].Regular?
      modifies this`fs
      ensures fs == old(fs)[cwd + [name] := Regular(contents, perm, mtime)]
    {
      var p := cwd + [name];
      OpenFile(name);
      ghost var prior := fs[p].data;
      var c := Write(name, contents);
      // a write shorter than the declared size cannot happen: c >= size
      TruncateFile(name, c);
      OverwriteExactly(prior, contents);
      assert fs[p].data == contents;
      Chmod(name, perm);
      Chtimes(p, mtime);
      assert fs[p] == Regular(contents, perm, mtime);
    }

    /** The decoded mtime and mode are not applied to the link. */
    method DecodeSymlink(f: Frame) returns (v: Verdict)
      requires Valid()
      modifies this`fs
      ensures Valid() && !v.Exited?
      ensures Replay.DecodeSymlink(old(St()), f) == WithState(v, St())
    {
      var header := ParseSymlinkHeader(f.fields);
      if header.Err? {
        return Errored(Undecodable(header.error));
      }
      var h := header.value;
      var _ := ClearWrongType(h.name, SymlinkKind);
      var ok := MakeSymlink(h.referent, h.name);
      v := if ok then Applied else Errored(AlreadyExists);
    }

    method DecodeFifo(f: Frame) returns (v: Verdict)
      requires Valid()
      modifies this`fs
      ensures Valid() && !v.Exited?
      ensures Replay.DecodeFifo(env, old(St()), f) == WithState(v, St())
    {
      var header := ParseNodeHeader(f.fields);
      if header.Err? {
        return Errored(Undecodable(header.error));
      }
      var h := header.value;
      var _ := ClearWrongType(h.name, FifoKind);
      var err := MakeFifo(h.name, h.mode, h.mtime);
      v := if err.None? then Applied else Errored(err.value);
    }

    method DecodeSocket(f: Frame) returns (v: Verdict)
      requires Valid()
      modifies this`fs
      ensures Valid() && !v.Exited?
      ensures Replay.DecodeSocket(old(St()), f) == WithState(v, St())
    {
      var header := ParseNodeHeader(f.fields);
      if header.Err? {
        return Errored(Undecodable(header.error));
      }
      var h := header.value;
      var _ := ClearWrongType(h.name, SocketKind);
      var err := MakeSocket(h.name, h.mode, h.mtime);
      v := Errored(err);
    }

    /** Reads the name only; device creation is not implemented. */
    method DecodeDevice(f: Frame) returns (v: Verdict)
      requires Valid()
      ensures Replay.DecodeDevice(St(), f) == WithState(v, St())
    {
      var name := ReadString(f.fields);
      if name.Err? {
        return Errored(Undecodable(name.error));
      }
      v := Errored(NotImplemented);
    }

    /** Every error here ends the process. */
    method DecodeDescend(f: Frame) returns (v: Verdict)
      requires Valid()
      modifies this`fs, this`cwd
      ensures Valid() && !v.Errored?
      ensures v.Exited? ==> St() == old(St())
      ensures Replay.DecodeDescend(env, old(St()), f) == WithState(v, St())
    {
      var header := ParseDescendHeader(f.fields);
      if header.Err? {
        return Exited(Undecodable(header.error));
      }
      var h := header.value;
      var e := Lstat(h.name);
      if e.None? {
        Mkdir(h.name, h.mode);
        DescendStaysInside(old(St()), h.name, fs);
        Chdir(h.name);
      } else if e.value.Directory? {
        Chdir(h.name);
      } else {
        Remove(h.name);
        Mkdir(h.name, h.mode);
        DescendStaysInside(old(St()), h.name, fs);
        Chdir(h.name);
      }
      v := Applied;
    }

    /** Sets the mtime of the working directory, then moves to its parent. */
    method DecodeAscend(f: Frame) returns (v: Verdict)
      requires Valid()
      modifies this`fs, this`cwd
      ensures Valid() && !v.Exited?
      ensures Replay.DecodeAscend(old(St()), f) == WithState(v, St())
    {
      var mtime := ParseAscendMtime(f.fields);
      if mtime.Err? {
        return Errored(Undecodable(mtime.error));
      }
      AscendStaysInside(St(), mtime.value);
      var wd := cwd;
      Chtimes(wd, mtime.value);
      cwd := if wd == [] then [] else Parent(wd);
      v := Applied;
    }

    /** The dispatch table, keyed by message tag. */
    method Handle(f: Frame) returns (v: Verdict)
      requires Valid()
      modifies this`fs, this`cwd
      ensures Valid()
      ensures v.Exited? ==> St() == old(St())
      ensures Step(env, old(St()), f) == WithState(v, St())
    {
      if f.tag == RegularFileTag {
        v := DecodeFile(f);
      } else if f.tag == DirectoryAscendTag {
        v := DecodeAscend(f);
      } else if f.tag == DirectoryDescendTag {
        v := DecodeDescend(f);
      } else if f.tag == SymlinkTag {
        v := DecodeSymlink(f);
      } else if f.tag == FifoTag {
        v := DecodeFifo(f);
      } else if f.tag == SocketTag {
        v := DecodeSocket(f);
      } else if f.tag == DeviceTag {
        v := DecodeDevice(f);
      } else {
        v := Errored(NoHandler(f.tag));
      }
    }

    /** Handles every frame in order, warning about each failure, until the
        input ends or a handler ends the process.  Returns the error of the
        last message handled and the error that ended the process, if
        any. */
    method Extract(frames: seq<Frame>) returns (err: Option<Failure>, fatal: Option<Failure>)
      requires Valid()
      modifies this
      ensures Valid()
      ensures var r := Run(env, old(St()), frames);
        && St() == r.st
        && warnings == old(warnings) + r.warnings
        && fatal == r.fatal
      ensures fatal.None? ==> err == LastError(env, old(St()), frames)
    {
      ExtractFromRun(env, frames, 0, St(), warnings, None);
      assert frames[0..] == frames;
      ghost var result := ExtractFrom(env, frames, 0, St(), warnings, None);
      err := None;
      var i := 0;
      while i < |frames|
        invariant Valid() && 0 <= i <= |frames|
        invariant ExtractFrom(env, frames, i, St(), warnings, err) == result
      {
        var v := Handle(frames[i]);
        if v.Exited? {
          return err, Some(v.failure);
        }
        if v.Errored? {
          warnings := warnings + [v.failure];
          err := Some(v.failure);
        } else {
          err := None;
        }
        i := i + 1;
      }
      fatal := None;
    }
  }
}