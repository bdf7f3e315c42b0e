/**
 * The wire vocabulary of an archive transcript: scalar types, the message
 * type tags, frames, and the field layout of every message payload.
 *
 * A frame is a message type tag plus a payload.  The byte framing and the
 * scalar byte encodings belong to an external library, so a payload is
 * modelled as the sequence of typed scalar fields it was built from,
 * followed by the raw bytes that follow those fields (only a regular-file
 * message has any).
 */
module Wire {

  type byte = x: int | 0 <= x < 0x100
  type uint32 = x: int | 0 <= x < 0x1_0000_0000
  type uint64 = x: int | 0 <= x < 0x1_0000_0000_0000_0000
  type int64 = x: int | -0x8000_0000_0000_0000 <= x < 0x8000_0000_0000_0000

  /** The base name of a filesystem entry, one path component. */
  type Name = string

  // Message type tags, numbered consecutively from zero.
  const SynTag: uint32 := 0
  const SynAckTag: uint32 := 1
  const RegularFileTag: uint32 := 2
  const DirectoryDescendTag: uint32 := 3
  const DirectoryAscendTag: uint32 := 4
  const SymlinkTag: uint32 := 5
  const FifoTag: uint32 := 6
  const SocketTag: uint32 := 7
  const DeviceTag: uint32 := 8

  /** A scalar field of a payload: length-prefixed string, fixed-width
      integers, and the variable-width unsigned integer used for sizes. */
  datatype Field =
    | Str(s: string)
    | I64(i: int64)
    | U32(u: uint32)
    | U64(w: uint64)
    | Uvwi(n: nat)

  datatype Frame = Frame(tag: uint32, fields: seq<Field>, body: seq<byte>)

  /** Why a field could not be decoded: the payload ended, or the next field
      is not of the expected kind. */
  datatype WireError = Truncated | Malformed

  datatype Result<+T, +E> = Ok(value: T) | Err(error: E) {
    predicate IsFailure() { Err? }
    function PropagateFailure<U>(): Result<U, E>
      requires Err?
    {
      Err(error)
    }
    function Extract(): T
      requires Ok?
    {
      value
    }
  }

  // ---------------------------------------------------------------------
  // Reading one field from the front of a payload.

  function ReadString(fs: seq<Field>): (r: Result<(string, seq<Field>), WireError>)
    ensures r.Ok? <==> |fs| > 0 && fs[0].Str?
    ensures r.Ok? ==> fs == [Str(r.value.0)] + r.value.1
  {
    if |fs| == 0 then Err(Truncated)
    else if fs[0].Str? then Ok((fs[0].s, fs[1..]))
    else Err(Malformed)
  }

  function ReadInt64(fs: seq<Field>): (r: Result<(int64, seq<Field>), WireError>)
    ensures r.Ok? <==> |fs| > 0 && fs[0].I64?
    ensures r.Ok? ==> fs == [I64(r.value.0)] + r.value.1
  {
    if |fs| == 0 then Err(Truncated)
    else if fs[0].I64? then Ok((fs[0].i, fs[1..]))
    else Err(Malformed)
  }

  function ReadUint32(fs: seq<Field>): (r: Result<(uint32, seq<Field>), WireError>)
    ensures r.Ok? <==> |fs| > 0 && fs[0].U32?
    ensures r.Ok? ==> fs == [U32(r.value.0)] + r.value.1
  {
    if |fs| == 0 then Err(Truncated)
    else if fs[0].U32? then Ok((fs[0].u, fs[1..]))
    else Err(Malformed)
  }

  function ReadUint64(fs: seq<Field>): (r: Result<(uint64, seq<Field>), WireError>)
    ensures r.Ok? <==> |fs| > 0 && fs[0].U64?
    ensures r.Ok? ==> fs == [U64(r.value.0)] + r.value.1
  {
    if |fs| == 0 then Err(Truncated)
    else if fs[0].U64? then Ok((fs[0].w, fs[1..]))
    else Err(Malformed)
  }

  function ReadUvwi(fs: seq<Field>): (r: Result<(nat, seq<Field>), WireError>)
    ensures r.Ok? <==> |fs| > 0 && fs[0].Uvwi?
    ensures r.Ok? ==> fs == [Uvwi(r.value.0)] + r.value.1
  {
    if |fs| == 0 then Err(Truncated)
    else if fs[0].Uvwi? then Ok((fs[0].n, fs[1..]))
    else Err(Malformed)
  }

  // ---------------------------------------------------------------------
  // Payload layouts, one per message kind: the field order each encoder
  // writes and each decoder reads back.

  /** Regular file: name, mtime, mode, hash, size (the contents follow as the
      frame's body). */
  datatype FileHeader = FileHeader(name: Name, mtime: int64, mode: uint32, hash: uint64, size: nat)

  function FileFields(h: FileHeader): seq<Field> {
    [Str(h.name), I64(h.mtime), U32(h.mode), U64(h.hash), Uvwi(h.size)]
  }

  function ParseFileHeader(fs: seq<Field>): Result<FileHeader, WireError> {
    var name :- ReadString(fs);
    var mtime :- ReadInt64(name.1);
    var mode :- ReadUint32(mtime.1);
    var hash :- ReadUint64(mode.1);
    var size :- ReadUvwi(hash.1);
    Ok(FileHeader(name.0, mtime.0, mode.0, hash.0, size.0))
  }

  /** Symbolic link: name, referent, mtime, mode. */
  datatype SymlinkHeader = SymlinkHeader(name: Name, referent: string, mtime: int64, mode: uint32)

  function SymlinkFields(h: SymlinkHeader): seq<Field> {
    [Str(h.name), Str(h.referent), I64(h.mtime), U32(h.mode)]
  }

  function ParseSymlinkHeader(fs: seq<Field>): Result<SymlinkHeader, WireError> {
    var name :- ReadString(fs);
    var referent :- ReadString(name.1);
    var mtime :- ReadInt64(referent.1);
    var mode :- ReadUint32(mtime.1);
    Ok(SymlinkHeader(name.0, referent.0, mtime.0, mode.0))
  }

  /** FIFO and socket: name, mtime, mode. */
  datatype NodeHeader = NodeHeader(name: Name, mtime: int64, mode: uint32)

  function NodeFields(h: NodeHeader): seq<Field> {
    [Str(h.name), I64(h.mtime), U32(h.mode)]
  }

  function ParseNodeHeader(fs: seq<Field>): Result<NodeHeader, WireError> {
    var name :- ReadString(fs);
    var mtime :- ReadInt64(name.1);
    var mode :- ReadUint32(mtime.1);
    Ok(NodeHeader(name.0, mtime.0, mode.0))
  }

  /** Directory descend: name, mode. */
  datatype DescendHeader = DescendHeader(name: Name, mode: uint32)

  function DescendFields(h: DescendHeader): seq<Field> {
    [Str(h.name), U32(h.mode)]
  }

  function ParseDescendHeader(fs: seq<Field>): Result<DescendHeader, WireError> {
    var name :- ReadString(fs);
    var mode :- ReadUint32(name.1);
    Ok(DescendHeader(name.0, mode.0))
  }

  /** Directory ascend: the mtime of the directory being left, nothing else. */
  function AscendFields(mtime: int64): seq<Field> {
    [I64(mtime)]
  }

  function ParseAscendMtime(fs: seq<Field>): Result<int64, WireError> {
    var mtime :- ReadInt64(fs);
    Ok(mtime.0)
  }

  // ---------------------------------------------------------------------
  // Each layout reads back exactly what was written, whatever follows it,
  // and a successful read means the payload starts with that layout.

  lemma {:induction false} FileHeaderRoundTrip(h: FileHeader, rest: seq<Field>)
    ensures ParseFileHeader(FileFields(h) + rest) == Ok(h)
  {
    var fs := FileFields(h) + rest;
    assert fs[1..] == [I64(h.mtime), U32(h.mode), U64(h.hash), Uvwi(h.size)] + rest;
    assert fs[1..][1..] == [U32(h.mode), U64(h.hash), Uvwi(h.size)] + rest;
    assert fs[1..][1..][1..] == [U64(h.hash), Uvwi(h.size)] + rest;
    assert fs[1..][1..][1..][1..] == [Uvwi(h.size)] + rest;
  }

  lemma {:induction false} FileHeaderParsed(fs: seq<Field>)
    requires ParseFileHeader(fs).Ok?
    ensures FileFields(ParseFileHeader(fs).value) <= fs
  {
    var h := ParseFileHeader(fs).value;
    assert fs == [Str(h.name)] + ([I64(h.mtime)] + ([U32(h.mode)] + ([U64(h.hash)] + ([Uvwi(h.size)] + fs[5..]))));
  }

  lemma {:induction false} SymlinkHeaderRoundTrip(h: SymlinkHeader, rest: seq<Field>)
    ensures ParseSymlinkHeader(SymlinkFields(h) + rest) == Ok(h)
  {
    var fs := SymlinkFields(h) + rest;
    assert fs[1..] == [Str(h.referent), I64(h.mtime), U32(h.mode)] + rest;
    assert fs[1..][1..] == [I64(h.mtime), U32(h.mode)] + rest;
    assert fs[1..][1..][1..] == [U32(h.mode)] + rest;
  }

  lemma {:induction false} SymlinkHeaderParsed(fs: seq<Field>)
    requires ParseSymlinkHeader(fs).Ok?
    ensures SymlinkFields(ParseSymlinkHeader(fs).value) <= fs
  {
    var h := ParseSymlinkHeader(fs).value;
    assert fs == [Str(h.name)] + ([Str(h.referent)] + ([I64(h.mtime)] + ([U32(h.mode)] + fs[4..])));
  }

  lemma {:induction false} NodeHeaderRoundTrip(h: NodeHeader, rest: seq<Field>)
    ensures ParseNodeHeader(NodeFields(h) + rest) == Ok(h)
  {
    var fs := NodeFields(h) + rest;
    assert fs[1..] == [I64(h.mtime), U32(h.mode)] + rest;
    assert fs[1..][1..] == [U32(h.mode)] + rest;
  }

  lemma {:induction false} NodeHeaderParsed(fs: seq<Field>)
    requires ParseNodeHeader(fs).Ok?
    ensures NodeFields(ParseNodeHeader(fs).value) <= fs
  {
    var h := ParseNodeHeader(fs).value;
    assert fs == [Str(h.name)] + ([I64(h.mtime)] + ([U32(h.mode)] + fs[3..]));
  }

  lemma {:induction false} DescendHeaderRoundTrip(h: DescendHeader, rest: seq<Field>)
    ensures ParseDescendHeader(DescendFields(h) + rest) == Ok(h)
  {
    var fs := DescendFields(h) + rest;
    assert fs[1..] == [U32(h.mode)] + rest;
  }

  lemma {:induction false} DescendHeaderParsed(fs: seq<Field>)
    requires ParseDescendHeader(fs).Ok?
    ensures DescendFields(ParseDescendHeader(fs).value) <= fs
  {
    var h := ParseDescendHeader(fs).value;
    assert fs == [Str(h.name)] + ([U32(h.mode)] + fs[2..]);
  }

  lemma {:induction false} AscendRoundTrip(mtime: int64, rest: seq<Field>)
    ensures ParseAscendMtime(AscendFields(mtime) + rest) == Ok(mtime)
  {
  }

  // ---------------------------------------------------------------------
  // Which payloads each decoder accepts: exactly those whose leading fields
  // have the layout's kinds. A payload long enough for the layout that is
  // still refused has a field of the wrong kind.

  lemma FileHeaderAccepts(fs: seq<Field>)
    ensures ParseFileHeader(fs).Ok? <==> |fs| >= 5 && fs[0].Str? && fs[1].I64? && fs[2].U32? && fs[3].U64? && fs[4].Uvwi?
    ensures ParseFileHeader(fs).Err? && |fs| >= 5 ==> ParseFileHeader(fs).error == Malformed
  {
  }

  lemma SymlinkHeaderAccepts(fs: seq<Field>)
    ensures ParseSymlinkHeader(fs).Ok? <==> |fs| >= 4 && fs[0].Str? && fs[1].Str? && fs[2].I64? && fs[3].U32?
    ensures ParseSymlinkHeader(fs).Err? && |fs| >= 4 ==> ParseSymlinkHeader(fs).error == Malformed
  {
  }

  lemma NodeHeaderAccepts(fs: seq<Field>)
    ensures ParseNodeHeader(fs).Ok? <==> |fs| >= 3 && fs[0].Str? && fs[1].I64? && fs[2].U32?
    ensures ParseNodeHeader(fs).Err? && |fs| >= 3 ==> ParseNodeHeader(fs).error == Malformed
  {
  }

  lemma DescendHeaderAccepts(fs: seq<Field>)
    ensures ParseDescendHeader(fs).Ok? <==> |fs| >= 2 && fs[0].Str? && fs[1].U32?
    ensures ParseDescendHeader(fs).Err? && |fs| >= 2 ==> ParseDescendHeader(fs).error == Malformed
  {
  }

  lemma AscendAccepts(fs: seq<Field>)
    ensures ParseAscendMtime(fs).Ok? <==> |fs| >= 1 && fs[0].I64?
    ensures ParseAscendMtime(fs).Err? ==> ParseAscendMtime(fs).error == (if fs == [] then Truncated else Malformed)
  {
  }
}
