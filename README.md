# tsync archive transcripts, modelled in Dafny

tsync copies a directory tree by turning it into a *transcript*: a stream of
typed messages, one per filesystem entry. The *create* side walks each
command-line target and hands one message per entry to a composer. The
*extract* side pumps the stream through a table from message tag to handler,
and the handlers rebuild the entries in the destination. The process working
directory is the decoder's position in the tree. A directory is bracketed by
a *descend* message, sent before its children, and an *ascend* message,
which carries the directory's own mtime and is sent after them.

The model has these modules:

- `Wire`: the tags (0 and 1 are the unhandled handshake pair, 2 to 8 the
  entry kinds), frames, and the field layout of each payload. Each layout has
  a round-trip lemma.
- `SourceTree`: the tree the encoder walks, given as input. Each node records
  its type, what its stat reports, and whether its stat, open or read
  succeeds.
- `Transcript`: the frames, warnings and outcome of encoding one entry, a
  directory's children, and a whole pass over the targets. These are
  functions of the tree and of the room left in the sink. Beside them is a
  reference transcript for a sink that never refuses, and the
  descend/ascend bracket lemmas.
- `Encoder`: the class that appends to the composer and the diagnostic
  channel as the source does, one frame at a time. Each method is proved to
  emit exactly the transcript.
- `FileSystem`: the destination, as a map from paths to entries.
- `Replay`: one function per handler, the tag dispatch, and the driver.
  Lemmas cover the type-replacement rules, the checks made before any
  change, depth, locality and well-formedness.
- `Decoder`: the class `Extractor`, which has `fs`, `cwd` and `warnings`
  fields. It makes system calls one at a time, and its handlers and driver
  loop are proved to do what `Replay` describes.
- `Nesting`: a transcript the encoder emits is never fatal to extract, and
  unless the pass halted it returns the decoder to the directory it started
  in.
- `RoundTrip`: extracting the transcript of a tree into a destination that
  holds only its start directory reproduces the tree's image, provided no
  permission check refuses an operation (see "## Left out"). The image
  covers names, types, file contents, the permission bits of regular files,
  the transmitted modes of directories and FIFOs, referents and mtimes.

Outside influences are parameters:

- The content hash (xxHash64) is a function `seq<byte> -> uint64`.
- The platform (`Unix` or `Windows`) selects the FIFO and socket creators.
- The sink accepts a fixed number of frames and refuses every frame after
  that.
- A new directory's initial mtime is a fixed `now`.

Where the source's comments and its code disagree, the model follows the code (for example, the comment at main.go:492-494 promises a permissive initial mode; the code at main.go:495 uses the transmitted one). The model also gives these behaviours of the code:

- **Descend creates.** A new directory gets the transmitted mode, not a
  permissive one. A non-directory in the way is removed with a
  non-recursive remove.
- **Ascend failures.** The ascend handler's failures are warnings, not fatal
  errors.
- **Ascend at the start directory.** The source moves to the start
  directory's parent, outside the destination. The model cannot represent
  positions above the start directory, so it sets the start directory's
  mtime and stays there. The encoder never emits such an ascend (see
  `Nesting.EncodedPassReturns`); "## Left out" records the difference.
- **File contents.** A file message writes every remaining payload byte and
  truncates to the count written. It does not stop at exactly `size` bytes.
- **Header failures.** Only the descend handler treats an undecodable header
  as fatal.
- **Symlink metadata.** A symbolic link's decoded mtime and mode are never
  applied.

## Model

| member | source | states |
|---|---|---|
| Wire.FileHeaderRoundTrip | main.go:554-573 | the file handler reads back name, mtime, mode, hash and size in the order the file encoder writes them, whatever follows |
| Wire.FileHeaderParsed | main.go:554-573 | a file header that decodes means the payload starts with exactly those five fields |
| Wire.SymlinkHeaderRoundTrip | main.go:685-697 | the symlink handler reads back name, referent, mtime and mode as written |
| Wire.SymlinkHeaderParsed | main.go:685-697 | a decoded symlink header is a prefix of the payload |
| Wire.NodeHeaderRoundTrip | main.go:518-529 | the FIFO and socket handlers read back name, mtime and mode as written |
| Wire.NodeHeaderParsed | main.go:649-660 | a decoded FIFO or socket header is a prefix of the payload |
| Wire.DescendHeaderRoundTrip | main.go:478-483 | the descend handler reads back name and mode as written |
| Wire.DescendHeaderParsed | main.go:478-483 | a decoded descend header is a prefix of the payload |
| Wire.AscendRoundTrip | main.go:458-462 | the ascend handler reads back the mtime as written |
| Wire.FileHeaderAccepts | main.go:554-573 | the file handler accepts a header exactly when the first five fields are a string, an Int64, a Uint32, a Uint64 and a UVWI; a long enough payload that is refused has a field of the wrong kind |
| Wire.SymlinkHeaderAccepts | main.go:685-697 | the symlink handler accepts exactly two strings, an Int64 and a Uint32 in front; a long enough refused payload is malformed |
| Wire.NodeHeaderAccepts | main.go:518-529 | the FIFO and socket handlers accept exactly a string, an Int64 and a Uint32 in front; a long enough refused payload is malformed |
| Wire.DescendHeaderAccepts | main.go:478-483 | the descend handler accepts exactly a string and a Uint32 in front; a long enough refused payload is malformed |
| Wire.AscendAccepts | main.go:458-462 | the ascend handler accepts exactly a leading Int64; an empty payload is truncated, any other refused one malformed |
| Transcript.DirentTranscript | main.go:199-214 | one entry never has more frames placed in the sink than it has room for |
| Transcript.ChildrenTranscript | main.go:244-248 | the children emit no more than the room and never fail as a whole: a failed child is only warned about |
| Transcript.TargetTranscript | main.go:186-197 | a target emits no more than the room |
| Transcript.CreateTranscript | main.go:120-124 | a whole pass emits no more than the room and never fails as a whole: a failed target is only warned about |
| Transcript.AmpleRoom | main.go:199-214 | with room for every frame, the transcript is the reference one, and the entry fails exactly when it is not encodable |
| Transcript.AmpleRoomAll | main.go:244-248 | with room for every frame, the children's frames are the concatenation of their reference frames and the loop completes |
| Transcript.TranscriptNests | main.go:234-253 | no prefix of an entry's frames has more ascends than descends, and unless the pass halted the counts are equal |
| Transcript.ChildrenNest | main.go:244-248 | the same for a directory's children |
| Transcript.CreateNests | main.go:120-124 | the same for the whole pass over the targets |
| Transcript.IdealBalanced | main.go:220-256 | the reference transcript of any tree is balanced |
| Transcript.DirectoryShape | main.go:224-253 | a failed stat or listing gives no frames and an error; otherwise the descend frame comes first; on success the ascend frame with the first stat's mtime comes last, with exactly the children's transcript, which is balanced, between |
| Transcript.HaltMeansSinkFull | main.go:253 | a pass halts only when the sink has refused a frame, so a halted transcript filled the sink exactly |
| Transcript.FileShape | main.go:296-345 | a short read gives ErrUnexpectedEOF and no frame; on success there is one frame with name, mtime, mode, hash of exactly the contents sent, size and contents; it succeeds exactly when readable, not short and the sink has room |
| Transcript.UnsupportedNeverEncoded | main.go:210-213 | device nodes and other types emit nothing and fail as unsupported |
| Transcript.ComposeAccepts | main.go:345 | the sink takes a frame exactly when it has room, and then emits only that frame; a refusal emits nothing and fails the entry |
| Transcript.FileTranscriptReadsBack | main.go:277-346 | a regular file gives at most one frame and never halts; a failed open or stat fails it; an emitted frame has the contents as body and a header the file handler reads back as name, mtime, mode, hash of the contents and stat size |
| FileSystem.Parent | main.go:474 | the parent path plus the last name gives back the path |
| FileSystem.RemoveAll | main.go:602 | removes the path and everything below it, and keeps every other entry unchanged |
| FileSystem.Remove | main.go:504 | removes the path only, keeping every other entry unchanged |
| FileSystem.RemoveLeaf | main.go:504 | in a well-formed tree, removing a non-directory non-recursively equals removing it recursively |
| FileSystem.WriteAt | main.go:618 | a write at offset zero puts the bytes first and keeps any longer tail |
| FileSystem.Truncate | main.go:629 | truncation cuts the contents to the given length, or extends them to it keeping what was there |
| FileSystem.OverwriteExactly | main.go:618-629 | writing new contents over any old file and truncating to the count written leaves exactly the new contents |
| Replay.AscendStaysInside | main.go:469-474 | setting the working directory's mtime and moving to its parent keeps the position inside directories |
| Replay.DescendStaysInside | main.go:495-506 | moving into a directory just below, with the ancestors untouched, keeps the position inside directories |
| Replay.DecodeFile | main.go:546-641 | the file handler is never fatal and keeps the position inside directories |
| Replay.DecodeSymlink | main.go:678-724 | the symlink handler is never fatal and keeps the position inside directories |
| Replay.DecodeFifo | main.go:512-544 | the FIFO handler is never fatal and keeps the position inside directories |
| Replay.DecodeSocket | main.go:643-676 | the socket handler always fails, never fatally, and keeps the position inside directories |
| Replay.DecodeDevice | main.go:447-456 | the device handler always fails, never fatally, and leaves the state as it was |
| Replay.DecodeDescend | main.go:477-510 | an applied descend ends inside directories |
| Replay.DecodeAscend | main.go:458-475 | the ascend handler is never fatal and keeps the position inside directories |
| Replay.Step | main.go:151-159 | a fatal step is always a descend message, and every non-fatal step keeps the position inside directories |
| Replay.Run | main.go:167-171 | a replay that was not stopped ends inside directories, and it has at most one warning per frame |
| Replay.RunAppend | main.go:167-171 | replaying a concatenation is replaying its parts one after the other, warnings concatenated, and a fatal first part stops everything |
| Replay.DescendMoves | main.go:477-510 | a descend is fatal exactly when its header cannot be decoded; otherwise it moves exactly one level down into the named entry |
| Replay.AscendMoves | main.go:458-475 | an ascend is never fatal; a decodable one sets the working directory's mtime and moves to its parent, or stays at the start directory, and changes no other entry; an undecodable one changes nothing |
| Replay.OthersStay | main.go:151-159 | file, symlink, FIFO, socket, device and unknown messages are never fatal and never move the working directory |
| Replay.ClearWrongTypeRules | main.go:596-605 | after clearing, the name holds nothing of another kind; entries are only removed; everything outside the name is kept; an entry of the right kind is left alone and one of another kind goes with everything below it |
| Replay.ClearThenSetIsLocal | main.go:596-605 | removing a wrong-typed entry and creating one at a path changes nothing outside that path |
| Replay.FileIsLocal | main.go:595-640 | the file handler changes nothing outside its entry |
| Replay.SymlinkIsLocal | main.go:699-713 | the symlink handler changes nothing outside its entry |
| Replay.FifoIsLocal | main.go:532-543 | the FIFO handler changes nothing outside its entry |
| Replay.SocketIsLocal | main.go:662-675 | the socket handler changes nothing outside its entry |
| Replay.EntryStepsAreLocal | main.go:151-159 | an entry message changes nothing outside the entry it names, and nothing at all when it has no readable name |
| Replay.FileChecksFirst | main.go:584-593 | a file message is applied exactly when the payload has at least `size` bytes and hashes to the declared value; otherwise it warns ErrUnexpectedEOF or hash mismatch, with the state unchanged |
| Replay.FileReplaces | main.go:595-640 | an applied file message leaves a regular file with exactly the payload contents, the mode's permission bits and the decoded mtime; a wrong-typed entry goes with everything below it; nothing else changes |
| Replay.DescendRules | main.go:485-508 | descending onto an existing directory changes nothing; onto an absent name or a non-directory, it replaces that one entry with a new directory with the transmitted mode; it always ends in the named directory |
| Replay.SymlinkRules | main.go:699-713 | a link is made with the referent exactly when no link of that name exists; otherwise the state is unchanged and EEXIST is reported |
| Replay.FifoRules | main.go:532-543 | on Unix a FIFO with the mode and mtime is made exactly when none exists; on Windows creation fails after a wrong-typed entry is removed |
| Replay.SocketNeverMade | main_unix.go:22-23 | a socket message always fails, and it only ever removes entries |
| Replay.UnhandledAlwaysFail | main.go:151-159 | device messages, tags 0 and 1, and tags past 8 always fail without changing the state; unregistered tags fail with no handler |
| Replay.StepKeepsWellFormed | main.go:151-159 | every non-fatal step keeps the destination well formed: every entry sits inside a directory |
| Replay.RunKeepsWellFormed | main.go:167-171 | so does a whole replay |
| Decoder.LastError | main.go:167-183 | the error extraction returns is, when there is one, the last warning of a replay that was not stopped |
| Decoder.ExtractFromRun | main.go:167-183 | the driver loop's state, warnings, fatal failure and returned error are those of replaying the frames |
| Decoder.Extractor.Lstat | main.go:596 | reports the entry at the name, or none |
| Decoder.Extractor.RemoveAll | main.go:602 | the filesystem becomes recursive removal of the name |
| Decoder.Extractor.Remove | main.go:504 | the filesystem becomes non-recursive removal of the name |
| Decoder.Extractor.Mkdir | main.go:495 | a directory with the given mode appears at the name |
| Decoder.Extractor.Chdir | main.go:496 | the working directory moves one level down, staying inside directories |
| Decoder.Extractor.OpenFile | main.go:612 | an absent name becomes an empty file with every permission bit; an existing file is kept |
| Decoder.Extractor.Write | main.go:618 | the buffer is written at the start of the file and the full count is returned |
| Decoder.Extractor.TruncateFile | main.go:629 | the file is cut or padded to the count |
| Decoder.Extractor.Chmod | main.go:633 | the file gets the permission bits |
| Decoder.Extractor.Chtimes | main.go:640 | the entry gets the mtime |
| Decoder.Extractor.MakeSymlink | main.go:711 | the link is made exactly when the name is free |
| Decoder.Extractor.MakeFifo | main_unix.go:14-20 | on Unix a FIFO is made and its mtime set exactly when the name is free; on Windows it always fails |
| Decoder.Extractor.MakeSocket | main_unix.go:22-23 | always fails as not implemented |
| Decoder.Extractor.ClearWrongType | main.go:596-605 | a same-named entry of another type is removed recursively, and the prior entry is reported |
| Decoder.Extractor.DecodeFile | main.go:546-641 | does exactly what the file handler function describes, and is never fatal |
| Decoder.Extractor.WriteContents | main.go:612-640 | open, write, truncate to the count written, chmod and chtimes leave exactly a regular file with the contents, permission bits and mtime, and change nothing else |
| Decoder.Extractor.DecodeSymlink | main.go:678-724 | does exactly what the symlink handler function describes |
| Decoder.Extractor.DecodeFifo | main.go:512-544 | does exactly what the FIFO handler function describes |
| Decoder.Extractor.DecodeSocket | main.go:643-676 | does exactly what the socket handler function describes |
| Decoder.Extractor.DecodeDevice | main.go:447-456 | does exactly what the device handler function describes |
| Decoder.Extractor.DecodeDescend | main.go:477-510 | does exactly what the descend handler function describes; it either applies or ends the process with the state unchanged |
| Decoder.Extractor.DecodeAscend | main.go:458-475 | does exactly what the ascend handler function describes, and is never fatal |
| Decoder.Extractor.Handle | main.go:151-159 | the tag dispatch does exactly one step of the replay |
| Decoder.Extractor.Extract | main.go:167-183 | the new state, the warnings and the fatal failure are those of replaying the frames; without a fatal failure the error returned is that of the last message |
| Encoder.ChildTurn | main.go:245-247 | one turn of the children loop stays within the room |
| Encoder.TargetTurn | main.go:121-123 | one turn of the loop over the targets stays within the room |
| Encoder.ChildrenFromTranscript | main.go:244-248 | the children loop, from any child on, appends exactly the transcript of the children not yet visited |
| Encoder.CreateFromTranscript | main.go:120-124 | the loop over the targets, from any target on, appends exactly the transcript of the remaining targets |
| Encoder.Encoder.Compose | main.go:263 | the sink takes the frame exactly when it has room |
| Encoder.Encoder.EncodeFile | main.go:277-346 | emits exactly the file's transcript |
| Encoder.Encoder.EncodeSymlink | main.go:348-388 | emits exactly the link's transcript |
| Encoder.Encoder.EncodeSpecial | main.go:390-445 | emits exactly the FIFO's or socket's transcript |
| Encoder.Encoder.EncodeDescend | main.go:266-275 | the descend frame holds name and mode, and it is accepted exactly when there is room |
| Encoder.Encoder.EncodeAscend | main.go:258-264 | the ascend frame holds the mtime of the stat it is given, and it is accepted exactly when there is room |
| Encoder.Encoder.EncodeDirent | main.go:199-214 | the type dispatch emits exactly the entry's transcript |
| Encoder.Encoder.EncodeDirectory | main.go:220-256 | emits exactly the directory's transcript: descend, then the children, then the ascend; a refused ascend halts the pass |
| Encoder.Encoder.EncodeChild | main.go:245-247 | encodes one child and warns if it failed, as one loop turn describes |
| Encoder.Encoder.EncodeChildList | main.go:244-248 | the loop over the children does its turns in order until the list ends or the pass halts |
| Encoder.Encoder.EncodeChildren | main.go:244-248 | the children's frames and warnings are exactly their transcript |
| Encoder.Encoder.EncodeTarget | main.go:186-197 | an unresolvable target fails; otherwise the entry's transcript is emitted |
| Encoder.Encoder.EncodeTargetWarn | main.go:121-123 | encodes one target and warns if it failed, as one loop turn describes |
| Encoder.Encoder.EncodeTargets | main.go:120-124 | the loop over the targets does its turns in order until the list ends or the pass halts |
| Encoder.Encoder.Create | main.go:120-124 | the frames and warnings of the whole pass are exactly the create transcript |
| Nesting.DepthTracks | main.go:458-510 | along frames that never underflow, nothing is fatal, and the depth of the working directory is the start depth plus descends minus ascends |
| Nesting.BalancedReturns | main.go:167-171 | replaying balanced, decodable frames is never fatal and ends in the start directory |
| Nesting.NestedNeverFatal | main.go:167-171 | replaying decodable frames that never underflow is never fatal and stays at or below the start directory |
| Nesting.TranscriptSound | main.go:258-275 | every descend and ascend frame the encoder emits has a decodable payload |
| Nesting.ChildrenSound | main.go:244-248 | the same for a directory's children |
| Nesting.CreateSound | main.go:120-124 | the same for a whole pass |
| Nesting.EncodedPassReturns | main.go:120-124 | extracting whatever a pass emitted is never fatal, and unless the pass halted it ends in the start directory |
| RoundTrip.ImageUnder | main.go:199-214 | everything an entry leaves lies at or below its own path |
| RoundTrip.LeafStep | main.go:151-159 | the frame of a readable file, link, FIFO or socket, replayed where its name is free, adds exactly the entry's image |
| RoundTrip.FileStep | main.go:546-641 | the file frame, replayed where its name is free, makes the file with the contents, permission bits and mtime of the source |
| RoundTrip.SymlinkStep | main.go:678-724 | the link frame, replayed where its name is free, makes the link with the source's referent |
| RoundTrip.FifoStep | main.go:512-544 | the FIFO frame, replayed where its name is free, makes the FIFO on Unix and nothing on Windows |
| RoundTrip.ReplayImage | main.go:199-214 | replaying an entry's reference frames where its name is free adds exactly its image, is never fatal, and ends where it started |
| RoundTrip.DescendNew | main.go:487-496 | a descend onto a free name makes the directory and moves into it |
| RoundTrip.AscendUp | main.go:458-475 | the ascend sets the directory's mtime and moves back to its parent |
| RoundTrip.ReplayDirectory | main.go:220-256 | replaying a directory's reference frames adds the directory with its mode and stat mtime, plus its children's images |
| RoundTrip.ReplayChildren | main.go:244-248 | replaying the siblings' reference frames, with distinct names, adds the union of their images |
| RoundTrip.RoundTripIntoEmpty | main.go:199-256 | encoding a tree with distinct sibling names and room for every frame, then extracting into a destination holding only its start directory, is never fatal and leaves exactly the start directory plus the tree's image, back in the start directory |

## Left out

- Command-line handling is not modelled (main.go:40-149): flags, `--chdir`, opening and closing the archive file, flushing the composer, and debug and warning printing. A warning is an entry appended to a sequence; a fatal exit is a result that stops the pass.
- The byte framing and scalar encodings of the message library are external. A payload is the sequence of typed fields it was built from, plus the raw bytes after them. Reading a field past the end gives `Truncated`; a field of another kind gives `Malformed`.
- The scanner's own errors (a frame cut short in the stream, a read error) are not modelled. `Extract` returns the error of the last handled message.
- The dispatch table's reply to a tag with no handler belongs to the message library. It is modelled as the failure `NoHandler(tag)`, which the driver warns about like any other.
- xxHash64 is the parameter `hash`, and directory listing and entry classification are the input tree. Child order is whatever the listing gives; sorting in debug mode is not modelled.
- RoundTrip.RoundTripIntoEmpty: assumes no permission check refuses an operation, as for a user who may create, enter and write anything. The source creates each directory with the transmitted mode before writing its children (main.go:495), and the ascend never loosens or tightens it (main.go:458-475). So for an unprivileged user, a source directory without owner write permission (0555, say) makes every child's create fail with a warning, leaving entries missing. A directory without owner search permission (0644, say) makes the chdir at main.go:496 fatal.
- Encoder warnings record the failing entry and the error, abstracted: the subject of a child's warning is its name, where the source prints the joined path (main.go:246); a target's is the resolved entry's name, or the path for a target that cannot be resolved, where the source always prints the argument (main.go:122). The wrapped message text is not modelled.
- Operating-system faults are not modelled: I/O errors, permission errors, a vanished entry between listing and stat, and a failing chdir or chtimes. The only failing system calls are the deterministic ones: creating a link or FIFO over an existing one, and the platform stubs.
- The umask is not modelled, and neither are the permission bits that `OpenFile` and `Mkdir` pass beyond what the model records. A directory keeps the mode it was created with.
- Replay.DecodeDescend, Replay.DecodeFifo, RoundTrip.Image: directories and FIFOs record the raw transmitted mode, Go's file-type bits included. `os.Mkdir` and `Mkfifo` keep only the permission, setuid, setgid and sticky bits. Regular files do get only their permission bits (`mode % 512`), as `Chmod` with `Perm()` gives them.
- Replay.DecodeAscend, Replay.AscendMoves, Decoder.Extractor.DecodeAscend: an ascend at the start directory moves the source's process to the start directory's parent, so entries named by later messages land outside the destination. The model keeps the position at the start directory instead, because it does not represent anything above it. The encoder never emits such an ascend: every transcript it produces nests.
- Changes to a parent directory's mtime when entries are created in it are not modelled. Only the explicit `Chtimes` calls set mtimes, which is why the ascend frame's mtime is the one the round trip reproduces.
- Names are opaque path components. `.` and `..`, separators inside a name, and absolute referents are not interpreted.
- The sink is modelled as accepting a fixed number of frames. It has no byte-level buffering or partial writes.
- Sizes are unbounded naturals. A declared size of 2^63 or more, which makes the source's buffer growth panic, is not modelled.
- Decoder.Extractor.WriteContents: the source's check for a write shorter than `size` cannot fire in the model, because a write always takes every byte it is given.
- The Windows platform file calls `errors.Errorf` through the standard `errors` package, which has no such function. The model gives its creators the evident behaviour: they always fail.
- The commented-out symlink metadata code and the unused `chmod` helper are not modelled.
