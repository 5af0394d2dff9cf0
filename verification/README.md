# 9P in Dafny: the codec, the session, and the namespace

A model of a 9P2000 library written in Go: its wire codec (9P2000 and 9P2000.u), its client and
server, and a Plan 9 style namespace of binds, unions, clones and read-only views over the filesystems
the library serves. The message formats and their meaning are those of section 5 of the Plan 9
Programmer's Manual: intro(5), walk(5), flush(5), read(5), stat(5) and version(5).

Code that updates state is modelled as methods that update state (arrays patched in place, objects with
fields, loops), each proved equal to a function of its inputs or of the old state; what the library
promises is then proved about those functions. Running `dafny verify dfyconfig.toml` checks everything.

## The parts

**Codec.** `Bytes` and `Layout` describe message bodies as sequences of fields, with encoding and parsing
proved inverse in both directions once for all layouts. `Messages` gives the 27 messages, `Encoder` and
`Decoder` the library's buffer-appending encoder and its sticky-error decoder, `RoundTrip` the
theorems, `Framing` the reading of frames off a stream.

**Directories and files on the wire.** `DirPaging` is whole-entry paging by byte offset and both loops
that read it back; `DevStamp` is the in-place patching of encoded entries. `FileData` says what reading
and writing at an offset mean, `FileIO` is the client's chunked reads and writes over it, `Fids` the
server's fid table with the client's batched walk, `Negotiation` the version handshake.

**Session.** `Tags` is tag allocation and `Mux` the client's table of waiting calls, with its channels.
`Session` is one connection as a step system: each lock-protected section, each frame read or written
and each channel operation is one action, a run is any interleaving, and what follows an unlock (the
send in `deliver`, the closes in `closeAll`) is an action of its own. Two pairs are taken together: the
server cancels a flushed request in the action that writes the Rflush, and the client's reader takes a
frame in the action that looks its tag up. A cancelled handler may answer at any later time here, and
only the reader takes frames, so every order of frames the code can produce is that of such a run.
`SessionSafety` has what each step keeps, `SessionRuns` the theorems over whole runs, `SessionWrap` the
runs that break the two that need a hypothesis, and the exact condition for a call to be misled.

**Namespace.** `BindGraph` is the bind tree as a value, with walking, listing and stating; `UnionListing`,
`Resolving`, `Acyclic`, `Remap`, `Hiding` and `Replay` prove the theorems about it; `Namespaces`, `Cloning`
and `BindList` are the heap objects and their methods, proved equal to it. `Changes` is what each operation
makes of a namespace, as a relation between its states, and `Independence` the use of a namespace and its
clone side by side. `Names` and `Paths` are path
elements and path text. `MemTree` is the in-memory filesystem and `Wrappers` its files seen through the
read-only and subtree wrappers.

## Points where code and description differ

The model follows the code in each case.

- A layer bound from a path holds the live node, so later binds at that node show through it
  (ns/clone.go:26-30), although ns/ns.go:48-50 speaks of the state at bind time.
- `remapFile` does not look inside an nsFile that has left the tree (ns/clone.go:107-116). Binding a path
  that was reached through another path bind can put a tree node there, and a clone then still leads into
  the original, although ns/clone.go:15-17 promises independence. `Independence.TwoPathBindsHide` is how
  that comes about, `Cloning.Clone` and `Hiding.UndisturbedIffNoneHidden` state exactly when it matters.
- Binding a path onto itself, or onto something its layers lead to, makes a cycle on which a walk to a
  missing name does not end (ns/file.go:107-120). `Acyclic` states exactly when a bind does that, and that
  every walk ends exactly when there is no cycle. Methods that walk take ranks witnessing that there is
  none; the ranks are ghost, and `Remap.RanksDoNotShow` has that no answer depends on them.
- Nothing stops a bind at a path with an element `..`; the directory is then listed and cannot be walked
  to. `UnionListing.ListingMatchesWalk` is an equivalence for that reason.
- A flush is answered at once and the flushed request's reply may follow (server/dispatch.go:65-73), so a
  call can return a stale reply after a full cycle of the tag counter (`SessionWrap.MismatchReachable`);
  flush(5) is stricter.
- `forget` removes whatever is under the tag (client/mux.go:65-69). A cancelled call whose tag was answered
  and, a full cycle later, allocated again removes the other call's entry, and that call waits for ever,
  `closeAll` included (`SessionWrap.LostCallReachable`), although client/mux.go:86-87 says that fails every
  outstanding call.
- A partial walk moves newfid (server/dispatch.go:98-112); walk(5) says it does not.
- The probe for a tag tries 65535 of the 65536 values, one of which is NoTag, so one usable tag may go
  untried (`Tags.SucceedsIff`).
- `Read` with an empty buffer reports end of file (client/file.go:246-248).
- A file created through a served subtree is not wrapped as one of the subtree (ns/subtree.go:63-66),
  unlike the files walked to, although ns/subtree.go:13-14 says nothing outside is reachable
  (`Wrappers.CreatedLeavesIff`).

## Model

| member | source | states |
|---|---|---|
| `Encoding.Encoder.MarshalBody` | fcall.go:177-534 | appends exactly the layout of the message's fields, for every message type and both dialects |
| `Encoding.MarshalVersion` | framing.go:55-67 | the frame built and then patched in place is the size, type and tag header followed by the message's fields, its size field counting the whole frame |
| `Encoding.PutSize` | framing.go:62-66 | patches the four size bytes of the array and no others |
| `Encoding.MarshalStat` | stat.go:41-48 | a standalone Stat is its size-prefixed group of fields |
| `Decoding.Decoder.TakeBytes` | decode.go:18-29 | takes exactly n bytes off the front, or sets the sticky error and takes nothing |
| `Decoding.Decoder.Integer` | decode.go:31-61 | reads a little-endian integer of the width, or fails stickily |
| `Decoding.Decoder.String` | decode.go:75-82 | reads a length-prefixed string by the layout, or fails stickily |
| `Decoding.Decoder.Done` | decode.go:95-103 | reports the first error met, or trailing bytes if anything is left over |
| `Decoding.Decoder.GetStat` | stat.go:96-122 | reads a nested, size-prefixed Stat through a decoder of its own, and accepts exactly what the layout accepts |
| `Decoding.UnmarshalVersion` | framing.go:79-99 | the stateful decoder returns exactly what the layout's parser returns on every byte string, accepted or refused |
| `Decoding.UnmarshalStatVersion` | stat.go:58-65 | likewise for a standalone Stat |
| `Layout.ParseEncode` | encode.go:12-57 | whatever fits the wire parses back from its encoding, leaving the bytes that follow |
| `Layout.EncodeParse` | decode.go:12-103 | whatever parses is the encoding of what was parsed, followed by the rest; so no two byte strings stand for the same fields |
| `RoundTrip.DecodeAfterEncode` | framing.go:55-99 | every well-formed message of all 27 types, plain or .u, under any tag, decodes from its frame to itself and that tag |
| `RoundTrip.EncodeAfterDecode` | framing.go:79-99 | every accepted frame decodes to a well-formed message that re-encodes to the same bytes |
| `RoundTrip.SurvivesIffWellFormed` | encode.go:45-51 | a message survives encoding and decoding exactly when it is well formed: no string, Stat, list or data too long for its length field, and no .u field set on a plain connection |
| `RoundTrip.StatRoundTrip` | stat.go:67-122 | a Stat's fields build back the Stat, but for the fields only .u carries on a plain connection |
| `RoundTrip.PlainStatSize` | stat.go:73-94 | the body of a plain Stat takes 47 bytes plus its four strings, when they fit |
| `RoundTrip.UnixStatSize` | stat.go:73-94 | the body of a .u Stat takes 61 bytes plus its five strings, when they fit |
| `RoundTrip.FrameSize` | framing.go:55-67 | a well-formed message's frame fits the 32-bit size field |
| `Framing.Stream.ReadMessage` | framing.go:20-38 | takes one whole frame off the stream if its size is at least 7 and at most msize, and reports end of stream, truncation or oversize otherwise |
| `Framing.Stream.ReadLoop` | client/client.go:147-161 | reading until an error delivers exactly the messages that the stream holds up to the first bad or missing frame |
| `Framing.StreamRoundTrip` | framing.go:20-99 | any sequence of sendable messages within msize, concatenated and followed by anything, is read back in order before what follows |
| `Framing.WholeStream` | framing.go:20-99 | on exactly those frames the reader gets exactly those messages and then a clean end of stream |
| `Framing.OversizeStops` | framing.go:28-31 | a frame larger than msize ends the reading with an error after what came before it |
| `DirPaging.MarshalDir` | server/dir.go:50-86 | the buffer-filling loop serves the page that dropping whole entries up to the offset and taking whole entries that fit describes, and writes nothing else |
| `DirPaging.PageAtBoundary` | server/dir.go:56-73 | at an entry boundary the page is that of the remaining entries from offset zero |
| `DirPaging.OffBoundaryRefused` | server/dir.go:56-73 | an offset that is no boundary is refused, whatever the room |
| `DirPaging.EntriesRoundTrip` | ns/file.go:277-296 | concatenated entries whose carried fields fit the wire are cut and decoded to the same list, a plain connection dropping the fields only .u has |
| `DirPaging.ReadDir` | client/file.go:349-387 | for any entries and any sequence of read sizes: the entries in order, as the dialect carries them; the first read is at zero and each next one right after the entries the last one gave, at an entry boundary, until one gives none; at most one read more than there are entries; it stops early only at an entry larger than the last read asked for |
| `DirPaging.ReadDirConstant` | client/file.go:349-387 | with one read size the whole listing comes back exactly when every entry fits in one read |
| `DirPaging.ReadDirEntries` | ns/file.go:257-297 | the namespace's reader returns every entry, as the dialect carries it, exactly when each fits its 8192-byte buffer, and nothing otherwise |
| `DevStamp.SetDirDev` | ns/dev.go:48-58 | patches the dev of every whole entry of a buffer in place, and leaves a trailing partial entry and everything after it alone |
| `DevStamp.StampedBlob` | ns/dev.go:48-58 | patching an encoded entry is encoding the entry with that dev, in both dialects |
| `DevStamp.StampedListing` | ns/dev.go:48-58 | patching a run of entries with an incomplete tail is encoding the stamped entries before the same tail |
| `DevStamp.StampedPage` | ns/file.go:180-193 | stamping any page of a listing, at any offset and room, is paging the stamped listing, refusals included |
| `Tags.ProbeFindsFirst` | client/mux.go:33-46 | the probe finds the first usable tag at or after the counter among the next 65535 values, and fails only if there is none |
| `Tags.SucceedsIff` | client/mux.go:33-46 | allocation succeeds exactly when some usable tag is free besides the one value the 65535 probes leave out |
| `Tags.TwoFreeTagsSuffice` | client/mux.go:33-46 | two free usable tags are enough, wherever the counter is |
| `Tags.FailureMeansFull` | client/mux.go:33-46 | one failure means at least 65534 tags pending; a second one after it, with no change between, means all 65535 |
| `Mux.CallMux.Register` | client/mux.go:27-47 | returns the first free tag other than NoTag with a fresh channel and leaves the counter just behind it; refuses when closed or when the probes find none |
| `Mux.CallMux.RegisterTag` | client/mux.go:51-63 | reserves the given tag unless it is in use or the mux is closed |
| `Mux.CallMux.Forget` | client/mux.go:65-69 | removes one tag and touches no channel |
| `Mux.CallMux.Deliver` | client/mux.go:74-84 | sends the message to the one channel waiting on the tag, open and empty at the time, and to no other; drops it if none waits |
| `Mux.CallMux.CloseAll` | client/mux.go:88-102 | closes every waiting channel once, empties the table and keeps the first error; a second call does nothing |
| `SessionRuns.RunsAreSound` | server/conn.go:119-185 | over every interleaving: a request is in one place at a time, no send on a reply channel blocks or hits a closed channel and none is closed twice, semaphore tokens equal the handlers holding a slot and stay within the limit, and only started handlers reach the backend or answer |
| `SessionRuns.RepliesMatch` | client/client.go:166-212 | in every interleaving with cancellations a call that returns a message returns the reply to its own request, provided no tag was allocated while an abandoned request of the same tag was still owed a reply |
| `SessionRuns.RepliesMatchWithinACycle` | client/mux.go:33-46 | so it does as long as the counter never goes a full cycle while an abandoned request's reply is owed |
| `SessionRuns.RepliesMatchWithoutCancel` | client/client.go:166-196 | with no cancellation the same holds with no hypothesis |
| `SessionRuns.FreshWithoutCancel` | client/mux.go:27-84 | without cancellation every allocated tag is fresh |
| `SessionSafety.FreshWithinACycle` | client/mux.go:33-46 | tags are fresh as long as the counter has not gone a full cycle since any abandoned request still owed a reply |
| `SessionWrap.MisledIffStale` | client/mux.go:74-84 | in every reachable state, the call about to be registered can end by returning another call's reply exactly when the tag it is given is one an abandoned request is still owed a reply under |
| `SessionWrap.StaleTagMisleads` | client/mux.go:74-84 | the way there: from any such state the new call goes on to return another call's reply |
| `SessionWrap.MismatchReachable` | server/dispatch.go:65-73 | a run from the start in which a call returns another call's reply: a flush answered before the flushed request, then a full cycle of the counter |
| `SessionRuns.NeverLostIffOwnForgets` | client/mux.go:65-69 | at every point of a run each waiting call is still expected by the table, the reader or the closer, exactly when no step of the run removes from the table a tag that another call holds |
| `SessionSafety.ForeignForgetLoses` | client/mux.go:65-69 | a step that removes another call's tag leaves that call waiting for what no one will send |
| `SessionSafety.LostStaysLost` | client/mux.go:88-102 | and so it stays under every step, closing the connection included, until that call gives up itself |
| `SessionWrap.LostCallReachable` | client/client.go:178-186 | such a run from the start, every call but the first served and answered: a cancelled call whose tag was answered and allocated again removes the tag, and the call that holds it still waits after the connection is closed and its closer and reader are done |
| `SessionRuns.OwnForgetsWithoutCancel` | client/client.go:178-196 | no run without cancellation removes another call's tag |
| `SessionRuns.OwnForgetsWithinACycle` | client/mux.go:33-46 | nor does any run in which no call outlives a full cycle of the counter |
| `SessionRuns.ClosedMeansAnswered` | client/mux.go:88-102 | once closed, with the closer and the reader done, the table is empty and no tag can be registered; and no call is left waiting on an empty channel if no step removed another call's tag |
| `SessionRuns.ClosedForGood` | client/mux.go:88-102 | a closed client stays closed and empty under every step |
| `SessionSafety.SettledForGood` | client/client.go:166-186 | a reply channel once filled or closed stays as it is under every step: no second message, no later close |
| `SessionSafety.StepSlotsCounted` | server/conn.go:148-183 | every step keeps the semaphore equal to the handlers holding a slot, so each slot is given back once |
| `SessionRuns.FlushNeverWaits` | server/conn.go:153-156 | in every reachable state, however full the server, a Tflush that has arrived can be started, answered and finished at once, and no slot changes hands |
| `SessionSafety.DroppedForGood` | server/conn.go:157-167 | a request cancelled before it got a slot is never run and never answered |
| `Negotiation.ServerConn.Version` | server/conn.go:189-205 | clears the fid table, takes the smaller message size and the dialect asked for if known, and answers accordingly |
| `Negotiation.Negotiate` | client/client.go:91-127 | the loop settles what one question and at most one plain retry settle, asking just those |
| `Negotiation.SettledWithinBoth` | client/client.go:105-126 | with any server: .u only if asked for and agreed, and a message size within both limits |
| `Negotiation.BothEndsAgree` | client/client.go:91-127 | with this repository's server it always settles, on the terms that server holds after the last question |
| `Negotiation.Handshake` | server/conn.go:189-205 | run against a server connection, whatever is asked for: the client's terms are the connection's stored terms, of the smaller size and of .u exactly when asked for, and its fid table is empty |
| `Fids.ReachedInBatches` | client/fid.go:36-51 | walking in two batches, the second from where the first ended, reaches what walking all at once does |
| `Fids.ReachedAll` | server/dispatch.go:98-112 | a walk succeeds element by element exactly when every element is reached, and ends at the last |
| `Fids.Conn.Walk` | server/dispatch.go:80-113 | no element resolving is an error and moves no fid; otherwise newfid goes to the last file reached, even on a short walk, and the reply has one qid for each; no names clones |
| `Fids.Conn.Create` | server/dispatch.go:127-150 | repositions the one fid in place and no other |
| `Fids.Conn.Clunk` | server/dispatch.go:177-189 | releases the fid even if closing fails; an unknown fid is no error |
| `Fids.Conn.Remove` | server/dispatch.go:191-205 | releases the fid even if removal fails; an unknown fid is an error |
| `Fids.Conn.Attach` | server/dispatch.go:56-63 | puts the root under the fid, or changes nothing |
| `Fids.WalkFid` | client/fid.go:25-53 | a walk of any length succeeds exactly when the element-by-element walk does; then the table is the old one plus newfid at that walk's end; on any failure it is the old table if newfid was free; the error names the first element that fails, unless it leads a batch of 16, when it is the server's |
| `Fids.WalkBatch` | client/fid.go:36-51 | one batch: forward, or stopped with newfid released |
| `FileData.WrittenAt` | examples/memfs/memfs.go:256-270 | a write byte by byte: the data where it was put, zeros between the old end and it, the old bytes elsewhere |
| `FileData.WriteInPieces` | examples/memfs/memfs.go:256-295 | writing two pieces one after the other is writing them together |
| `FileData.ReadInPieces` | examples/memfs/memfs.go:212-223 | reading on after a full piece gives the rest; a short piece is all there is |
| `FileData.ReadAfterWrite` | examples/memfs/memfs.go:212-270 | a read of the written range gives the data; one wholly before it is unchanged |
| `FileIO.FrameSizes` | fcall.go:411-461 | Tread is 23 bytes, Rread 11 plus its data, Twrite 23 plus its data, under any tag and dialect |
| `FileIO.ClientFile.ReadAt` | client/file.go:154-180 | the message-by-message loop fills the buffer with exactly the slice of the file, reports end of file exactly when short, and has sent and got just the messages of consecutive chunks, up to a short reply; with msize of 24 or more none is a frame over msize |
| `FileIO.ClientFile.RepliesCarryAll` | client/file.go:154-180 | those replies carry the slice asked for and nothing else |
| `FileIO.ClientFile.WriteAt` | client/file.go:182-207 | the loop leaves the file as one zero-filling write would, one version on for each message, and has sent just the messages of consecutive chunks, within the same frame bound |
| `FileIO.ClientFile.WritesCarryAll` | client/file.go:182-207 | those messages carry the data between them, none is empty and all but the last are full |
| `FileIO.ClientFile.Read` | client/file.go:222-250 | one message and its reply at the offset, which moves past what was read; end of file when nothing was read, which an empty buffer also gives |
| `FileIO.ClientFile.Write` | client/file.go:254-265 | writes at the offset and moves past it |
| `FileIO.ClientFile.Seek` | client/file.go:269-293 | moves the offset relative to start, offset or file length; refuses to go negative and then does not move |
| `FileIO.WritePieces` | client/file.go:254-265 | any pieces written in turn through the offset leave what one write of them all would |
| `MemTree.MemNode.Read` | examples/memfs/memfs.go:212-223 | the slice at the offset, nothing past the end |
| `MemTree.MemNode.Write` | examples/memfs/memfs.go:256-270 | grows with zeros, overwrites in place and goes on to the next version; refused on a directory |
| `MemTree.MemNode.Open` | examples/memfs/memfs.go:160-175 | refused on a symlink; truncation empties a regular file and goes on to its next version |
| `MemTree.FS.Create` | examples/memfs/memfs.go:177-191 | adds a fresh, empty child with its parent link, a directory as the mode asks and with the mode's permission bits only, or changes nothing if the name is taken or there is no directory |
| `MemTree.FS.WStat` | examples/memfs/memfs.go:114-138 | renames in the same directory, changes permissions, resizes and then goes on to the next version, each only if asked; a refused rename refuses everything |
| `MemTree.FS.Remove` | examples/memfs/memfs.go:272-284 | unlinks a node that is not the root and not a directory with children; tree shape is kept |
| `Wrappers.Do` | ns/rofile.go:22-66 | every operation through any stack of wrappers does to the file below what it would directly, or, behind a read-only wrapper, changes nothing, refuses every change and hands back only read-only files |
| `Wrappers.RunReadOnly` | ns/rofile.go:22-66 | no sequence of operations on files obtained through a read-only wrapper changes anything in the filesystem |
| `Wrappers.WalkStaysConfined` | ns/subtree.go:68-84 | every walk inside a served subtree, '..' included, stays at or below its root with depth the number of parent links up to it |
| `Wrappers.ConfinedStep` | ns/subtree.go:63-92 | one step of a session, inside the subtree or by others anywhere: the files held in the subtree gain just what was walked or cloned to, which is in the subtree, and what is created through it goes to the others |
| `Wrappers.RunConfined` | ns/subtree.go:63-92 | so after any session every file held in the subtree is still in it |
| `Wrappers.CreatedLeavesIff` | ns/subtree.go:63-66 | what a create in a served subtree hands back can be walked from to a file not below the subtree's root exactly when it is a directory and that root is not the filesystem's |
| `Wrappers.BareWalk` | examples/memfs/memfs.go:140-158 | under nsFile and read-only wrappers a walk moves as the file below does |
| `Paths.SplitPathIsCanonical` | ns/ns.go:164-170 | splitting gives elements without slashes, only inner ones empty |
| `Paths.SplitUndoesPrinting` | ns/binds.go:57-71 | splitting a printed path gives the path back exactly for the paths splitting can give |
| `Names.SortStrings` | ns/file.go:216-220 | the names in ascending byte order, each once |
| `UnionListing.ListingMatchesWalk` | ns/file.go:207-250 | over consistent filesystems, through nested path binds, wrappers and unions, every node's listing has no repeated name, lists a name exactly when walking to it succeeds, with the qid and dev of the file the walk returns, if and only if no node has a child named '..' |
| `UnionListing.AgreesHere` | ns/file.go:180-250 | the same for every file of the namespace, given no such child |
| `UnionListing.DotDotDisagrees` | ns/file.go:95-97 | a tree child named '..' is listed and cannot be walked to |
| `UnionListing.AddNewFacts` | ns/file.go:236-245 | merging a layer keeps what is there, adds exactly the new names, and repeats none |
| `BindGraph.CreatedIsWalkedTo` | ns/file.go:134-157 | a create goes through the first layer of each bind point on the way, and never through a read-only wrapper; once the directory it goes to has the file, walking to the name gives just what the create handed back exactly when nothing of the tree on the way hides it |
| `BindGraph.WalkStaysGuarded` | ns/rofile.go:26-35 | a walk on from a file behind a read-only wrapper stays behind one, through tree nodes and their layers as well; so does what a layer with such a root serves |
| `BindGraph.PathStaysGuarded` | ns/rofile.go:26-35 | the same for a whole path |
| `Namespaces.Namespace.ReadOnlyLayersGuard` | ns/rofile.go:13-35 | in any namespace, whatever a layer bound read-only serves, and all that is walked to from there, is behind a read-only wrapper, a bound tree directory included |
| `Resolving.ResolveIsWalk` | ns/binds.go:133-203 | Resolve succeeds exactly when walking element by element does, and its kind, bind point, layer, inner path, read-only mark and dev are those of the file that walk returns: the first layer with the next element, and no other for the rest |
| `Resolving.RealWalk` | ns/file.go:87-94 | past the tree a walk stays in one layer and keeps its stamp |
| `Acyclic.BindAtKeepsAcyclic` | ns/ns.go:241-266 | binding at a path keeps the layers acyclic exactly when its node is new or not layer-reachable from what is bound |
| `Acyclic.BindKeepsAcyclic` | ns/ns.go:309-323 | the same for layers spliced in at an existing node, for each disposition, with ranks exhibited |
| `Acyclic.FilesystemsReachNothing` | ns/ns.go:222-230 | a bound filesystem leads to no node, so binding one never makes a cycle |
| `Acyclic.SelfBindIsCyclic` | ns/ns.go:241-266 | binding a path onto itself leaves no possible ranking |
| `Acyclic.UnbindKeepsAcyclic` | ns/ns.go:274-290 | unbinding keeps any ranking |
| `Acyclic.GrowthKeepsAcyclic` | ns/ns.go:178-194 | making the nodes of a path keeps any ranking |
| `Acyclic.RankedWalksEnd` | ns/file.go:87-125 | with ranks every walk ends, within as many layer edges as the file's rank, at the same answer |
| `Acyclic.WalksEndIffRanked` | ns/file.go:87-125 | every walk ends, whatever the filesystems hold, exactly when the tree has ranks |
| `Acyclic.LoopingWalkNeverEnds` | ns/file.go:107-120 | where each node of a set has some layer, first or later, leading back into the set before the name is found, and no such child, the walk to the name never ends |
| `Remap.RemapMoves` | ns/clone.go:107-121 | remapFile reaches the tree node of exactly the files that do not hide it behind an nsFile that left the tree |
| `Remap.CopyIsClosed` | ns/clone.go:39-121 | the copy leads only to its own nodes exactly when no layer hides a node |
| `Remap.CopyIsRanked` | ns/clone.go:39-121 | a clone of an acyclic tree is acyclic |
| `Remap.WalkMoves` | ns/clone.go:39-121 | walking in the copy gives the copy of what walking in the original gives |
| `Remap.ListMoves` | ns/clone.go:39-121 | listing in the copy gives the same entries |
| `Remap.ResolveMoves` | ns/binds.go:133-203 | every path resolves in a copy to what it resolves to in the original |
| `Remap.RanksDoNotShow` | ns/file.go:87-250 | walks, listings, stats and resolutions are the same under any ranks |
| `Hiding.UndisturbedIffNoneHidden` | ns/clone.go:107-121 | binding a filesystem anywhere in the original leaves every walk of the copy as it was, for all binds and walks, exactly when no layer of the original hides a node |
| `Hiding.HiddenLeaks` | ns/clone.go:107-116 | where one does, a name given to the hidden node by a bind in the original appears in the copy |
| `Namespaces.Layer.GetRoot` | ns/ns.go:74-95 | attaches and walks on first use, wraps if read-only, keeps a success and not a failure; the answer is the same either way |
| `Namespaces.Node.AddLayers` | ns/ns.go:309-323 | replaces, prepends or appends in order; an unknown disposition changes nothing |
| `Namespaces.Namespace.EnsureNode` | ns/ns.go:178-194 | returns the node at the path, having made exactly the missing nodes of it |
| `Namespaces.Namespace.FindNode` | ns/ns.go:295-307 | finds the node at a path if and only if there is one, and makes none |
| `Namespaces.Namespace.BindFS` | ns/ns.go:222-230 | makes the path's nodes, numbers one new layer and splices it in there; nothing else changes; an unknown disposition still takes a number |
| `Namespaces.Namespace.BindPath` | ns/ns.go:241-266 | all sources are walked before anything changes; if one is missing the tree is as it was; otherwise one layer for each, in order, holding what the walk returned |
| `Namespaces.Namespace.Capture` | ns/ns.go:246-259 | one numbered layer for each source found, up to the first that is not |
| `Namespaces.Namespace.Unbind` | ns/ns.go:274-290 | clears the layers at exactly that path; an error, changing nothing, if there are none |
| `Namespaces.Namespace.Walk` | ns/file.go:87-125 | the loop over children and layers returns what the walk on the tree as a value is; resolving layers on the way changes no answer |
| `Namespaces.Namespace.WalkAll` | ns/ns.go:325-334 | element by element, stopping at the first failure |
| `Namespaces.Namespace.ListLocalDir` | ns/file.go:207-250 | the merge with its seen set lists the union as the value does, skipping failed layers unless all failed and there is no child |
| `Namespaces.Namespace.ListLayer` | ns/ns.go:101-120 | one layer's entries read through the buffer and stamped with its dev |
| `Namespaces.Namespace.ListFile` | ns/file.go:180-193 | any file's entries, stamped on the way through an nsFile |
| `Namespaces.Namespace.StatFile` | ns/file.go:69-78 | a stat with dev stamped and write bits masked on the way out |
| `Namespaces.Namespace.Resolve` | ns/binds.go:133-203 | the loop returns the resolution of the tree as a value |
| `Cloning.CloneNode` | ns/clone.go:74-87 | copies every node at and below one to a fresh node of the same shape, each to its own |
| `Cloning.CloneLayer` | ns/clone.go:89-101 | a fresh layer with the same labels, number and mark, its resolved file remapped |
| `Cloning.Fix` | ns/clone.go:48-61 | gives every copied node fresh layers, one for each of the original's, in order |
| `Cloning.Clone` | ns/clone.go:39-68 | the clone shares no node and no layer, is isomorphic path for path, and is a namespace of its own exactly when no layer hides a tree node |
| `Cloning.CloneAnswers` | ns/clone.go:17-38 | a fresh clone gives every walk, listing, stat and resolution as the original does |
| `Independence.Do` | ns/ns.go:218-290 | each operation - a bind of a filesystem or of paths, an unbind, a request for a path - has its whole effect on the namespace and its answer stated: which nodes are made, where which layers go, which numbers they take, and that nothing else changes but what layers have resolved |
| `Changes.DoesToTable` | ns/binds.go:36-85 | and so on the list of binds: layers spliced in at the path, the path gone, or no change |
| `Independence.Apply` | ns/clone.go:15-38 | with two namespaces that have nothing in common an operation has that effect on its own one, and leaves the other's tree, layers and list of binds as they were; they still have nothing in common |
| `Independence.Run` | ns/clone.go:15-38 | over any interleaving of any number of operations on the two, what each becomes, and what its callers are told, is what its own operations alone give, in order, from where it started |
| `Independence.CloneAndRun` | ns/clone.go:15-68 | from a fresh clone of a namespace that hides nothing: it starts as the original node for node and layer for layer over its own nodes, with the same list of binds, and from then on the same holds of the two |
| `Independence.TwoPathBindsHide` | ns/ns.go:241-266 | how something comes to be hidden: a directory bound at a new path, then a child of it, reached through that path, bound anywhere new |
| `BindList.Collect` | ns/binds.go:43-69 | one point for each node with layers at and below a node, each once |
| `BindList.SortByFirst` | ns/binds.go:72 | the same points in order of first bind, those first bound at the same time in the order they came |
| `BindList.Binds` | ns/binds.go:36-85 | every path with layers once, in order of first bind, its layers in union order, printed line by line |
| `BindList.Rebuild` | ns/binds.go:31-35 | binding the lines in turn into a new namespace builds the table that replaying them describes |
| `BindList.ListAndRebuild` | ns/binds.go:31-85 | listing, replaying into an empty namespace and listing again: the same labels and read-only marks at every path, the same list up to dev |
| `Replay.ReplayRestores` | ns/binds.go:31-35 | the list replayed from the top puts the same labels and marks, in order, at every path |
| `Replay.ReplayedListsTheSame` | ns/binds.go:31-85 | any listing of the rebuilt table is the list replayed, but for dev |

## Left out

- Sockets, `Dial`, `Serve` and partial writes: a connection is two first-in first-out sequences of frames.
- The transport failing in the middle of a batched walk or a chunked transfer; `Session` covers failing connections for single calls.
- The version handshake as part of the session: `Session` starts after it, `Negotiation` has it alone.
- examples/dirfs and ns/hostpath.go, which call the operating system, and ns/fid.go, which forwards calls over the client.
- ns/bindlog.go, `String` methods, error texts, authentication, `hashPath` (any function of the path) and the log a clone carries over.
- `unstampedFile` (ns/dev.go:64-114): stamping with zero, on which `DevStamp` already says what there is to say.
- 9P2000.u symlink creation beyond its codec fields, and atime and mtime.
- Filesystems that hold a namespace (`NamespaceBound`, ns/clone.go:11-13), and a namespace bound into itself as a filesystem: a bound filesystem leads to no tree node here.
- Filesystems that change while one walk, listing or resolution runs: each sees them in one state, and any state at all.
- The user name passed to `Attach`, and sequence numbers past 2^64.
- File offsets that overflow 64 bits, and sizes that do not fit the machine's int: preconditions of the methods concerned.
- Removing or renaming a node of the in-memory filesystem that was already removed: a precondition there.
- DirPaging.ReadDirEntries: assumes entries whose fields, those the dialect carries, fit the wire; one with an over-long string is encoded cut short and the decoder's view of it is not modelled, and in a union such a layer counts as failed.
- Wrappers.RunConfined: says of the files held at the end that they are in the subtree; which files those are is stated step by step by `Wrappers.ConfinedStep`. It covers subtrees served from inside a bound filesystem; one rooted at a node of the bind tree meets `..` refusals of the tree instead.
- `subtreeFS.Attach` (ns/subtree.go:35-61): it walks to the served path, checks that it is a directory and wraps it; `Wrappers.RunConfined` starts from what it returns.
- Independence.Run: new nodes are known by their paths and not by name, and a layer a request went through may or may not have kept what it resolved to. It leaves out path binds that would close a cycle, which `Independence.GraftPathSafely` finds by the condition of `Acyclic.BindAtKeepsAcyclic`; the code binds there too, and some walk then never ends.
- BindList.Rebuild: binds every line as a filesystem carrying the line's label; that a line's source can itself be resolved at that moment is not claimed, since rebinding a source with replace breaks it.
