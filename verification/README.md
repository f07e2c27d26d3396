# vdsm-rs: a verified model of its cores

vdsm-rs is a Rust rewrite of oVirt's host agent. Most of it starts other programs; what it computes by
itself sits in a few cores. This project models those cores in Dafny 4.11 and proves what they are for,
over all inputs, all runs and all interleavings. `dafny verify dfyconfig.toml` checks everything.

| files | what they hold |
|---|---|
| `Prelude`, `Bytes`, `Utf8`, `Numerals` | options; bytes, UTF-8 validity (section 4 of RFC 3629) and its meaning in code points, decimal numerals |
| `Stomp`, `StompLoops`, `StompProofs`, `StompGrammar` | the STOMP 1.2 codec: specification functions, the source's loops proved to compute them, whole-input theorems, and the wire format said without the parser |
| `Server`, `ServerProofs`, `Sessions`, `Connections` | one STOMP connection: the state machine, theorems over every run, all it replies from the bytes it received, the mutable handler proved to refine it |
| `CivilDate`, `Timestamp` | seconds to civil date and to fixed-width text |
| `YamlLoader`, `Loaders` | the schema compiler's two-stack event loader |
| `AnchorPass`, `Identifiers`, `Codegen` | the schema compiler's text pass, name normalisers and deduplicating emitters |
| `BlockVolumes`, `VolumeTasks` | volumes on LVM with sidecar files: whole requests one after another, and requests whose tool runs interleave |
| `Metadata`, `VolumeMetadata`, `MountTargets` | key=value metadata, mount targets |
| `VmRegistry`, `XmlEscape` | the VM registry under interleaved tasks; XML escaping |

How the pieces fit:

- *Codec.* `Stomp.ParseFrame` and `Stomp.ToBytes` are functions on byte sequences. `StompProofs.RoundTrip` says
  exactly which frames survive printing and parsing, `StompProofs.ParseExtend` that parsing a prefix already decides,
  and `StompGrammar` exactly which bytes are a frame and which are malformed, and how, without naming the parser. Rust
  strings are their UTF-8 bytes.
- *Connection.* `Server.Handle` takes one frame, `Server.Pump` drains a buffer, `Server.Run` takes reads one by one.
  The class `Connections.Connection` has the source's buffer, subscription map, handshake flag and nested loops, and
  `ServeStomp` is proved equal to `Run`, so every theorem of `ServerProofs` holds of it. What the handler calls but
  does not define (JSON codec, dispatcher, hash-map order, error texts) is the parameter `Server.Env`; the dispatcher
  may answer differently after every call, and the map order may change after every frame. Writing may fail after any
  number of bytes, which is a parameter too.
- *Schema compiler.* The loader is a machine over parser events; one recursion on document trees says
  what it loads in every case, and for good keys that is plain evaluation with anchors and last-wins keys.
- *Storage and VMs.* Steps on a value state with every tool failure as a parameter, a class whose methods perform
  them and whose `Valid()` ties it to a history of steps, and invariants over every history. `VolumeTasks` cuts the
  storage requests into single tool runs and lets them interleave; a request that nothing interrupts is the one of
  `BlockVolumes`.

Where the code and its own comments differ, the model follows the code:

- The reply fallback takes an arbitrary value of the subscription map, not the first SUBSCRIBE
  (crates/vdsm-rpc/src/server.rs:380 and 387).
- A notification whose call fails is answered over STOMP (crates/vdsm-rpc/src/server.rs:370-372).
- Headers of CONNECT and CONNECTED are escaped like all others (crates/vdsm-rpc/src/stomp.rs:15-17).
- The time stamp has a space and a numeric offset, not the `T` and `Z` of its heading
  (crates/vdsm-host/src/stats.rs:12 and 39-41).
- A `qemu-img` that cannot be started leaves the new LV behind: only one that ran and failed is rolled back
  (crates/vdsm-storage/src/volumes.rs:172-183).

Properties that hold only under a condition are stated with that condition as an if-and-only-if: the frame round trip,
the metadata round trips and the single keys of volume metadata, the anchor pass, the deletion of a volume and of an
image, the removal of an LV while other requests run, loading a mapping, accepting a mount request, and whether a
watchdog puts down the VM it was started for. Where such a property fails, a lemma shows an input: `**a` for the anchor
pass, an unresolved alias as a key, a description that sets the capacity, a deletion inside a creation, a VM destroyed
and created again under its watchdog.

## Model

| member | source | states |
|---|---|---|
| `Stomp.ParseFrame` | crates/vdsm-rpc/src/stomp.rs:104-181 | every parsed frame takes at least four bytes, so draining a buffer terminates |
| `Stomp.LookupAppend` | crates/vdsm-rpc/src/stomp.rs:53-58 | the first entry with a name wins: appending a header changes a lookup only when there was none |
| `StompLoops.EscapeHeader` | crates/vdsm-rpc/src/stomp.rs:185-197 | the character loop computes `Escape` |
| `StompLoops.UnescapeHeader` | crates/vdsm-rpc/src/stomp.rs:202-223 | the two-character look-ahead loop computes `Unescape`, unknown and dangling escapes included |
| `StompLoops.HeartbeatEnd` | crates/vdsm-rpc/src/stomp.rs:225-235 | the index loop stops exactly after the leading run of LF and CR LF |
| `StompLoops.PrintFrame` | crates/vdsm-rpc/src/stomp.rs:60-78 | the buffer-pushing printer computes `ToBytes` |
| `StompLoops.HeaderLoop` | crates/vdsm-rpc/src/stomp.rs:121-147 | the header loop with its one-shot length variable computes `ParseHeaders`, and the variable is the value of the first content-length entry |
| `StompLoops.HeaderOf` | crates/vdsm-rpc/src/stomp.rs:133-139 | one header line: split at the first colon, check and unescape each side, errors in the source's order |
| `StompLoops.BodyOf` | crates/vdsm-rpc/src/stomp.rs:149-171 | body by declared length or up to the first NUL, with the mismatch error's two numbers |
| `StompLoops.ParseFrameLoop` | crates/vdsm-rpc/src/stomp.rs:104-181 | the cursor-moving parser computes `ParseFrame` for every input |
| `StompProofs.UnescapeEscape` | crates/vdsm-rpc/src/stomp.rs:185-223 | unescaping undoes escaping for every text |
| `StompProofs.EscapeValid` | crates/vdsm-rpc/src/stomp.rs:185-197 | escaping keeps UTF-8 valid |
| `StompProofs.UnescapeValid` | crates/vdsm-rpc/src/stomp.rs:202-223 | unescaping keeps UTF-8 valid, even where a backslash stands before a multi-byte character |
| `StompProofs.ParsedSound` | crates/vdsm-rpc/src/stomp.rs:104-181 | every parsed frame is valid UTF-8 outside its body, has a non-empty one-line command and a body that agrees with its first content-length, and was paid for by consumed bytes |
| `StompProofs.EmptyCommandUnreachable` | crates/vdsm-rpc/src/stomp.rs:114-117 | the "empty command line" error is reported for no input at all |
| `StompProofs.ParsedSuffix` | crates/vdsm-rpc/src/stomp.rs:104-181 | the remainder is the unread end of the input: consumed plus remaining bytes are the input |
| `StompProofs.ParseExtend` | crates/vdsm-rpc/src/stomp.rs:104-181 | once a prefix parses or fails, every longer input gives the same frame with the extra bytes in the remainder, or the same error |
| `StompProofs.RoundTripForward` | crates/vdsm-rpc/src/stomp.rs:60-181 | a sendable frame after any heartbeats and before any bytes is read back, those bytes remaining |
| `StompProofs.FinalCrLost` | crates/vdsm-rpc/src/stomp.rs:237-243 | a command that ends in CR never comes back, whatever follows it, a lone CR being taken for a heartbeat |
| `StompProofs.RoundTrip` | crates/vdsm-rpc/src/stomp.rs:60-223 | a printed frame comes back if and only if its command is non-empty, has no LF and no final CR, and its first content-length denotes the body length or there is none and the body has no NUL; header keys and values are arbitrary |
| `StompProofs.StreamRoundTrip` | crates/vdsm-rpc/src/stomp.rs:60-223 | any sequence of sendable frames with heartbeats between them is read back frame by frame, and what follows is read as if it stood alone |
| `StompProofs.FramesReadBack` | crates/vdsm-rpc/src/stomp.rs:60-223 | frames printed back to back are read back exactly, nothing left over |
| `StompProofs.CutFrameWaits` | crates/vdsm-rpc/src/stomp.rs:104-181 | a frame whose end is missing is never taken for a frame nor for a malformed one |
| `StompProofs.CutStreamReadsBack` | crates/vdsm-rpc/src/stomp.rs:60-223 | a stream cut inside a frame gives the whole frames before it and then waits |
| `StompGrammar.FailsExactly` | crates/vdsm-rpc/src/stomp.rs:104-181 | an input fails with an error if and only if it is malformed in just that way: after heartbeats, a command line that is not UTF-8; or, after well-formed header lines ended by LF or CR LF, a line without a colon, a key or value that is not UTF-8, or a first content-length that is no number; or a declared body not followed by NUL |
| `StompGrammar.ParsesExactly` | crates/vdsm-rpc/src/stomp.rs:104-181 | an input parses to a frame and a rest if and only if it is heartbeats, the frame's lines each ended by LF or CR LF, a blank line, the body, NUL and that rest |
| `StompGrammar.ExplainedFails` | crates/vdsm-rpc/src/stomp.rs:111-162 | each kind of malformed input fails with the error that names it |
| `StompGrammar.LaidOutParses` | crates/vdsm-rpc/src/stomp.rs:104-181 | every frame laid out so, with either line ending, is read |
| `StompGrammar.StandardEscapes` | crates/vdsm-rpc/src/stomp.rs:202-223 | the four escapes of the standard in literal text, every other one passed through, a dangling backslash kept |
| `StompGrammar.LengthNumerals` | crates/vdsm-rpc/src/stomp.rs:140-145 | a content-length is read exactly from digits, with or without one leading plus sign, of a number below 2^64 |
| `Utf8.ValidExactly` | crates/vdsm-rpc/src/stomp.rs:118-118 | the texts taken for UTF-8 are exactly the encodings of sequences of Unicode scalar values |
| `Server.SubscriptionTo` | crates/vdsm-rpc/src/server.rs:390-394 | names a subscription to the destination whenever one exists, else "0" |
| `Server.WrittenAppend` | crates/vdsm-rpc/src/server.rs:396-420 | one more reply appends exactly its printed frame to the output |
| `Server.WireAppend` | crates/vdsm-rpc/src/server.rs:281-281 | of one more reply the peer gets all, or the first bytes it has room for |
| `ServerProofs.PumpExtend` | crates/vdsm-rpc/src/server.rs:241-327 | draining more bytes continues from where draining fewer stopped |
| `ServerProofs.RunIsPump` | crates/vdsm-rpc/src/server.rs:233-327 | reading in pieces and draining after each is draining the whole once |
| `ServerProofs.ChunkingIrrelevant` | crates/vdsm-rpc/src/server.rs:233-327 | however the same bytes are cut into non-empty reads: same frames handled, same dispatcher calls, same final state, same bytes at the peer, and while open the same buffer |
| `ServerProofs.PumpDrains` | crates/vdsm-rpc/src/server.rs:241-253 | draining handles a prefix of the frames the codec finds, and all of them unless the connection closes |
| `ServerProofs.ServeDrains` | crates/vdsm-rpc/src/server.rs:233-253 | an open connection has handled exactly the frames in the bytes received and buffers exactly the unread end |
| `ServerProofs.KindsByName` | crates/vdsm-rpc/src/server.rs:255-324 | which command is which, by its literal text |
| `ServerProofs.InvStep` | crates/vdsm-rpc/src/server.rs:255-325 | every frame keeps the run invariant tying subscriptions, calls and output to the accepted history |
| `ServerProofs.ServeInv` | crates/vdsm-rpc/src/server.rs:219-328 | the invariant holds after every sequence of reads |
| `ServerProofs.OutputOrdered` | crates/vdsm-rpc/src/server.rs:241-327 | output is a prefix of one ERROR, or of CONNECTED, MESSAGEs, at most one ERROR or RECEIPT; these two leave the connection closed; no dispatcher call without CONNECTED |
| `ServerProofs.DisconnectAnswered` | crates/vdsm-rpc/src/server.rs:308-316 | RECEIPT with an id is written if and only if the last accepted frame is a DISCONNECT asking for that id; DISCONNECT always closes |
| `ServerProofs.NothingAfterClose` | crates/vdsm-rpc/src/server.rs:233-327 | output and calls only grow with further reads, and once closed nothing changes any more |
| `ServerProofs.AnsweredExactly` | crates/vdsm-rpc/src/server.rs:339-374 | the answered positions of a history are exactly the UTF-8 SENDs that are unreadable, carry an id or fail |
| `ServerProofs.MessagesAt` | crates/vdsm-rpc/src/server.rs:350-376 | the MESSAGEs of a history stand one to one and in order for its answered positions |
| `ServerProofs.AppliedByName` | crates/vdsm-rpc/src/server.rs:287-301 | what one SUBSCRIBE or UNSUBSCRIBE does, with literal header names and defaults |
| `ServerProofs.SubsAreLive` | crates/vdsm-rpc/src/server.rs:287-301 | the map holds an id with a destination if and only if the last SUBSCRIBE or UNSUBSCRIBE naming that id is a SUBSCRIBE to it |
| `ServerProofs.MessageRouted` | crates/vdsm-rpc/src/server.rs:384-396 | a reply goes to reply-to, else to a live subscription's destination, else to the default queue, and names a live subscription to that destination if there is one, else "0" |
| `ServerProofs.MessagesMatchSends` | crates/vdsm-rpc/src/server.rs:287-396 | over every run the MESSAGEs begun are, in order, without omission or repetition, the answers to exactly the answered SENDs, each with its request's own id and outcome and routed by the history before it |
| `ServerProofs.BuildSendable` | crates/vdsm-rpc/src/stomp.rs:253-294 | every frame the server builds satisfies the round-trip condition |
| `ServerProofs.BuildShows` | crates/vdsm-rpc/src/stomp.rs:253-294 | a reader finds in each built frame, under the literal names, the body, ids, destination and true length it was built from |
| `ServerProofs.ServeWhole` | crates/vdsm-rpc/src/server.rs:233-327 | wherever writing fails, only the last reply is cut short and the connection is closed; an open connection has written all its replies |
| `ServerProofs.OutputReadsBack` | crates/vdsm-rpc/src/server.rs:219-422 | whatever bytes arrive and wherever writing fails, a peer parsing what reaches it finds exactly the frames meant, only the reply whose write failed missing and its beginning never misread |
| `Sessions.OutputExactly` | crates/vdsm-rpc/src/server.rs:219-328 | all a connection accepts and replies, from the frames in the bytes received and how they go on: CONNECTED, the MESSAGEs due, and at the end `already connected`, `malformed frame`, the receipt or nothing; or `expected CONNECT` alone |
| `Sessions.FailureOnlyCuts` | crates/vdsm-rpc/src/server.rs:246-316 | a failing write only cuts a session short: what is accepted, called and replied is a prefix of what it would have been, and all of it if every reply fitted |
| `Sessions.PeerCloses` | crates/vdsm-rpc/src/server.rs:234-238 | an empty read ends the session; nothing after it is looked at |
| `Sessions.SessionAnswered` | crates/vdsm-rpc/src/server.rs:200-316 | for every id, destination, request with an id and receipt: the printed CONNECT, SUBSCRIBE, SEND and DISCONNECT, in any chunks, are answered with CONNECTED, one MESSAGE to that destination and subscription holding the response, and that RECEIPT |
| `Connections.Connection.constructor` | crates/vdsm-rpc/src/server.rs:227-231 | a new connection is in the start state with an empty buffer |
| `Connections.Connection.Write` | crates/vdsm-rpc/src/stomp.rs:60-78 | writes one printed reply as far as the peer takes it; what reached the peer stays the printed form of the replies, cut where writing failed |
| `Connections.Connection.HandleStompSend` | crates/vdsm-rpc/src/server.rs:330-422 | one SEND changes calls and output as `HandleSend` says and touches no buffered byte |
| `Connections.Connection.Answer` | crates/vdsm-rpc/src/server.rs:339-374 | at most one dispatcher call, and a response exactly when one is due |
| `Connections.Connection.RouteResponse` | crates/vdsm-rpc/src/server.rs:384-420 | writes the one MESSAGE that routing prescribes |
| `Connections.Connection.FindSubscription` | crates/vdsm-rpc/src/server.rs:390-394 | the search loop finds what `SubscriptionTo` specifies |
| `Connections.Connection.HandleFrame` | crates/vdsm-rpc/src/server.rs:255-325 | one parsed frame takes the state to `Handle` of it |
| `Connections.Connection.HandleControl` | crates/vdsm-rpc/src/server.rs:270-325 | the same for every accepted frame but SEND |
| `Connections.Connection.HandleConnect` | crates/vdsm-rpc/src/server.rs:271-285 | CONNECTED once, a second handshake is refused and closes |
| `Connections.Connection.Resubscribe` | crates/vdsm-rpc/src/server.rs:287-301 | the map after SUBSCRIBE or UNSUBSCRIBE, defaults and a missing id included |
| `Connections.Connection.Refuse` | crates/vdsm-rpc/src/server.rs:246-268 | writes one frame and closes |
| `Connections.Connection.TakeFrame` | crates/vdsm-rpc/src/server.rs:243-253 | drops exactly the consumed bytes and handles the frame; the buffer shrinks, and a write that failed ends the connection |
| `Connections.Connection.NextFrame` | crates/vdsm-rpc/src/server.rs:242-326 | one turn of the inner loop keeps the result of draining and makes progress, or finds no complete frame |
| `Connections.Connection.DrainBuffer` | crates/vdsm-rpc/src/server.rs:241-327 | the inner loop terminates and equals `Pump` |
| `Connections.Connection.TakeChunk` | crates/vdsm-rpc/src/server.rs:234-327 | one read is appended and drained as `Pump` says |
| `Connections.Connection.ServeStomp` | crates/vdsm-rpc/src/server.rs:233-328 | the nested loops over any reads, with writing failing anywhere or never, equal `Run`, so all theorems on runs hold of the handler |
| `CivilDate.NoUnderflow` | crates/vdsm-host/src/stats.rs:25-33 | for every day count no unsigned subtraction goes below zero and all intermediates stay in range |
| `CivilDate.CivilCounts` | crates/vdsm-host/src/stats.rs:19-34 | for every integer day count the date is a valid proleptic Gregorian date and counting days up to it gives the day count back |
| `CivilDate.CivilInverts` | crates/vdsm-host/src/stats.rs:19-34 | every calendar date is the date of its day number |
| `CivilDate.CivilSteps` | crates/vdsm-host/src/stats.rs:19-34 | day 0 is 1970-01-01 and one more day is the next calendar date |
| `CivilDate.CivilUnique` | crates/vdsm-host/src/stats.rs:19-34 | any dating that starts at the epoch and follows the calendar is the computed one |
| `CivilDate.DayNumberGrows` | crates/vdsm-host/src/stats.rs:19-34 | later dates have larger day numbers |
| `Timestamp.SecondsOrder` | crates/vdsm-host/src/stats.rs:19-34 | date and clock together determine the second and order as seconds do |
| `Timestamp.StampOrder` | crates/vdsm-host/src/stats.rs:19-41 | in years 0000 to 9999 the text determines the second and lexicographic order is chronological order, both ways |
| `Timestamp.StampReads` | crates/vdsm-host/src/stats.rs:19-41 | in every year the text has its separators and digits in their places, and the numbers they stand for are the calendar date and clock exactly that many seconds after the epoch; years -999 to 9999 take four characters |
| `Timestamp.EpochText` | crates/vdsm-host/src/stats.rs:39-41 | second 0 is 1970-01-01 00:00:00 -0000 |
| `YamlLoader.RunTree` | crates/vdsm-schema/build.rs:61-128 | the events of any tree do to the stacks exactly what inserting its one finished value does |
| `YamlLoader.NeverPanics` | crates/vdsm-schema/build.rs:61-128 | for every stream of documents, whatever their keys: no `unreachable!`, no failed unwrap, both stacks empty at the end, and the documents are `Loaded`, a recursion in which a BadValue due as key is passed over and what follows moves up |
| `YamlLoader.LoadedIsValue` | crates/vdsm-schema/build.rs:73-83 | for a tree without BadValue keys that recursion is plain evaluation |
| `YamlLoader.LoadsDocuments` | crates/vdsm-schema/build.rs:61-128 | for every stream of documents without BadValue keys the loaded documents are their evaluations, with last-wins keys and aliases resolved to the latest completed anchor |
| `YamlLoader.KeyStackTracksMappings` | crates/vdsm-schema/build.rs:105-113 | at every event of every stream of documents the loader is running and the key stack is as deep as the number of open mappings |
| `YamlLoader.LastWins` | crates/vdsm-schema/build.rs:78-82 | a mapping gives a key the value of its last entry |
| `YamlLoader.OnlyEntries` | crates/vdsm-schema/build.rs:78-82 | and has no other keys |
| `YamlLoader.AliasMeans` | crates/vdsm-schema/build.rs:118-124 | an alias stands for the last node with its anchor that is complete before it, in this document or an earlier one, and for BadValue when there is none |
| `YamlLoader.TreeAnchors` | crates/vdsm-schema/build.rs:63-65 | after a tree each anchor stands for its last complete node, else for what it stood for before |
| `YamlLoader.EmptyDocument` | crates/vdsm-schema/build.rs:93-94 | a document without a node is a BadValue |
| `YamlLoader.RunKeyed` | crates/vdsm-schema/build.rs:74-82 | no mapping the loader holds after any events, at any depth in documents, stacks and anchors, has a BadValue key |
| `YamlLoader.RightOnlyIfKeyed` | crates/vdsm-schema/build.rs:74-82 | documents whose values have a BadValue key at any depth are never loaded right |
| `YamlLoader.MappingLoadsExactly` | crates/vdsm-schema/build.rs:74-82 | a mapping of well-keyed parts is loaded right if and only if none of its own keys is BadValue |
| `YamlLoader.AliasKeyShifts` | crates/vdsm-schema/build.rs:74-82 | a mapping that is not: after an unresolved alias as key, the value is taken for a key and the next key for its value |
| `Loaders.LenientLoader.constructor` | crates/vdsm-schema/build.rs:53-59 | all four fields start empty |
| `Loaders.LenientLoader.Insert` | crates/vdsm-schema/build.rs:62-86 | inserting a finished node: new fields, and exactly when the source would panic |
| `Loaders.LenientLoader.PopAndInsert` | crates/vdsm-schema/build.rs:101-104 | closing a collection inserts it into what is below |
| `Loaders.LenientLoader.OnEvent` | crates/vdsm-schema/build.rs:90-127 | one event takes the fields to `Step` of it |
| `Loaders.LenientLoader.Load` | crates/vdsm-schema/build.rs:89-128 | a whole stream takes them to `Run` of it |
| `Loaders.LoadDocuments` | crates/vdsm-schema/build.rs:61-128 | loading any documents through the mutable loader gives what the recursion says, and their values where no key is BadValue |
| `AnchorPass.NameEnd` | crates/vdsm-schema/build.rs:304-313 | the inner loop finds the end of the name |
| `AnchorPass.StripLoop` | crates/vdsm-schema/build.rs:294-329 | the index loop computes `Strip` |
| `AnchorPass.StripRewrites` | crates/vdsm-schema/build.rs:294-329 | a text cut into anchors, aliases and other bytes in any proper way is rewritten token by token: anchors dropped, alias names kept, the rest copied |
| `AnchorPass.CutsUp` | crates/vdsm-schema/build.rs:298-324 | every text can be cut so |
| `AnchorPass.TokensInText` | crates/vdsm-schema/build.rs:294-329 | in characters: `&name` is dropped, `*name` becomes the name, the text around stays |
| `AnchorPass.TokensLeft` | crates/vdsm-schema/build.rs:294-329 | an anchor or alias is left in the output if and only if some marker of the input is directly followed by anchors and an alias |
| `AnchorPass.MarkerBeforeAlias` | crates/vdsm-schema/build.rs:300-323 | such inputs: in `**a` and `&*a` the first marker is left before the name, and a second pass rewrites it |
| `AnchorPass.StripIdempotent` | crates/vdsm-schema/build.rs:294-329 | a second pass changes nothing on exactly the other inputs |
| `AnchorPass.ApartMarkersSuffice` | crates/vdsm-schema/build.rs:294-329 | so both hold wherever no `&` or `*` directly follows another |
| `AnchorPass.StripKeepsAscii` | crates/vdsm-schema/build.rs:325-326 | ASCII in, ASCII out |
| `Identifiers.SnakeLoop` | crates/vdsm-schema/build.rs:231-264 | the character loop and both trimming loops compute `Snake` |
| `Identifiers.SnakeSpells` | crates/vdsm-schema/build.rs:231-264 | what `snake` makes of every text: its letters and digits in small letters, an underscore before each but the first that follows something else or is a capital after a small letter or digit; `field` if there are none, `f_` before a leading digit |
| `Identifiers.SnakeKeepsLetters` | crates/vdsm-schema/build.rs:231-264 | without its underscores that is exactly the letters and digits in small letters |
| `Identifiers.SnakeNames` | crates/vdsm-schema/build.rs:231-264 | every text becomes a lower-case identifier with no leading, trailing or double underscore |
| `Identifiers.SnakeFixed` | crates/vdsm-schema/build.rs:231-264 | a text is left alone if and only if it is such an identifier; `snake` is idempotent |
| `Identifiers.PascalLoop` | crates/vdsm-schema/build.rs:207-229 | the character loop computes `Pascal` |
| `Identifiers.PascalSpells` | crates/vdsm-schema/build.rs:207-229 | what `pascal` makes of every text: its letters and digits, capital first and after anything else, unchanged elsewhere; `Unnamed` if there are none, `V` before a leading digit |
| `Identifiers.Letters` | crates/vdsm-schema/build.rs:235-241 | capitals and small letters, letter by letter |
| `Identifiers.CaseKeepsPlace` | crates/vdsm-schema/build.rs:213-239 | changing case keeps the place in the alphabet |
| `Identifiers.PascalNames` | crates/vdsm-schema/build.rs:207-229 | every text becomes a letters-and-digits identifier that starts with a capital |
| `Identifiers.PascalFixed` | crates/vdsm-schema/build.rs:207-229 | a text is left alone if and only if it is such an identifier; `pascal` is idempotent |
| `Codegen.KeepFirsts` | crates/vdsm-schema/build.rs:644-650 | the loop with its set of seen keys keeps the names whose key no earlier name has |
| `Codegen.FirstsExactly` | crates/vdsm-schema/build.rs:644-650 | a name is kept if and only if some position of it is the first with its key |
| `Codegen.FirstsDistinct` | crates/vdsm-schema/build.rs:644-650 | kept names have pairwise distinct keys |
| `Codegen.FirstsCover` | crates/vdsm-schema/build.rs:644-650 | every name's key is the key of a kept name |
| `Codegen.EmitFieldLoop` | crates/vdsm-schema/build.rs:569-586 | deduplicating by the identifier without its raw prefix keeps the fields that deduplicating by snake name does |
| `Codegen.FieldsDistinct` | crates/vdsm-schema/build.rs:569-586 | fields of an emitted struct are pairwise distinct |
| `Codegen.FieldsCover` | crates/vdsm-schema/build.rs:569-586 | every property's snake name is a field |
| `Codegen.FieldsStand` | crates/vdsm-schema/build.rs:266-275 | each field stands for the first schema name with its snake form: that form is its identifier, raw if it is a keyword, the schema name is its wire name, spelt out exactly when it differs |
| `Codegen.EmitVerbs` | crates/vdsm-schema/build.rs:639-733 | the enum, both tables and the request structs, each from its own pass, list the same verbs |
| `Codegen.TablesComplete` | crates/vdsm-schema/build.rs:639-733 | the variants are exactly the Pascal identifiers of the verbs, with one request struct each and no others, and all four lists are as long |
| `Codegen.VerbRoundTrip` | crates/vdsm-schema/build.rs:653-689 | `as_str` is defined on every variant and `from_wire` undoes it |
| `Codegen.WireRoundTrip` | crates/vdsm-schema/build.rs:671-686 | `from_wire` is defined exactly on names that are the first with their Pascal identifier, and `as_str` undoes it |
| `BlockVolumes.RoundedLeast` | crates/vdsm-storage/src/volumes.rs:156-157 | the LV size is the least multiple of 128 MiB that covers the request, zero only for zero |
| `BlockVolumes.CreateConsistent` | crates/vdsm-storage/src/volumes.rs:147-194 | creating, whatever fails, keeps: every sidecar names an LV, no LV has two sidecars, LV sizes are positive whole extents |
| `BlockVolumes.CreateReports` | crates/vdsm-storage/src/volumes.rs:147-194 | reported success means LV and sidecar exist with requested size and content and the name was free; zero size never succeeds; other volumes are untouched in every case |
| `BlockVolumes.CreateSucceeds` | crates/vdsm-storage/src/volumes.rs:147-194 | a creation succeeds if and only if the names are valid, the size is positive, the name is free and every tool it needs works |
| `BlockVolumes.CreateLeaves` | crates/vdsm-storage/src/volumes.rs:185-193 | past the formatter, success or not, the LV is there at the rounded size and of the sidecar what was written |
| `BlockVolumes.UuidIsName` | crates/supervdsm/src/exec.rs:14-19 | every UUID is a valid LVM name |
| `BlockVolumes.NameChars` | crates/supervdsm/src/exec.rs:14-19 | the characters allowed in names, one by one |
| `BlockVolumes.NameIsPlain` | crates/supervdsm/src/exec.rs:14-19 | no valid name can be taken for an option or a path, or holds white space |
| `BlockVolumes.RollbackRestores` | crates/vdsm-storage/src/volumes.rs:172-184 | a failed format with a successful rollback leaves the state unchanged |
| `BlockVolumes.FailureTraceless` | crates/vdsm-storage/src/volumes.rs:161-193 | creation leaves the state unchanged if and only if it is refused before the LV exists or a formatter that ran and failed is rolled back; every other failure leaves the LV |
| `BlockVolumes.DeleteConsistent` | crates/vdsm-storage/src/volumes.rs:279-285 | deleting keeps consistency if and only if the LV survives, or every sidecar of the volume is in the named image and is removed too |
| `BlockVolumes.RemoveAllExactly` | crates/vdsm-storage/src/volumes.rs:353-362 | exactly the listed LVs whose removal works are gone |
| `BlockVolumes.DeleteImageConsistent` | crates/vdsm-storage/src/volumes.rs:349-364 | deleting an image, whatever its listing showed, keeps consistency if and only if every sidecar that loses its LV is in the image and the directory is removed; then exactly the image's sidecars are gone |
| `BlockVolumes.RunConsistent` | crates/vdsm-storage/src/volumes.rs:147-368 | every run of whole requests, one after another, keeps consistency whatever tools fail |
| `BlockVolumes.CreatedStays` | crates/vdsm-storage/src/volumes.rs:147-368 | a complete volume keeps its size and metadata through every request that does not delete it or its image |
| `BlockVolumes.BlockDomain.constructor` | crates/vdsm-storage/src/volumes.rs:147-150 | a new domain is empty, with an empty history |
| `BlockVolumes.BlockDomain.StaysConsistent` | crates/vdsm-storage/src/volumes.rs:147-368 | through every history of requests that meets the expectations the object is consistent |
| `BlockVolumes.BlockDomain.RunLvcreate` | crates/supervdsm/src/exec.rs:142-149 | refuses bad names, zero size and existing names, else adds the LV |
| `BlockVolumes.BlockDomain.RunLvremove` | crates/supervdsm/src/exec.rs:160-164 | removes the LV or changes nothing |
| `BlockVolumes.BlockDomain.FinishVolume` | crates/vdsm-storage/src/volumes.rs:168-193 | the steps after lvcreate equal `Finish`: format, roll back, make the directory, write the sidecar |
| `BlockVolumes.BlockDomain.CreateBlockVolume` | crates/vdsm-storage/src/volumes.rs:147-194 | the step-by-step creation equals `Create` and is one more request of the history |
| `BlockVolumes.BlockDomain.VolumeDelete` | crates/vdsm-storage/src/volumes.rs:279-285 | both removals are attempted, equal to `Delete` |
| `BlockVolumes.BlockDomain.ImageDelete` | crates/vdsm-storage/src/volumes.rs:349-364 | the removal loop equals `DeleteImage` |
| `VolumeTasks.StartDeleteKeeps` | crates/vdsm-storage/src/volumes.rs:279-282 | while other requests run, a deletion's lvremove keeps the invariant if and only if it removes nothing, or no creation of the volume is under way and every sidecar of it is in the named image or about to be removed |
| `VolumeTasks.RemoveListedKeeps` | crates/vdsm-storage/src/volumes.rs:353-362 | the same for each lvremove of an image deletion |
| `VolumeTasks.StepKeeps` | crates/vdsm-storage/src/volumes.rs:147-368 | every single tool run, failing or not, keeps the invariant under that condition |
| `VolumeTasks.InterleavedConsistent` | crates/vdsm-storage/src/volumes.rs:147-368 | in every interleaving of requests, with any failures, in which no deletion removes an LV inside a creation of it: only sidecars about to be removed can be out of step, and the domain is consistent whenever no deletion is under way |
| `VolumeTasks.DeleteInsideCreate` | crates/vdsm-storage/src/volumes.rs:161-192 | the condition is needed: from every domain in which a creation can start, a whole deletion inside it leaves a sidecar without an LV |
| `VolumeTasks.CreateInSteps` | crates/vdsm-storage/src/volumes.rs:147-194 | a creation that nothing interrupts does what `Create` says |
| `VolumeTasks.DeleteInSteps` | crates/vdsm-storage/src/volumes.rs:279-285 | a deletion that nothing interrupts does what `Delete` says |
| `VolumeTasks.DeleteImageInSteps` | crates/vdsm-storage/src/volumes.rs:349-364 | the deletion of an image that nothing interrupts does what `DeleteImage` says |
| `Metadata.ReadLoop` | crates/vdsm-storage/src/volumes.rs:223-228 | the reader loop computes `ReadMeta` |
| `Metadata.SpacedLineReads` | crates/vdsm-storage/src/volumes.rs:225-227 | a line means its key and value whatever white space stands around them |
| `Metadata.LastLine` | crates/vdsm-storage/src/volumes.rs:224-224 | the last line counts whether or not a line feed ends it |
| `Metadata.WhiteSpace` | crates/vdsm-storage/src/volumes.rs:226-226 | white space is what Unicode calls so, code point by code point |
| `Metadata.PrintedReadsBack` | crates/vdsm-storage/src/domain.rs:390-395 | for distinct clean keys without '=', what is printed is read back for every key if and only if every value is one line without white space at its ends; '=' inside values is harmless |
| `Metadata.LaterLinesWin` | crates/vdsm-storage/src/volumes.rs:224-228 | lines printed last are read back right whatever text precedes them |
| `Metadata.FoldOver` | crates/vdsm-storage/src/volumes.rs:223-228 | lines read over a map act as what they hold by themselves, put over the map |
| `Metadata.ReadIsClean` | crates/vdsm-storage/src/volumes.rs:224-228 | no value read from any file spans lines or has white space at an end |
| `VolumeMetadata.VolumeReadsBack` | crates/vdsm-storage/src/volumes.rs:50-69 | volume metadata is read back for every key if and only if the five free texts are clean |
| `VolumeMetadata.DecimalReads` | crates/vdsm-storage/src/volumes.rs:54-56 | a printed number reads as that number |
| `VolumeMetadata.AnyDescription` | crates/vdsm-storage/src/volumes.rs:50-69 | with the other fields clean, every key after DESCRIPTION is read back right for every description text, forged lines included |
| `VolumeMetadata.DescriptionSetsCapacity` | crates/vdsm-storage/src/volumes.rs:55-57 | keys before it are not safe: a description with a line break can make the capacity read as any clean text |
| `VolumeMetadata.ReadExactly` | crates/vdsm-storage/src/volumes.rs:50-69 | with the other fields clean, exactly what is read for every description: early keys, over them what the description text says by itself, over that the late keys |
| `VolumeMetadata.EarlyReadsBack` | crates/vdsm-storage/src/volumes.rs:54-57 | a key before the description reads back right if and only if the description text, read by itself, does not set it or sets it to that value |
| `VolumeMetadata.DescriptionDecides` | crates/vdsm-storage/src/volumes.rs:54-57 | so for capacity and creation time by name; the description reads back if and only if it is one line without white space at its ends |
| `VolumeMetadata.VolumeInfoReadsBack` | crates/vdsm-storage/src/volumes.rs:221-249 | with the other fields clean, asking for a created volume's information gives back what it was created with, COW or RAW and PREALLOCATED or SPARSE by their codes, if and only if the description is clean |
| `VolumeMetadata.LateInfoReadsBack` | crates/vdsm-storage/src/volumes.rs:221-249 | of that answer six fields are right for every description |
| `VolumeMetadata.VolumePlaceReadsBack` | crates/vdsm-storage/src/volumes.rs:50-69 | for every description the file says which domain and image the volume belongs to |
| `VolumeMetadata.DomainReadsBack` | crates/vdsm-storage/src/domain.rs:86-106 | domain metadata is read back for every key if and only if name, remote path and id are clean |
| `VolumeMetadata.DomainInfoReadsBack` | crates/vdsm-storage/src/domain.rs:383-415 | with a clean id, asking for a created domain's information gives back what it was created with, type and class by their codes, if and only if name and remote path are clean |
| `VolumeMetadata.DomainFileReadsBack` | crates/vdsm-storage/src/domain.rs:86-106 | the file says which domain it is, that it is in no pool, and the lease settings |
| `MountTargets.Flatten` | crates/vdsm-storage/src/connection.rs:48-48 | slashes become underscores, position by position |
| `MountTargets.TargetsCollide` | crates/vdsm-storage/src/connection.rs:47-50 | the target's text; two connections share a target if and only if they differ at most in slashes and underscores |
| `MountTargets.TargetAccepted` | crates/supervdsm/src/exec.rs:32-34 | the target built for a connection string is accepted if and only if the string has no ".." and no NUL |
| `MountTargets.RequestsAgree` | crates/vdsm-storage/src/verbs.rs:50-102 | a mount is requested for every storage type but FCP and iSCSI, of the file system type given or else usual for the storage type; it is accepted if and only if type, connection string and options are each in order; unmount names the identical target and is then accepted too |
| `MountTargets.AcceptedStaysBelowRoot` | crates/supervdsm/src/exec.rs:32-34 | every accepted target, from any client, normalises to a path at or below the mount root |
| `VmRegistry.PollReflectsLibvirt` | crates/vdsm-virt/src/verbs.rs:363-416 | after a poll every record's name is running, every running domain with a readable UUID is present, survivors are unchanged, and new records are Up and say what the poll saw |
| `VmRegistry.PollIdempotent` | crates/vdsm-virt/src/verbs.rs:363-416 | a second poll with the same view changes nothing |
| `VmRegistry.RunKeyed` | crates/vdsm-virt/src/verbs.rs:113-416 | in every interleaving each registry key is its record's id |
| `VmRegistry.OnlyCreationAdds` | crates/vdsm-virt/src/verbs.rs:113-416 | an absent id appears only by its own create or migrationCreate or because a poll found it; no watchdog revives a VM |
| `VmRegistry.DownOnlyByWatchdog` | crates/vdsm-virt/src/verbs.rs:257-292 | in every interleaving a record is Down only if a shutdown of that id was requested and the watchdog it started later found the domain running, with this record already in place |
| `VmRegistry.SpawnedOnce` | crates/vdsm-virt/src/verbs.rs:277-290 | that shutdown is the only one that started the watchdog |
| `VmRegistry.AsleepExactly` | crates/vdsm-virt/src/verbs.rs:275-290 | every shutdown, of a known VM or not, leaves a watchdog that sleeps until it fires, and there are no others |
| `VmRegistry.BornAfter` | crates/vdsm-virt/src/verbs.rs:202-416 | a record was put in place after a step if and only if some later step removed, dropped or replaced what was there |
| `VmRegistry.KeptRecord` | crates/vdsm-virt/src/verbs.rs:202-416 | a step that keeps a record changes at most its state |
| `VmRegistry.RecordExplained` | crates/vdsm-virt/src/verbs.rs:113-416 | in every interleaving a record says what the step that put it in place said |
| `VmRegistry.StateExplained` | crates/vdsm-virt/src/verbs.rs:113-416 | in every interleaving a record's state is the one left by the last verb, timed-out watchdog or creation that spoke of it, as a literal table says |
| `VmRegistry.StaleWatchdog` | crates/vdsm-virt/src/verbs.rs:257-292 | the record put down is a later VM than the one the shutdown was for if and only if some step between removed, dropped or replaced that one |
| `VmRegistry.NewVmPutDown` | crates/vdsm-virt/src/verbs.rs:275-290 | it happens: create, shutdown, destroy, create, and the first watchdog puts the second VM down |
| `VmRegistry.VmHost.constructor` | crates/vdsm-virt/src/verbs.rs:202-204 | the registry starts empty, with no watchdog asleep |
| `VmRegistry.VmHost.AtAnyTime` | crates/vdsm-virt/src/verbs.rs:113-416 | of the mutable registry at any time: keys are ids, and Down comes from a timed-out shutdown of its history |
| `VmRegistry.VmHost.VmCreate` | crates/vdsm-virt/src/verbs.rs:202-240 | inserts an Up record exactly when define and start both succeed |
| `VmRegistry.VmHost.VmMigrationCreate` | crates/vdsm-virt/src/verbs.rs:113-127 | inserts a record waiting for launch |
| `VmRegistry.VmHost.VmDestroy` | crates/vdsm-virt/src/verbs.rs:242-255 | removes the record whatever virsh did |
| `VmRegistry.VmHost.Mark` | crates/vdsm-virt/src/verbs.rs:268-270 | sets the state of a present record and never inserts one |
| `VmRegistry.VmHost.VmShutdown` | crates/vdsm-virt/src/verbs.rs:257-292 | marks the record and leaves one more watchdog asleep, even for an unknown VM |
| `VmRegistry.VmHost.WatchdogFires` | crates/vdsm-virt/src/verbs.rs:277-290 | uses the watchdog up and marks the record Down if its domain still runs |
| `VmRegistry.VmHost.VmCont` | crates/vdsm-virt/src/verbs.rs:294-307 | marks the record Up |
| `VmRegistry.VmHost.VmPause` | crates/vdsm-virt/src/verbs.rs:309-322 | marks the record Paused |
| `VmRegistry.VmHost.ReconcileFromLibvirt` | crates/vdsm-virt/src/verbs.rs:363-416 | a poll is one more step; a failed listing changes nothing |
| `VmRegistry.VmHost.AdoptRunning` | crates/vdsm-virt/src/verbs.rs:374-415 | the retain-then-adopt loop equals `Reconcile` |
| `XmlEscape.FivePassesAreOne` | crates/vdsm-virt/src/domain_xml.rs:113-119 | the five whole-string replacements are one pass, character by character |
| `XmlEscape.EscapeDecodes` | crates/vdsm-virt/src/domain_xml.rs:113-119 | a decoder of the predefined entities (section 4.6 of XML 1.0) that rejects stray markup and stray ampersands gives back every input |
| `XmlEscape.EscapeIsSafe` | crates/vdsm-virt/src/domain_xml.rs:113-119 | no raw `<`, `>`, `"` or `'` is left, and at every index an ampersand starts one of the five entities |

## Left out

- Stomp.ParseFrame: lengths are unbounded, so a declared content-length of exactly 2^64-1, where the source's `n + 1` overflows, simply waits for more bytes; a UTF-8 error carries the offending bytes instead of Rust's error offset.
- Connections.Connection.ServeStomp: reads of any size are allowed, not only up to 8192 bytes; a failing read or `serde_json::to_vec` (a response is a JSON value, which always serialises) is not modelled.
- Server.WireAppend: TLS, TCP accept, flushing and log lines are not modelled; writing appends bytes until it fails for good.
- The JSON-RPC codec, the dispatcher's handlers and hash-map iteration order are parameters; handlers of other connections show only through the dispatcher's answers.
- Line framing (`serve_lines`, `process_one`): a one-step rule without the buffering and routing that make STOMP hard.
- YamlLoader.LoadsDocuments: the YAML scanner and `scalar_to_yaml` are not modelled (events carry the scalar's value, and all scalars that are not BadValue are texts), nor is the order of keys in a mapping.
- YamlLoader.MappingLoadsExactly: the only-if half is for one mapping document whose keys and values are themselves well keyed; deeper down a misread mapping can be overwritten by a later entry and so do no harm. What is loaded in every case is `YamlLoader.NeverPanics`.
- AnchorPass.StripIdempotent: stated on bytes; outside ASCII the source re-encodes every byte as a character, so a second pass reads other bytes than the first one wrote.
- Codegen.EmitFieldLoop: the list of Rust keywords is a parameter; enum variants, aliases, unions, maps, doc comments and field types are not modelled, and the printed Rust text is represented by the fields and match arms it declares.
- Codegen.EmitVerbs: a verb's Rust name is `pascal` of its schema name; parameters and response types of request structs are left to the field lemmas.
- BlockVolumes.RunConsistent: requests do not overlap, deletes name the volume's own image, listings show existing sidecars and removing an existing sidecar or image directory succeeds; `BlockVolumes.DeleteConsistent` and `BlockVolumes.DeleteImageConsistent` show what each is needed for, and `VolumeTasks.InterleavedConsistent` covers requests that overlap.
- VolumeTasks.InterleavedConsistent: nothing in the source keeps a deletion out of a creation of the same volume, so this is an assumption on the engine; a deletion that starts and ends inside a creation is `VolumeTasks.DeleteInsideCreate`. A file is written, and a directory removed, in one step.
- BlockVolumes.RoundedLeast: sizes are unbounded; requests within 128 MiB of 2^64 would wrap in the source.
- BlockVolumes.BlockDomain.CreateBlockVolume: image and volume names are identities, so path aliases such as `a/../b` are not seen as one image; file-based volumes and leases are not modelled.
- VolumeMetadata.VolumeReadsBack: parsing the request's parameters and file access are not modelled (codes are integers); apparent and true size come from elsewhere.
- MountTargets.RequestsAgree: creating the directory, the already-mounted shortcut, what iSCSI login does and the list of connections are not modelled.
- VmRegistry.VmHost.ReconcileFromLibvirt: reading virsh output is not modelled; one poll sees one consistent view and one time.
- VmRegistry.VmHost.VmShutdown: a step is one section under the write lock, and a name read under an earlier lock is an arbitrary argument; the 30 seconds are any later moment.
- Timestamp.StampOrder: years outside 0000 to 9999, which print with a sign or more digits, are not ordered by their texts; `Timestamp.StampReads` covers every year.
- Capabilities, statistics, network stubs, pool and SPM verbs, device discovery, configuration and command-line tools: inventories and plumbing whose properties take one step.
