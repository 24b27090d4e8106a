# antennae.fm relay core in Dafny

This project models the core of antennae.fm, a web radio that relays Icecast stations to browser
listeners. The server keeps one upstream connection per station. It copies every audio chunk into
a per-station lookback ring buffer and writes it to every listening HTTP response. A new listener
first receives the whole lookback. "Now playing" metadata is parsed from the Icecast
`StreamTitle`, cached and published. A watchdog reconnects stations that have gone silent or
ended. Next to the relay sit a wrapper around the `fpcalc` fingerprinting tool, which builds its
command line and parses its `NAME=value` output, and the old web player's reducer.

Modules, one concept each:

- `RingBufferSpec` (ring_buffer_spec.dfy) describes `RingBuffer` as a function from state to
  state. `RingBuffers.RingBuffer` (ring_buffer.dfy) is the class itself, over an `array<bv8>`.
  Each of its methods is proved to do exactly what the matching function says. The properties
  are proved about the functions.
- `StreamRelay` (relay.dfy): the module-level maps of server/src/stream.ts become the fields of
  one `Relay` object.
  - Responses and upstream connections are opaque identities.
  - The clock is a parameter.
  - What leaves the process is recorded in ghost logs: bytes written to a listener,
    publications to subscribers, and upstream connections dialled.
- Value-level pieces of stream.ts, each in its own module:
  - `Stations`: the station table and `checkStreamId`.
  - `Watchdog`: one watchdog step.
  - `NowPlaying`: the title split.
  - `Listeners`: fan-out, `deleteUserStream`'s splice, and `activeConnections`.
  - `OrderedMaps`: a JavaScript `Map` that remembers insertion order.
- `JsBuiltins`: the JavaScript built-ins the code relies on, on ASCII text, such as `indexOf`, `splice` with a
  negative index, `split`, `trim` and `toLowerCase`.
- `Fpcalc` (fpcalc.dfy): the argument list, the output parser and the error rule of
  server/src/fpcalc.ts.
- `Player` (player.dfy): `appReducer` and the station button guard of client/pages/index.tsx.

Behaviour of the code worth knowing:

- **The `buffer` route parameter.** The route is `/stream/:id` (server/src/index.ts:52), so in
  the deployed server the `buffer` parameter is always undefined and every listener is sent the
  lookback. The model keeps the parameter (`StreamRelay.WantsSnapshot`).
- **The clock in `streamMonitor`.** The source reads `Date.now()` once per station. The model
  uses one `now` for the whole pass.
- **The `end` and `closed` handlers.** They are identical, so both are `StreamRelay.Relay.OnStreamEnd`.
- **`RingBuffer.put` on overflow.** `compact` evicts exactly as many bytes as the incoming chunk
  holds, not as many as are needed. A chunk longer than what is stored drives `remaining_`
  negative, and that very `put` throws: the room check passes and Buffer.copy gets a negative
  target start (server/src/RingBuffer.ts:55-57). The RangeError escapes the `data` listener
  (server/src/stream.ts:95-102), nothing catches it and the server registers no
  `uncaughtException` handler, so the Node process ends on that first throw. The same holds for
  the TypeError `dataMonitor` throws for a station without a record (server/src/stream.ts:244).
  The relay model does not end: it reports `DataOutcome.Aborted` and carries on, so the states
  after such a throw (`StreamRelay.Relay.LookbackBroken`, `Listen` answering `Failed`) exist only
  in the model. As statements about `RingBuffer` on its own, the code is modelled and proved as
  written: once `remaining_` is negative, every later `put` and every snapshot's `Buffer.alloc`
  throws (`RingBufferSpec.OversizedChunkBreaksBuffer`, `RingBufferSpec.StaysBroken`).
  The threshold is half the capacity. Chunks of at most 65536 bytes never break the 131072-byte
  lookback, because the relay's buffers start with the cursor at 0
  (`RingBufferSpec.HalfCapacityChunksKeepWorking`). A chunk of 65537 bytes arriving when 65535 are
  held breaks it (`RingBufferSpec.JustOverHalfBreaks`). A single socket read in Node delivers at
  most 64 KiB, and the Icecast client passes on pieces of the audio it reads. The model takes as an
  assumption that no relayed chunk exceeds 65536 bytes; it does not derive that from the network
  layer. So the overflow is not claimed as a finding.
- **`get` and `readUInt64BE`.** `get` adds the read length to `remaining_` instead of
  subtracting it. Node's Buffer has no `readUInt64BE`, so the generated 64-bit reader always
  throws. Both are modelled as written.
- **The `data` handler.** It sets the station's status to 1 before `sendData` checks that the
  connection is current, so a stale connection still marks the station live.
- **Silent live stations are redialled without limit.** `streamMonitor` resets the failure count
  whenever the status is 1 (server/src/stream.ts:220). A station that is connected but sends no
  data is therefore redialled at every tick, forever (`Watchdog.SilentLiveStationRetriesForever`).
  This matches the comment of `dataMonitor` (server/src/stream.ts:235-236): silent streams are to be
  restarted. The ceiling of ten failures only limits stations whose stream has ended. It is not
  claimed as a finding.

## Model

| member | source | states |
|---|---|---|
| RingBufferSpec.Empty | server/src/RingBuffer.ts:14-24 | a new buffer has `size` zero bytes, cursor 0 and nothing stored |
| RingBuffers.RingBuffer.constructor | server/src/RingBuffer.ts:14-24 | the object's state is the empty state of that capacity, over fresh storage |
| RingBuffers.RingBuffer.Remaining | server/src/RingBuffer.ts:29-31 | returns `remaining_` |
| RingBufferSpec.Peek | server/src/RingBuffer.ts:37-41 | fails exactly when more than `remaining_` bytes are asked for; otherwise gives the first n stored bytes |
| RingBuffers.RingBuffer.Peek | server/src/RingBuffer.ts:37-41 | returns what `RingBufferSpec.Peek` gives for the current state |
| RingBufferSpec.Compact | server/src/RingBuffer.ts:66-75 | throws only when position + remaining is negative; otherwise the cursor becomes 0, `remaining_` drops by n, and the stored bytes lose their first n |
| RingBuffers.RingBuffer.Compact | server/src/RingBuffer.ts:66-75 | the in-place copy yields the state `RingBufferSpec.Compact` gives, or changes nothing when that throws |
| RingBuffers.RingBuffer.MoveDown | server/src/RingBuffer.ts:67-72 | the overlapping copy to offset 0 leaves `[start, stop)` at the front and the rest of the array unchanged |
| RingBufferSpec.Put | server/src/RingBuffer.ts:49-61 | keeps the capacity; once position + remaining is negative every put throws and changes nothing |
| RingBuffers.RingBuffer.Put | server/src/RingBuffer.ts:49-61 | the new state and the result are those `RingBufferSpec.Put` gives |
| RingBuffers.RingBuffer.Store | server/src/RingBuffer.ts:55-60 | the second space test and the copy produce `RingBufferSpec.Store`'s state and result |
| RingBufferSpec.Store | server/src/RingBuffer.ts:55-60 | no room exactly when the chunk would reach the last byte; a negative end throws; either way the state is unchanged; a stored chunk keeps the cursor, adds its length to `remaining_` and leaves a free byte |
| RingBuffers.RingBuffer.CopyIn | server/src/RingBuffer.ts:57 | `buffer.copy` writes the chunk at the offset and leaves every other byte as it was |
| RingBufferSpec.PutLeavesFreeByte | server/src/RingBuffer.ts:55 | a stored chunk always leaves position + remaining strictly below the capacity |
| RingBufferSpec.PutWithoutCompaction | server/src/RingBuffer.ts:52-58 | a chunk that fits is written at position + remaining, with nothing before it moved |
| RingBufferSpec.StoreAppends | server/src/RingBuffer.ts:55-60 | storing a chunk that fits appends it to the stored bytes |
| RingBufferSpec.PutAppends | server/src/RingBuffer.ts:49-61 | from a settled state, the chunk is appended, after evicting exactly \|chunk\| bytes when it did not fit |
| RingBufferSpec.PutOverflowThrows | server/src/RingBuffer.ts:52-57 | an overflowing chunk longer than what is stored throws, leaving the cursor at 0 and `remaining_` negative |
| RingBufferSpec.PutNoRoomAfterCompacting | server/src/RingBuffer.ts:52-55 | `false` is reported only after a compaction that has already changed the state |
| RingBufferSpec.PutFitting | server/src/RingBuffer.ts:49-61 | a fitting chunk keeps the cursor, grows `remaining_` by its length and is appended |
| RingBufferSpec.PutAllAppends | server/src/RingBuffer.ts:49-61 | while no compaction is needed, successive puts store the concatenation of the chunks |
| RingBufferSpec.SnapshotIsConcatenation | server/src/stream.ts:39-48 | chunks totalling less than the capacity are read back by a full peek, whole and in order |
| RingBufferSpec.PutAllBounded | server/src/RingBuffer.ts:49-61 | whatever chunks arrive, `remaining_` stays below the capacity |
| RingBufferSpec.OversizedChunkBreaksBuffer | server/src/RingBuffer.ts:52-57 | an oversized chunk throws, leaves `remaining_` negative, and every later put throws and changes nothing |
| RingBufferSpec.StaysBroken | server/src/RingBuffer.ts:52-57 | from a negative position + remaining, any sequence of puts leaves the state unchanged |
| RingBufferSpec.HalfCapacityChunksKeepWorking | server/src/RingBuffer.ts:49-61 | from a settled state with the cursor at 0, chunks of at most half the capacity keep it settled with the cursor at 0, so the buffer never breaks |
| RingBufferSpec.JustOverHalfBreaks | server/src/RingBuffer.ts:52-57 | at capacity 131072, a chunk of 65537 bytes after one of 65535 throws and leaves `remaining_` negative |
| RingBufferSpec.LookbackExample | server/src/stream.ts:58-62 | at capacity 131072, puts of 60000, 60000 and 40000 bytes keep 120000: the tail of the first chunk, then the second and third |
| RingBufferSpec.Rewind | server/src/RingBuffer.ts:81-86 | fails exactly when n exceeds the cursor; otherwise the cursor moves back n and `remaining_` grows by n |
| RingBuffers.RingBuffer.Rewind | server/src/RingBuffer.ts:81-86 | reports and performs what `RingBufferSpec.Rewind` gives |
| RingBufferSpec.Get | server/src/RingBuffer.ts:92-99 | yields the peeked bytes; on success both the cursor and `remaining_` grow by n |
| RingBuffers.RingBuffer.Get | server/src/RingBuffer.ts:92-99 | state and result as `RingBufferSpec.Get` gives |
| RingBufferSpec.GetString | server/src/RingBuffer.ts:104-113 | a consuming read: the bytes read followed by what remains are what was stored |
| RingBuffers.RingBuffer.GetString | server/src/RingBuffer.ts:104-113 | state and result as `RingBufferSpec.GetString` gives |
| RingBufferSpec.ReadUIntBE | server/src/RingBuffer.ts:118-128 | 16- and 32-bit reads below the end give a number below 256^width and advance the cursor; a 64-bit read or a read past the end throws and changes nothing |
| RingBuffers.RingBuffer.ReadUIntBE | server/src/RingBuffer.ts:118-128 | the big-endian loop computes what `RingBufferSpec.ReadUIntBE` gives |
| Stations.CheckStreamId | server/src/stream.ts:35-37 | finds a station exactly when the table has one with that id, and returns a station of the table with that id |
| Stations.Find | server/src/stream.ts:36 | `find`: Some exactly when some element has the id, and then the first such element |
| Watchdog.Initial | server/src/stream.ts:148 | the reset record: status 0, no failures, no timestamp |
| Watchdog.Tick | server/src/stream.ts:212-231 | one station's tick: the failure count stays within [0, 10]; a live station is reconnected iff stalled, with failures 1 or 0; an ended one iff below ten failures, one more each time |
| Watchdog.Ticks | server/src/stream.ts:211-232 | successive ticks ask for at most one reconnection each and never change the status flag |
| Watchdog.EndedStationGivesUp | server/src/stream.ts:220-230 | an ended, silent station is reconnected once per tick until ten failures, then never |
| Watchdog.SilentLiveStationRetriesForever | server/src/stream.ts:220-230 | a station still marked 1 but silent is reconnected at every tick, because its failure count is reset first |
| StreamRelay.MonitorPassTicksEachOnce | server/src/stream.ts:211-232 | a pass ticks every record exactly once from its state before the pass and dials the selected stations in key order |
| StreamRelay.MonitorPass | server/src/stream.ts:211-232 | a pass keeps exactly the stations of the table |
| StreamRelay.TickAll | server/src/stream.ts:212-231 | the loop computes the table and the connections of one watchdog pass, keeping failure counts within the ceiling |
| StreamRelay.Relay.StreamMonitor | server/src/stream.ts:211-232 | the status table becomes the pass's table and its connections are dialled |
| StreamRelay.ResetAllKeys | server/src/stream.ts:146-149 | after `initStreams` the table holds exactly the old keys plus the listed stations |
| StreamRelay.ResetAllKeepsOthers | server/src/stream.ts:146-149 | records of stations not listed are untouched |
| StreamRelay.ResetAllResets | server/src/stream.ts:146-149 | every listed station has its initial record |
| StreamRelay.TableIdsDistinct | server/src/stations.ts:1-44 | the station ids are distinct |
| StreamRelay.InitialConnects | server/src/stream.ts:146-147 | one connection per station, the i-th dialling the i-th station's id and url |
| StreamRelay.Relay.StartStation | server/src/stream.ts:146-148 | the station is dialled with its own id and url, and its record becomes the initial one |
| StreamRelay.Relay.StartStations | server/src/stream.ts:146-149 | the loop resets each station's record and dials it, in table order |
| StreamRelay.Relay.InitStreams | server/src/stream.ts:145-153 | every table station is reset and dialled, then the cache is published |
| StreamRelay.Relay.SendMetadataEvents | server/src/stream.ts:127-135 | every cached record is published, in insertion order |
| StreamRelay.SetOn | server/src/stream.ts:96-99 | sets only the flag of `id`, only if it has a record |
| StreamRelay.Relay.OnStreamEnd | server/src/stream.ts:111-123 | the station's status becomes 0 if it has a record; nothing else changes |
| StreamRelay.Relay.Attach | server/src/stream.ts:105-109 | the new response becomes the station's current upstream |
| NowPlaying.ParseTitle | server/src/stream.ts:77-86 | the first piece fills the title on KCRW/WUMB and the artist elsewhere, so that field is always defined |
| NowPlaying.TwoPieces | server/src/stream.ts:77-86 | `A-B` gives artist A and title B on standard stations, the reverse on title-first ones, both trimmed |
| NowPlaying.ExtraPiecesDropped | server/src/stream.ts:79-83 | text after a second hyphen is ignored |
| NowPlaying.OnePiece | server/src/stream.ts:77-86 | without a hyphen one field is set and the other left undefined |
| NowPlaying.ReversalSwapsFields | server/src/stream.ts:78-86 | a title-first station and a standard one get the same two fields swapped |
| NowPlaying.StandardStationExample | server/src/stream.ts:82-85 | "Artist - Title" on bbc6 gives artist "Artist" and title "Title" |
| NowPlaying.TitleFirstStationExample | server/src/stream.ts:78-81 | the same tag on kcrw gives title "Artist" and artist "Title" |
| NowPlaying.OnlyKcrwTitleFirst | server/src/stream.ts:78 | of the served stations, only kcrw takes the title-first branch; the other eight are artist-first |
| StreamRelay.Relay.OnMetadata | server/src/stream.ts:73-93 | a non-empty title is parsed, cached and published once; an absent or empty one changes nothing |
| StreamRelay.Relay.DataMonitor | server/src/stream.ts:234-246 | a non-empty chunk stamps the record with `now`; with no record it throws; an empty chunk changes nothing |
| StreamRelay.Relay.LookbackBuffer | server/src/stream.ts:58-60 | a station's buffer is created empty with capacity 131072 the first time, then reused |
| StreamRelay.Relay.StoreChunk | server/src/stream.ts:58-62 | the station's lookback changes as `RingBufferSpec.Put` says; every other buffer is untouched |
| StreamRelay.Relay.FanOutChunk | server/src/stream.ts:64-68 | one write of the chunk to each listener, in list order |
| StreamRelay.Relay.RelayChunk | server/src/stream.ts:58-68 | the chunk reaches the listeners iff the lookback put did not throw |
| StreamRelay.Relay.SendData | server/src/stream.ts:50-69 | stale-connection data is ignored with nothing changed; otherwise it stamps, stores, then fans out unless a step throws |
| StreamRelay.Relay.OnData | server/src/stream.ts:95-102 | the station is marked live whichever connection sent the chunk, and a stale one changes nothing else; a current one's record is also stamped for a non-empty chunk, its lookback becomes `RingBufferSpec.Put`'s state, the chunk goes to every listener unless the stamp or the put throws, and other buffers are untouched |
| Listeners.FanOutSnoc | server/src/stream.ts:65-67 | a listener added at the end receives the chunk after all others |
| Listeners.FanOut | server/src/stream.ts:65-67 | one write per listener |
| Listeners.FanOutWrites | server/src/stream.ts:65-67 | the i-th write goes to the i-th listener and carries the whole chunk |
| Listeners.FanOutDelivers | server/src/stream.ts:65-67 | each listener receives the chunk once per occurrence in the list |
| Listeners.ListenerHearsEveryChunk | server/src/stream.ts:64-68 | a listener on the list once receives every chunk, in order |
| Listeners.TwoListenersHearTheSame | server/src/stream.ts:64-68 | two listeners of one station are sent identical byte sequences |
| Listeners.ReceivedByAppend | server/src/stream.ts:64-68 | what a listener receives from two logs is the concatenation |
| Listeners.RemoveClient | server/src/stream.ts:137-143 | a present listener's first occurrence is removed and the rest keep their order; for an absent one `splice(-1, 1)` drops the last entry |
| Listeners.SecondRemovalDropsAnotherListener | server/src/stream.ts:191-199 | the second of `close` and `end` removes a different listener, the last one on the list |
| Listeners.RemovalKeepsOthers | server/src/stream.ts:137-143 | after a removal the other listeners still receive every chunk, and the removed one one copy fewer |
| StreamRelay.Relay.DeleteUserStream | server/src/stream.ts:137-143 | the list loses what `RemoveClient` removes, and `activeConnections` drops by one when the list was non-empty |
| Listeners.ActiveAfterSet | server/src/stream.ts:155-162 | replacing one list changes `activeConnections` by the difference in its length |
| Listeners.SumLengthsUpdate | server/src/stream.ts:157-159 | the sum of list lengths changes only by the replaced list's change |
| Listeners.SumLengthsCounts | server/src/stream.ts:157-159 | the sum of list lengths is at least each list's length, and zero exactly when every list is empty |
| Listeners.ActiveConnectionsCounts | server/src/stream.ts:155-162 | `activeConnections` is at least each station's listener count, and zero exactly when no station has a listener |
| StreamRelay.Relay.SendInitialBuffer | server/src/stream.ts:39-48 | a listener is sent the whole lookback when there is one; a negative `remaining()` throws |
| StreamRelay.Relay.AddListener | server/src/stream.ts:172-180 | the listener is appended to the station's list, which is created empty if missing |
| StreamRelay.Relay.Listen | server/src/stream.ts:171-199 | append, then the lookback if the parameter asks for it, then publish the cache unless the lookback threw |
| StreamRelay.Relay.Subscribe | server/src/stream.ts:164-205 | an unknown id gets 404 `{"status":"Not found"}` with nothing changed; a known one is handled by `Listen` |
| StreamRelay.Relay.constructor | server/src/stream.ts:24-33 | all five maps start empty |
| Fpcalc.InputArg | server/src/fpcalc.ts:45-50 | the input argument is `-` exactly for a stream, or for the path `-` itself |
| Fpcalc.BuildArgs | server/src/fpcalc.ts:30-50 | the list decodes back to the requested length, `-ts`, chunk and input; the input is last; the call itself sets `options.stdin` iff the input is a stream |
| Fpcalc.DecodeRequested | server/src/fpcalc.ts:33-50 | decoding the flag groups gives back the options that were truthy |
| Fpcalc.TakeLengthArgs | server/src/fpcalc.ts:33-35 | the `-length` group reads back as the length iff it is non-zero |
| Fpcalc.TakeTsArgs | server/src/fpcalc.ts:37-39 | the `-ts` flag reads back as the option |
| Fpcalc.ParseData | server/src/fpcalc.ts:131-137 | the name is the lower-cased text before the first `=` and the value the text after it; without `=`, `slice(0, -1)` and `slice(0)` |
| Fpcalc.ParseDataRoundTrip | server/src/fpcalc.ts:131-137 | `name=value` with a lower-case name without `=` parses back to the pair |
| Fpcalc.Lines | server/src/fpcalc.ts:116 | at least one line; no line contains a newline |
| Fpcalc.LinesOfSplit | server/src/fpcalc.ts:116 | one line per piece of the text between newlines; every line but the last loses a final carriage return |
| Fpcalc.LinesOfJoin | server/src/fpcalc.ts:116 | cutting joined lines that hold no newline, and no carriage return before a break, gives them back |
| Fpcalc.LinesOfOutput | server/src/fpcalc.ts:116 | printed output cuts into the printed lines and one empty line after the final newline |
| Fpcalc.Fields | server/src/fpcalc.ts:118-120 | at most one field per line |
| Fpcalc.FieldsOfNonEmptyLines | server/src/fpcalc.ts:118-120 | with no empty line, the i-th field is `parseData` of the i-th line |
| Fpcalc.FieldsOfEmptyLines | server/src/fpcalc.ts:118 | empty lines give no field at all |
| Fpcalc.FieldsOfRendered | server/src/fpcalc.ts:118-137 | printed printable fields parse back to the same fields, in order |
| Fpcalc.Record | server/src/fpcalc.ts:122-125 | a name is a key iff some field carries it |
| Fpcalc.RecordLastWins | server/src/fpcalc.ts:122-125 | the last field with a name decides its value |
| Fpcalc.Parse | server/src/fpcalc.ts:113-127 | the loop yields the record of the non-empty lines' fields |
| Fpcalc.ParseOutputRoundTrip | server/src/fpcalc.ts:113-137 | printed `NAME=value` lines parse back to the record of those fields |
| Fpcalc.RunError | server/src/fpcalc.ts:91-106 | no error iff stderr does not begin `ERROR:` and the exit code is 0; otherwise the message for the first reported error |
| Fpcalc.Run | server/src/fpcalc.ts:61-106 | with a pass-through stream: fails exactly on a run error, otherwise yields the parsed stdout |
| Fpcalc.DiscardPassesNothing | server/src/fpcalc.ts:79 | `mapSync` with a function returning undefined passes no chunk on |
| Fpcalc.MapSync | server/src/fpcalc.ts:79 | at most one output per chunk; a function returning undefined for every chunk passes nothing, one returning each chunk passes all |
| Fpcalc.KeepPassesAll | server/src/fpcalc.ts:79 | a pass-through stream passes on exactly the chunks |
| Fpcalc.Text | server/src/fpcalc.ts:87 | no chunks give the empty text; a single chunk is its own text; every chunk fits in the text, and the first is a prefix of it |
| Fpcalc.TextAppend | server/src/fpcalc.ts:87 | the text of two runs of chunks is the concatenation of their texts |
| Fpcalc.RunAsWritten | server/src/fpcalc.ts:71-109 | as written: fails, with "something went wrong", exactly when stderr reports an error and arrives before stdout ends; otherwise the record is empty |
| Fpcalc.AsWrittenDropsOutput | server/src/fpcalc.ts:79-87 | as written, a run whose stderr reports no error gives the empty record, whatever fpcalc printed and whatever its exit code |
| Fpcalc.DurationAsWritten | server/src/fpcalc.ts:79 | as written, a clean run printing `duration=10` gives `{}` |
| Fpcalc.DurationIntended | server/src/fpcalc.ts:79 | with a pass-through stream, the same output gives `{duration: "10"}` |
| Fpcalc.ExitFailureAsWritten | server/src/fpcalc.ts:99-106 | as written, exit code 1 with a clean stderr gives the empty record and no error |
| Fpcalc.ExitFailureIntended | server/src/fpcalc.ts:99-106 | with the stream ended in `close`, the same run reports "fpcalc failed" |
| Player.AppReducer | client/pages/index.tsx:49-75 | never playing and loading at once; playing iff `playing`; loading iff `start`; station from the payload, cleared by any other action |
| Player.ReducerForgetsState | client/pages/index.tsx:49-75 | every field is overwritten, so the next state depends only on the action |
| Player.PlayStation | client/pages/index.tsx:80-84 | a button dispatches `start` with its station iff that station is not the current one |
| Player.SecondClickDoesNothing | client/pages/index.tsx:80-84 | after a dispatched click, a second click on the same button dispatches nothing |
| Player.ClickStartsLoading | client/pages/index.tsx:49-84 | a click leaves the player loading the clicked station, not playing |
| OrderedMaps.OrderedMap.Set | server/src/stream.ts:148 | `set` or assignment: the value is stored under the key; an existing key keeps its place, a new one goes last, and the keys stay distinct |
| OrderedMaps.OrderedMap.Values | server/src/stream.ts:128 | iteration yields one value per key, in key insertion order |
| JsBuiltins.SpliceOne | server/src/stream.ts:141 | `splice(i, 1)`: removes element i, or the last element for -1 |
| JsBuiltins.IndexOf | server/src/stream.ts:140 | -1 iff absent; otherwise the first position of the element |
| JsBuiltins.SplitJoin | server/src/fpcalc.ts:116 | splitting joined separator-free pieces gives them back |
| JsBuiltins.Split | server/src/fpcalc.ts:116 | at least one piece; no piece holds the separator; joining the pieces with it gives the text back |
| JsBuiltins.Slice | server/src/fpcalc.ts:134-135 | within bounds, the sub-sequence between the indices; never longer than the input |
| JsBuiltins.ToLowerCase | server/src/fpcalc.ts:134 | same length, each ASCII capital lowered and every other character kept |
| JsBuiltins.Trim | server/src/stream.ts:80-85 | removes exactly the leading and trailing ASCII white space and line terminators |

## Left out
- StreamRelay.Relay.OnData, SendData, RelayChunk: `DataOutcome.Aborted` only records that the `data` listener threw; the end of the Node process that the uncaught exception causes is not modelled, so the relay's states after an `Aborted` outcome (`LookbackBroken`, `SendInitialBuffer` failing, `Listen` answering `Failed`) are reached only in the model. The same goes for `StreamRelay.Relay.DataMonitor` throwing for a station without a record.
- Process spawning, piping, event emitters, sockets and HTTP headers are not modelled. Chunks,
  exit codes and stderr text are parameters. The `Content-Type` header and `next()` are not
  represented.
- `setInterval` timers are not modelled. `StreamMonitor` and `SendMetadataEvents` are single
  calls, and time is a parameter.
- The pubsub transport, the GraphQL schema and resolvers, the context and permissions files,
  the seed script and the newer client under client/src are not part of this model.
- `icy.get` and `icy.parse` are not modelled. The parsed `StreamTitle` and the connection
  identity are inputs to `OnMetadata` and `Attach`.
- fpcalc.ts:55-59 spawns a second fpcalc process and pipes stdin into it. That duplicate process
  and its output are not modelled. Only the process started by `run` is.
- Fpcalc.Run: the callback's `once` wrapper and the order in which stderr and `close` arrive are
  reduced to "the first reported error wins, stderr before the exit code".
- Fpcalc.RunAsWritten: the event order is reduced to one flag, `stderrFirst`, saying whether
  stderr's error arrives before stdout ends. The behaviour of event-stream (`mapSync`, `split`,
  `pipeline`, the default `end` of `pipe`) and of `once` is taken from those libraries'
  documented behaviour. Their code and Node's stream internals are not part of this model.
- RingBufferSpec.Compact: a compaction whose source start lies beyond the end of the backing bytes
  copies nothing, as `Buffer.copy` did in older Node versions. Newer versions throw there. In the
  relay this only happens for a chunk longer than the capacity, where those versions would throw
  and leave the state unchanged instead.
- Fpcalc.Record: the `reduce` result is an object, so key order and special keys such as
  `__proto__` are not captured. The result is modelled as a map.
- Fpcalc.BuildArgs: only integer options are modelled. NaN or fractional `length` and `chunk`
  values, and truthiness beyond zero and non-zero, are not captured.
- Fpcalc.BuildArgs: `pipesStdin` says only whether the call itself sets `options.stdin`
  (server/src/fpcalc.ts:47). A `stdin` stream the caller already put in the options is piped
  whatever the input (fpcalc.ts:57-59 and 82-84); that case is not modelled. The write into the
  caller's options object is not modelled either.
- JsBuiltins.Trim, JsBuiltins.ToLowerCase: text is assumed to be ASCII. ECMAScript's non-ASCII
  white space and line terminators (U+00A0, U+FEFF, U+2028, U+2029 and the other Zs characters)
  are not trimmed, and its full Unicode case mapping is not captured. For example, in
  "Artist\u00A0- Title" on bbc6, JavaScript trims the artist to "Artist", but
  `NowPlaying.ParseTitle` keeps the no-break space.
- RingBuffers.RingBuffer.GetString: returns the bytes. Decoding them with the caller's encoding
  is not modelled.
- RingBuffers.RingBuffer.Peek: copies into a fresh sequence rather than into a caller's Buffer.
  Node's clamping of a copy that overruns the target buffer is not captured.
- StreamRelay.Relay.Stats is modelled as the pair of `activeConnections` and the status table.
  It has no contract of its own. The count is covered by `ActiveAfterSet`, `ActiveConnectionsCounts`
  and `DeleteUserStream`.
- The JavaScript engine's integer width is not modelled. Counters and timestamps are unbounded
  integers, which does not matter at the magnitudes involved.

## Findings

| source | as written | input that shows it | evidently intended | confidence | as-written member | corrected member |
|---|---|---|---|---|---|---|
| server/src/fpcalc.ts:79 | the stream that should pass fpcalc's stdout through is `es.mapSync(function () {})`; event-stream's `mapSync` drops every chunk the function maps to undefined | a clean run printing `duration=10` reports `{}` to the callback | a pass-through stream, so the callback receives `{duration: "10"}` | medium, not executed | Fpcalc.DurationAsWritten | Fpcalc.DurationIntended |
| server/src/fpcalc.ts:87-106 | stdout is piped into the returned stream without `{end: false}`, so that stream ends when stdout does, before `close`; `reduce` then delivers `{}` and `once` drops the later "fpcalc failed" | exit code 1 with an empty stderr reports `(null, {})` | the error "fpcalc failed", as the comment at lines 76-78 describes | medium, not executed (rests on event-stream's default end) | Fpcalc.ExitFailureAsWritten | Fpcalc.ExitFailureIntended |
