# Verification of the codec, transport and relay logic

A Dafny model of the parts of this repository whose correctness is hardest to
see by reading, with proofs of what they promise. `dafny verify dfyconfig.toml`
checks everything.

**HamSeda v4 codec** (`tools/hamseda_arith.py`, `tools/hamseda_v4.py`).
`RangeCoder` is the 32-bit carryless range coder, `FreqTables` the adaptive
tables, `RowModels` the per-row PPM models, `Codec` the four-level model with
its capped dictionary, `Learning` what a column teaches, count by count,
`RawPacking` the 10-bit fallback, `BlockCodec` the flagged block, `Persistence`
saving and loading, `Sessions` and `SessionLaws` the ack-gated wrapper. `TableObjects`, `CoderObjects` and `CodecObjects` hold the same things
as classes that change in place, each method proved equal to the value-level
function. The main results: the reader finds every point inside the interval
that was written, for all interval sequences; a block decodes to exactly the
columns sent and leaves both ends in equal states, whichever stream shipped;
and two sessions stay equal through every schedule of losses, rejections,
deliveries and reloads, a block that only one end commits being harmless if and
only if it teaches nothing.

**Huffman lengths** (`tools/morse_layer_test.py`). `Huffman` proves that no
lengths meeting the Kraft inequality cost less than the merges, `HuffmanCodes`
that every prefix-free code meets it, `HuffmanMerge` that the merge loop
returns lengths of an actual prefix-free code that fills the code space.

**Stream lane of the hub** (`tools/t2/journey_hub.py`). `StreamLane` is a state
machine with one step per lock section and any number of competing sessions;
`StreamResume` an upload resumed among them, `StreamVerdicts` what every section
answers and whom each verdict is about; `StreamObjects` the hub's counters and a
session's fields as objects. In every interleaving only the newest session
appends, every part is a prefix of its payload although the offset check runs
outside the lock, and the counters are exact. From a hello on, whatever the
other sessions do between its steps short of another hello, a session passes
the check at the announced offset and ends with exactly the payload stored.

**DNS valve** (`tools/t2/txt_query_wire.py`, `tools/t2/txt_query_server.py`).
`Base32` (section 6 of RFC 4648), `DottedNames`, `QueryNames`, `DnsPackets`
(sections 3.1, 3.3.14, 4.1.1 and 4.1.4 of RFC 1035), `Fragments`, and the
responder in `ValveServer`, `ValveDelivery` and `ValveObjects`; `DnsLayout` is the
packets byte by byte, `WireLaws` what the readers make of any input. What a session
completes on every run is given exactly, its polls and the traffic of other
sessions included: the payload never from a proper subset of its fragments, and
always when all arrive in time and no poll falls among them, in any order and any
number of times; beside it only a poll's empty payload. Queries and answers
round-trip; decoding ends on every buffer; and no queued byte is lost, repeated
or reordered.

**Relay worker** (`tools/cloudflare_relay_worker/src`). `BroadcastPaths`,
`Archive`, `ArchiveRuns`, `ArchiveCounters`, `ArchiveVerdicts` and
`ArchiveObjects` for the write-once archive; `RelayLanes`, `RelayLaws`,
`RelayOrder` and `RelayObjects` for the
bounded queues between two peers. An accepted write holds its address until its
retention ends, names are true, and the counters never exceed what is stored;
it is proved exactly when they stand for the entries counted, and that what is
live then stays within the ceilings. Only the oldest frames are ever dropped, and
it is proved exactly when frames stay in order.

**Classic algorithms.** `PlanGraph` and `PlanCheck` (dependency order and
derived states), `StreamScan` (search over block reads), `NewsCbor` and
`CborLaws` (the CBOR subset), `RankTables`, `TokenCoders`, `TokenLaws`, `TokenRuns` and
`TokenObjects` (rank coding), `MediaQueue` and `MediaLaws` (token bucket and
round robin).

`Powers`, `Numerals`, `ByteStrings`, `DecimalText`, `Sequences` and `Wrappers`
serve the rest.

Where the code does less than it promises, or than a reader may expect, the code
is followed and the exact condition is proved:

- The archive's counters are meant to bound what a shard holds. They stand for
  the entries counted since the accounting window opened, until an expired entry
  is forgotten that they no longer contain: its bytes are then taken off a count
  that never had them, and the shard's ceilings can be passed. One forget keeps
  the counters true if and only if it meets the guard `Refundable`: the entry
  expired no earlier than the window opened, in a window that has not rolled, or
  nothing is counted at all (`ArchiveCounters.ForgetTallied`). Over a whole run
  the counters stay true if and only if every forget meets it
  (`ArchiveCounters.TalliedExactly`), and then what is live never passes the byte
  and post ceilings (`ArchiveCounters.CeilingsHold`). `ArchiveRuns.CounterDrifts`
  gives runs that fail after the window rolled,
  `ArchiveRuns.CounterDriftsInWindow` runs that fail inside one. The counters
  never exceed what is stored, so a refusal is never spurious.
- A relay lane can let a newer frame overtake an older one in two ways. A flush
  keeps the order of its backlog if and only if the socket takes no frame after
  refusing one (`RelayOrder.FlushOrder`, for every backlog). A send goes down an
  attached socket even when frames are queued, so it keeps the order if and only
  if nothing is queued or the frame is not taken (`RelayOrder.SendOrder`). A run
  keeps the order throughout if and only if each of its flushes and sends does
  (`RelayOrder.OrderExactly`); `RelayOrder.FlushOvertakes` and
  `RelayOrder.SendOvertakes` are runs of three steps that do not.
- A query name builds for sessions and nonces its own parser refuses
  (defect 2 of `docs/OPEN_DEFECTS_txt_query_lane.md`, there of the Dart twin). It
  parses if and only if the
  session has six characters, the nonce four, and neither has a dot
  (`QueryNames.NameRoundTrip`); `QueryNames.BuiltUnreadable` is a name that does
  not, and `Fragments.EncodeQueries` says what each of its names is read as. In a
  packet empty labels are left out, which changes the condition
  (`ValveObjects.WireToFragment`).
- The parser does not look at the width of a number's label (defect 1 there): one
  number has a label of every width (`QueryNames.NumberAliases`), and labels that
  read the same differ beyond case if and only if their widths do
  (`Base32.LabelIntInjective`).
- An answer with the full 1150 bytes never fits the 1232 a query advertises
  (defect 3 there); `ValveObjects.FullAnswerTooLong` gives the exact room.
- The client's poll is the empty payload's fragment on the upload's own session.
  Over fragments already held it completes the empty payload and drops them if and
  only if their numbers have no gap, and otherwise takes the place of fragment 0
  (`ValveDelivery.PollStored`); `ValveDelivery.PollDropsUpload` is a run in which
  all three fragments arrive and the payload does not complete.
- The DNS responder does not remember what it completed: a second copy of every
  fragment completes the payload again (`ValveDelivery.SecondCopy`), as often as
  `ValveDelivery.CompletesExactly` says.
- A codec session whose acknowledgement is lost is out of step as soon as the
  block taught anything (`Sessions.ExchangeInStep`), in particular a new column
  while the dictionary has room (`Sessions.NewColumnDrifts`).

## Model

| member | source | states |
|---|---|---|
| RangeCoder.XorTest | tools/hamseda_arith.py:33 | the exclusive-or test of the loop holds exactly when both ends of the span have the same top byte |
| RangeCoder.ShiftedLive | tools/hamseda_arith.py:31-41 | one turn of the normalisation keeps 0 < range, low + range <= 2^32 and low >= 2^24 at the sum 2^32; no mask loses a carry, and the two-phase measure falls, so the loop ends |
| RangeCoder.Normalized | tools/hamseda_arith.py:31-41 | normalisation always ends in a span whose top bytes differ and whose range is at least 2^16 |
| RangeCoder.NarrowedInside | tools/hamseda_arith.py:43-47 | range // tot is at least 1 and the selected slice lies inside the current span without wrapping |
| RangeCoder.StreamInside | tools/hamseda_arith.py:31-53 | by backward induction over the stream: the 32-bit window of all bytes still to come lies inside the current span |
| RangeCoder.ReaderStep | tools/hamseda_arith.py:64-84 | a reader that tracks the writer gets a point inside the written interval and tracks it again after consuming |
| RangeCoder.CoderRoundTrip | tools/hamseda_arith.py:24-84 | for every sequence of codable intervals the reader run on the writer's finished bytes has the writer's low and range before every symbol, reads a point inside each interval in turn, and stops exactly where the bytes stop |
| CoderObjects.BitWriter.Normalize | tools/hamseda_arith.py:31-41 | the loop appends exactly the normalised bytes and ends in the normalised span |
| CoderObjects.BitWriter.Encode | tools/hamseda_arith.py:43-47 | the writer's fields stay the run of all intervals coded so far |
| CoderObjects.BitWriter.Finish | tools/hamseda_arith.py:49-53 | the finished bytes are the stream the reader theorem is about |
| CoderObjects.BitReader.Normalize | tools/hamseda_arith.py:64-75 | the reader's loop makes the same turns as the writer's and stays inside its padded data |
| CoderObjects.BitReader.DecodeFreq | tools/hamseda_arith.py:77-79 | the point is the quotient of code - low by the step, below the total |
| CoderObjects.BitReader.Consume | tools/hamseda_arith.py:81-84 | consuming moves the reader to the span of the consumed interval |
| FreqTables.AddedGood | tools/hamseda_arith.py:94-108 | an add keeps the exact total below 2^16 and all frequencies at least 1, halved or not |
| FreqTables.CumHalved | tools/hamseda_arith.py:101-108 | halving at least halves the total beyond one count per symbol slot |
| FreqTables.PrecisionNeverRunsOut | tools/hamseda_arith.py:87-125 | on every run of adds over at most 4096 symbols the table knows exactly the symbols added, the total is the sum of the frequencies, stays below 2^16, and range // tot stays at least 1 |
| FreqTables.IntervalCodable | tools/hamseda_arith.py:110-116 | every symbol's interval can be coded |
| FreqTables.OwnerUnique | tools/hamseda_arith.py:118-125 | slices are disjoint, so a point names one symbol |
| FreqTables.SymbolAt | tools/hamseda_arith.py:118-125 | every point below the total lies in the slice of the symbol returned |
| FreqTables.ReadFromTracks | tools/hamseda_arith.py:77-84 | reading with a table returns the symbol whose interval was written |
| TableObjects.FreqTable.Add | tools/hamseda_arith.py:94-108 | the in-place add, halving included, gives the specified table |
| TableObjects.FreqTable.Halve | tools/hamseda_arith.py:101-108 | the halving loop halves every count and recounts the total |
| TableObjects.FreqTable.IntervalFor | tools/hamseda_arith.py:110-116 | the walk over sorted keys finds the cumulated interval, or None for an absent symbol |
| TableObjects.FreqTable.SymbolAtPoint | tools/hamseda_arith.py:118-125 | the walk finds the symbol that owns the point, with its interval |
| RowModels.UpdatedGood | tools/hamseda_arith.py:131-141 | an update keeps context and global tables codable |
| RowModels.SymbolCodable | tools/hamseda_arith.py:144-160 | every interval of the escape chain can be coded |
| RowModels.ReadSymbolTracks | tools/hamseda_arith.py:144-175 | decoding a symbol through the escape chain returns the symbol encoded |
| Codec.LearnedGood | tools/hamseda_v4.py:127-143 | learning keeps every table and the dictionary within its cap, on all three branches |
| Codec.Step | tools/hamseda_v4.py:146-164 | one frame's update keeps the state invariant and the row count |
| Codec.Taught | tools/hamseda_v4.py:146-164 | the update walk over any columns keeps the state invariant |
| Learning.AddsOne | tools/hamseda_arith.py:94-108 | an add raises the symbol by 32 and the escape by one exactly when the symbol is new, and halves every count with floor 1 exactly when the total would reach 2^16 |
| Learning.StepTeaches | tools/hamseda_v4.py:127-164 | a column with an id counts once in the tables of the last one and, while 16384 allow it, the last two columns and in the dictionary table, and one that the full dictionary does not know in none; rows learn exactly the unknown columns; every other table stays |
| Learning.ThreeAlike | tools/hamseda_v4.py:127-164 | one column three times from the start: the counts of its tables |
| Learning.FrameIsChain | tools/hamseda_v4.py:222-257 | a column is coded by one escape for every table that does not know it, then its slice, and by its rows' own chains exactly when none knows it |
| Learning.SymbolIsChain | tools/hamseda_arith.py:144-160 | a symbol of a row is coded by the escape chain through its context, the row and 1024 |
| CodecProofs.BlockCodable | tools/hamseda_v4.py:222-257 | every interval the adaptive encoder writes can be coded |
| CodecProofs.ReadFrameTracks | tools/hamseda_v4.py:260-301 | the decoder's four-level descent finds the column the encoder coded |
| CodecProofs.StepsAgree | tools/hamseda_v4.py:127-164 | the decoder's update after a frame equals the encoder's |
| CodecProofs.ReadBlockTracks | tools/hamseda_v4.py:260-301 | a tracking decoder reads all columns and ends in the encoder's state |
| CodecProofs.AdaptiveRoundTrip | tools/hamseda_v4.py:222-301 | the adaptive stream of any columns decodes to them, with equal states |
| RawPacking.PackedSymbol | tools/hamseda_v4.py:180-218 | each packed symbol is read back at its place |
| RawPacking.PackRoundTrip | tools/hamseda_v4.py:180-218 | unpacking undoes packing on every list of 10-bit symbols |
| RawPacking.PushSymbol | tools/hamseda_v4.py:184-190 | the inner loop of the packer emits every whole byte and keeps the rest |
| RawPacking.Flush | tools/hamseda_v4.py:191-192 | the padded last byte completes the packed string |
| RawPacking.PullSymbol | tools/hamseda_v4.py:208-216 | the inner loop of the unpacker yields the next symbol, or None exactly where the body ends early |
| BlockCodec.BlockRoundTrip | tools/hamseda_v4.py:167-219 | decode of encode returns exactly the columns and the taught state, from every good state, on both paths |
| BlockCodec.BlockCost | tools/hamseda_v4.py:167-194 | a block is one flag byte and the shorter stream, and the flag says which |
| BlockCodec.FlatAt | tools/hamseda_v4.py:181-192 | symbol by symbol, which row of which column the plain packing holds where |
| BlockCodec.Rejections | tools/hamseda_v4.py:197-219 | an unknown flag and a short body, each rejected exactly |
| Persistence.PairTextParses | tools/hamseda_v4.py:104-123 | the text of a pair key parses back to the pair |
| Persistence.KeyedRoundTrip | tools/hamseda_v4.py:79-88 | a map saved under text keys loads as itself |
| Persistence.ByColRebuilt | tools/hamseda_v4.py:115-118 | rebuilding the dictionary from its columns gives the index back |
| Persistence.StateRoundTrip | tools/hamseda_v4.py:90-124 | every good state loads from what it saved as itself |
| Sessions.ExchangeInStep | tools/hamseda_v4.py:304-330 | one block lost, rejected, delivered or committed by one end only, or one reload: no end raises, what arrives decodes exactly, and the ends are equal again if and only if a block committed by one end taught nothing |
| Sessions.NewColumnDrifts | tools/hamseda_v4.py:304-330 | a block with a new column, while the dictionary has room, puts the ends out of step when only one commits it |
| Sessions.ScheduleInStep | tools/hamseda_v4.py:304-330 | over every schedule the ends are equal after every event if and only if each block committed by one end teaches nothing, and then no end raises and every arriving block decodes exactly |
| Sessions.ConversationInStep | tools/hamseda_v4.py:304-330 | the same for two new sessions; with no block committed by one end only they always stay equal |
| SessionLaws.CallMeans | tools/hamseda_v4.py:304-330 | no call changes the committed state but a commit with a block pending, and what is pending is the lesson of the last block made or read |
| SessionLaws.NothingPending | tools/hamseda_v4.py:323-330 | of commits and rollbacks in a row only the first can commit |
| SessionLaws.OnlyCommitsGrow | tools/hamseda_v4.py:304-330 | without a commit no calls change the committed state |
| CodecObjects.V4State.Learn | tools/hamseda_v4.py:127-143 | the in-place update changes exactly the tables the specification changes |
| CodecObjects.UpdateWalk | tools/hamseda_v4.py:146-164 | the walk teaches the state object the columns |
| CodecObjects.EncodeAdaptive | tools/hamseda_v4.py:222-257 | the encoder loop gives the adaptive bytes and the taught state, or fails on a column of wrong arity |
| CodecObjects.DecodeAdaptive | tools/hamseda_v4.py:260-301 | the decoder loop reads what the specification reads, on any bytes |
| CodecObjects.PackColumns | tools/hamseda_v4.py:181-192 | the packing loops give the packed symbols |
| CodecObjects.UnpackColumns | tools/hamseda_v4.py:204-217 | the unpacking loops give the grouped symbols, or fail where the body ends |
| CodecObjects.Encode | tools/hamseda_v4.py:167-194 | encode returns the specified block and teaches the state; on an arity error the state is unchanged |
| CodecObjects.Decode | tools/hamseda_v4.py:197-219 | decode does what the specification says on every byte string, errors included |
| CodecObjects.Session.EncodeBlock | tools/hamseda_v4.py:311-315 | encoding works on a clone and leaves the committed state alone |
| CodecObjects.Session.DecodeBlock | tools/hamseda_v4.py:317-321 | decoding works on a clone and leaves the committed state alone |
| CodecObjects.Session.Commit | tools/hamseda_v4.py:323-327 | a commit installs the pending state, or fails without one |
| CodecObjects.Session.Rollback | tools/hamseda_v4.py:329-330 | a rollback drops the pending state |
| Huffman.LightestPaired | tools/morse_layer_test.py:31-36 | some lengths at most as costly put the two lightest trees side by side |
| Huffman.MergesAreCheapest | tools/morse_layer_test.py:31-39 | no lengths that meet the Kraft inequality cost less than the merges |
| HuffmanCodes.KraftInequality | tools/morse_layer_test.py:21-40 | every prefix-free code meets the Kraft inequality |
| HuffmanCodes.NoCheaperCode | tools/morse_layer_test.py:21-40 | no prefix-free code for the counts takes fewer bits than the merges cost |
| HuffmanMerge.Turn | tools/morse_layer_test.py:31-39 | one turn keeps a prefix-free word per symbol, full code space per tree, and the sum of bits spent and bits to come |
| HuffmanMerge.HuffmanLengths | tools/morse_layer_test.py:21-40 | the returned lengths belong to a prefix-free code, meet Kraft with equality from two symbols on, and are minimal among all prefix-free codes |
| StreamLane.ActGood | tools/t2/journey_hub.py:989-1102 | every lock section keeps the store and its own session good |
| StreamLane.OtherSession | tools/t2/journey_hub.py:862-865 | a section of one session keeps what every other session knows |
| StreamLane.LaneSafe | tools/t2/journey_hub.py:676-711 | in every interleaving each part is a prefix of its payload, completed bundles are whole with exactly one event each, bytes_carried is the total of all parts, records the number of completed ids |
| StreamLane.OnlyNewestAppends | tools/t2/journey_hub.py:1071-1085 | a part grows only by the session of the newest generation, exactly from where the part ends |
| StreamVerdicts.Greets | tools/t2/journey_hub.py:1016-1024 | a hello takes the next generation and counts one connection, once a session |
| StreamVerdicts.Heads | tools/t2/journey_hub.py:1036-1068 | each refusal of a header exactly when it is due, and otherwise the record starts at its offset; only a fair claim of a new id is stored |
| StreamVerdicts.Appends1 | tools/t2/journey_hub.py:1071-1085 | a slice goes to the end of its part and is counted once, or preempts |
| StreamVerdicts.Finishes | tools/t2/journey_hub.py:1092-1096 | the end of a record completes its bundle once, with both verdicts on the session's key, or preempts |
| StreamVerdicts.Ticks | tools/t2/journey_hub.py:842-865 | a waiting session notices its preemption and nothing else |
| StreamVerdicts.Closes | tools/t2/journey_hub.py:907-911 | acks and ends leave the counters alone |
| StreamVerdicts.OneSession | tools/t2/journey_hub.py:838-911 | a step touches its own session only |
| StreamVerdicts.ClaimsFair | tools/t2/journey_hub.py:1050-1059 | on every run stored claims have 64 signature bytes and at most 16 MiB, and connections and generations are one count |
| StreamVerdicts.RunFair | tools/t2/journey_hub.py:1056-1059 | claims, verdicts and log lines once stored stand |
| StreamVerdicts.EventsTell | tools/t2/journey_hub.py:689-711 | on every run each event was logged by the session that finished its bundle, with both verdicts on that session's key, and the recorded verdict is the same |
| StreamVerdicts.KeysConnected | tools/t2/journey_hub.py:1016-1018 | that key is the one the session came with |
| StreamResume.Undisturbed | tools/t2/journey_hub.py:862-1102 | between two hellos nothing any other session does changes the store or the newest session: it stands where its own steps alone take it |
| StreamResume.Announced | tools/t2/journey_hub.py:1055-1067 | the offset a hello announces passes the check made outside the lock, whatever other sessions do between hello, claim and check short of another hello |
| StreamResume.ResumeCompletes | tools/t2/journey_hub.py:1036-1102 | resuming at the announced offset, in any pieces and among any steps of other sessions short of another hello, ends with exactly the payload stored and completed |
| StreamResume.ResumeAfterAnything | tools/t2/journey_hub.py:989-1102 | the same after any run of any sessions from an empty hub |
| StreamObjects.Hub.StreamComplete | tools/t2/journey_hub.py:689-711 | completion logs one event and one record, and nothing when asked again |
| StreamObjects.StreamSession.Account | tools/t2/journey_hub.py:907-911 | accounting adds what was not counted yet, once |
| StreamObjects.StreamSession.Greet | tools/t2/journey_hub.py:1016-1024 | a hello takes the next generation |
| StreamObjects.StreamSession.Head | tools/t2/journey_hub.py:1050-1068 | a header claims or compares the meta under the lock and checks the offset after it |
| StreamObjects.StreamSession.Write | tools/t2/journey_hub.py:1074-1085 | one slice is appended and accounted, or the session is preempted |
| StreamObjects.StreamSession.WriteAll | tools/t2/journey_hub.py:1071-1089 | the receive loop, of a whole body or part of one, is the sequence of its appends to whatever hub it finds each time it takes the lock |
| StreamResume.InterleavedInRun | tools/t2/journey_hub.py:1071-1089 | in every interleaving of other sessions with those appends the session ends where that sequence ends |
| StreamObjects.StreamSession.End | tools/t2/journey_hub.py:1092-1096 | the last section accounts and completes, unless preempted |
| Base32.IntLabelRoundTrip | tools/t2/txt_query_wire.py:62-82 | an integer label has its width and reads back in either case |
| Base32.LabelIntInjective | tools/t2/txt_query_wire.py:75-82 | labels that read the same are the same up to case if and only if they have one width |
| Base32.EncodeInt | tools/t2/txt_query_wire.py:62-72 | the digit loop gives the label, or an error exactly when the number is negative or too wide |
| Base32.DecodeInt | tools/t2/txt_query_wire.py:75-82 | the letter loop gives the numeral, or an error on the first illegal letter |
| Base32.GroupRoundTrip | tools/t2/txt_query_wire.py:42-56 | a group of one to five bytes reads back from its letters |
| Base32.LabelRoundTrip | tools/t2/txt_query_wire.py:42-56 | every byte string reads back from its unpadded label, in either case |
| Base32.LabelShape | tools/t2/txt_query_wire.py:128-131 | a label has no dot and fits 63 letters exactly when the chunk fits 39 bytes |
| WireLaws.Alphabet | tools/t2/txt_query_wire.py:62-82 | the 32 letters and their values |
| WireLaws.GroupMeans | tools/t2/txt_query_wire.py:42-56 | a group of letters is the number its bytes are |
| WireLaws.DecodesExactly | tools/t2/txt_query_wire.py:46-56 | a label is read exactly when its characters are letters and their number is one that bytes need |
| QueryNames.NameRoundTrip | tools/t2/txt_query_wire.py:128-178 | a name that builds parses, to its number, session, nonce, chunk and domain, if and only if session and nonce have the parser's widths and no dot |
| QueryNames.BuiltUnreadable | tools/t2/txt_query_wire.py:128-178 | a name with a session of five characters builds and does not parse |
| QueryNames.NumberAliases | tools/t2/txt_query_wire.py:91-95 | a number label reads the same with any number of leading a |
| QueryNames.AnyCase | tools/t2/txt_query_wire.py:153-178 | a name parses the same whatever the case of its letters |
| QueryNames.BuildsExactly | tools/t2/txt_query_wire.py:128-140 | a name builds if and only if chunk, number, labels and total length are in bounds |
| WireLaws.ParsesExactly | tools/t2/txt_query_wire.py:153-178 | any name parses exactly when it has five labels before the zone, the marker, the widths, a number and a payload that read; and to these parts |
| WireLaws.NumberReads | tools/t2/txt_query_wire.py:91-95 | a number label reads as its letters say, up to 1023 |
| Fragments.FrameRoundTrip | tools/t2/txt_query_wire.py:106-119 | a framed payload unframes to itself, whatever follows |
| WireLaws.Unframes | tools/t2/txt_query_wire.py:112-119 | any bytes unframe to what they announce, or fail exactly when they are too few |
| DnsLayout.FrameLayout | tools/t2/txt_query_wire.py:106-109 | a frame is the length, high byte first, and the payload |
| Fragments.PiecesOf | tools/t2/txt_query_wire.py:122-125 | the chunks are non-empty, at most 39 bytes, and join to the frame |
| Fragments.CutChunks | tools/t2/txt_query_wire.py:122-125 | cutting at every 39th byte gives the chunks |
| Fragments.CutExactly | tools/t2/txt_query_wire.py:85-125 | a payload can be cut into numbered fragments exactly up to 39,934 bytes |
| Fragments.EncodesExactly | tools/t2/txt_query_wire.py:106-140 | every chunk of a payload gets a name if and only if the payload has at most 39,934 bytes, session and domain are good labels, and the name of the first chunk, the widest, fits 253 |
| Fragments.EncodeQueries | tools/t2/txt_query_wire.py:181-188 | one name per chunk in order, or none; it succeeds if and only if the caller could have known so from payload, session and domain; and what each name is read as |
| Fragments.PollAssembles | tools/t2/txt_query_server.py:183-200 | with the empty payload's fragment at number 0 a buffer assembles to the empty payload if and only if its numbers have no gap |
| Fragments.Reassemble | tools/t2/txt_query_wire.py:191-202 | the list is numbered, checked for conflicts and gaps, and unframed |
| WireLaws.NumbersExactly | tools/t2/txt_query_wire.py:194-198 | parsed queries are numbered exactly when no two of one number differ |
| WireLaws.ReassemblesAny | tools/t2/txt_query_wire.py:191-202 | any list of parsed queries fails exactly at nothing, a conflict, a gap or a bad frame |
| Fragments.ReassemblesExactly | tools/t2/txt_query_wire.py:191-202 | fragments in any order and number give the payload if and only if none is missing |
| Fragments.AssemblesExactly | tools/t2/txt_query_server.py:183-200 | the server's buffer assembles to the payload if and only if every fragment is there |
| DnsPackets.DecodeName | tools/t2/txt_query_wire.py:229-261 | decoding ends on every buffer with chained pointers up to depth ten, and returns the labels and end the format defines |
| WireLaws.Pointers | tools/t2/txt_query_wire.py:229-261 | a pointer stands for the name it points to, and one to itself is refused |
| DnsPackets.EncodedNameDecodes | tools/t2/txt_query_wire.py:215-261 | an encoded name anywhere in a packet decodes to the name without empty labels, and to its end |
| DnsPackets.QueryRoundTrip | tools/t2/txt_query_wire.py:268-292 | a query packet reads back as its transaction id and name |
| DnsLayout.QueryLayout | tools/t2/txt_query_wire.py:264-271 | a query byte by byte: flags, counts, type and class, and the size record |
| WireLaws.QueriesExactly | tools/t2/txt_query_wire.py:280-292 | any packet is a query exactly when it has one question of type 16 and class 1 that decodes |
| DnsPackets.TxtRoundTrip | tools/t2/txt_query_wire.py:295-314 | TXT data splits into 255-byte strings and joins back to the payload |
| DnsLayout.TxtByte | tools/t2/txt_query_wire.py:295-303 | where each byte of a payload stands |
| DnsLayout.TxtLengthByte | tools/t2/txt_query_wire.py:295-303 | every string announces 255 bytes, the last one what is left |
| DnsPackets.TxtRdata | tools/t2/txt_query_wire.py:295-303 | the splitting loop gives the TXT strings |
| DnsPackets.ParseTxtRdata | tools/t2/txt_query_wire.py:306-314 | the joining loop reads any TXT data, truncated strings included |
| DnsPackets.ParseAnswer | tools/t2/txt_query_wire.py:341-359 | the answer parser, question loop included, on every packet |
| DnsPackets.AnswerRoundTrip | tools/t2/txt_query_wire.py:317-359 | an answer that builds reads back: transaction id, code, and the payload exactly when one was given with code zero |
| DnsLayout.AnswerLayout | tools/t2/txt_query_wire.py:317-331 | an answer byte by byte: response and authoritative, the code, the counts, the record with type, class, time to live and length, and the size record |
| DnsLayout.FlagBytes | tools/t2/txt_query_wire.py:317-331 | the third and fourth byte of every answer and query |
| WireLaws.AnswersExactly | tools/t2/txt_query_wire.py:341-359 | any packet with one question is an answer exactly when names and record are whole; and what it says |
| DnsPackets.AnswerBuilds | tools/t2/txt_query_wire.py:317-331 | an answer builds if and only if its name encodes and its TXT data fits 16 bits |
| DnsPackets.AnswerSize | tools/t2/txt_query_wire.py:317-331 | the size of an answer, and that it fits the advertised 1232 if and only if twice the name and the TXT data take at most 1195 |
| ValveServer.NothingLost | tools/t2/txt_query_server.py:66-68 | however queueing and answering interleave, bytes given, leftover in hand and bytes waiting are the bytes owed, in order |
| ValveServer.StoredDown | tools/t2/txt_query_server.py:159-175 | storing a query changes only its own session's queue, by the echo of what it completed |
| ValveServer.SettlesAndCollects | tools/t2/txt_query_server.py:70-80 | a leftover goes back in front of its queue, and asking who is live drops exactly the sessions over the TTL |
| ValveDelivery.CompletesExactly | tools/t2/txt_query_server.py:148-200 | on every run of fragments and polls the session completes exactly what a set of seen numbers says, in order |
| ValveDelivery.NeverOnProperSubset | tools/t2/txt_query_server.py:183-200 | the payload never completes while a fragment is missing |
| ValveDelivery.EmptiesPolled | tools/t2/txt_query_server.py:148-200 | everything else that completes is empty, and each took a poll |
| ValveDelivery.IdlePollsComplete | tools/t2/txt_query_server.py:148-200 | a poll while nothing is held completes its own empty payload, once |
| ValveDelivery.PollStored | tools/t2/txt_query_server.py:158-174 | a poll over held fragments completes the empty payload and drops them if and only if their numbers have no gap, and otherwise replaces fragment 0 |
| ValveDelivery.PollDropsUpload | tools/t2/txt_query_server.py:148-200 | a poll after two of three fragments: all three arrive and only the empty payload completes |
| ValveDelivery.SecondCopy | tools/t2/txt_query_server.py:148-200 | a second copy of a payload of one fragment completes it again |
| ValveDelivery.AllFragmentsComplete | tools/t2/txt_query_server.py:148-200 | fragments that all arrive within the TTL, in any order and however often, complete if polls come only while nothing is held |
| ValveDelivery.OncePerRound | tools/t2/txt_query_server.py:148-200 | the completions of the payload never outnumber the arrivals of any one fragment |
| ValveObjects.CanAnswer | tools/t2/txt_query_server.py:148-181 | every query the responder can read it can answer |
| ValveObjects.WireToFragment | tools/t2/txt_query_wire.py:128-292 | a built name goes into a query packet, and the server reads it as its fragment if and only if, empty labels left out, a session and a nonce of the parser's widths remain |
| ValveObjects.PayloadDelivered | tools/t2/txt_query_wire.py:181-202 | a client's names, in any order and any case, among its polls and any traffic of other sessions: only the payload and polls' empty ones complete, the payload never early, and always when all arrive in time with no poll among them |
| ValveObjects.TxtQueryServer.Receive | tools/t2/txt_query_server.py:158-174 | the section under the lock collects, stores, completes and takes what waits |
| ValveObjects.TxtQueryServer.Handle | tools/t2/txt_query_server.py:148-181 | silence, a crash, NXDOMAIN or an answer carrying at most 1150 waiting bytes, each exactly when the source gives it, its size, and its content read back with the client's parser |
| ValveObjects.FullAnswerTooLong | tools/t2/txt_query_server.py:174-181 | an answer to a query fits 1232 bytes if and only if name and payload leave room, and one at the payload limit never does |
| ValveObjects.TxtQueryServer.Assemble | tools/t2/txt_query_server.py:183-200 | the loop over sequence numbers decides completion |
| BroadcastPaths.OneSpelling | tools/cloudflare_relay_worker/src/broadcast.js:79-118 | a path is accepted if and only if it is the one spelling of a valid address |
| BroadcastPaths.AcceptedExactly | tools/cloudflare_relay_worker/src/broadcast.js:79-118 | exactly three kinds of path are accepted, letter by letter |
| BroadcastPaths.KeysDistinct | tools/cloudflare_relay_worker/src/broadcast.js:315-324 | different addresses never share a storage key, and none is the meta record's |
| ArchiveRuns.RunGood | tools/cloudflare_relay_worker/src/broadcast.js:435-507 | on every run every object and report hashes to its name and the counters never exceed what is stored |
| ArchiveRuns.NeverSpurious | tools/cloudflare_relay_worker/src/broadcast.js:475-481 | 507 and 429 are given only when what is stored leaves no room |
| ArchiveVerdicts.Refusals | tools/cloudflare_relay_worker/src/broadcast.js:372-453 | 413, 403 and 400 come exactly when size, proof and name say so, and change nothing |
| ArchiveVerdicts.UnprovedRefused | tools/cloudflare_relay_worker/src/broadcast.js:385-394 | a descriptor without the author's proof is never stored |
| ArchiveVerdicts.ProperWrites | tools/cloudflare_relay_worker/src/broadcast.js:455-494 | a proper write: 204 or 409 at a live address, 507 or 429 exactly without room, and otherwise 201 with the entry held beside all others and counted |
| ArchiveVerdicts.WindowOpens | tools/cloudflare_relay_worker/src/broadcast.js:512-539 | the counting window stays until it has rolled, and then opens at the request exactly if something is live |
| ArchiveVerdicts.Reads | tools/cloudflare_relay_worker/src/broadcast.js:403-416 | a read is 200 with the bytes exactly at a live address |
| ArchiveVerdicts.EverythingPublished | tools/cloudflare_relay_worker/src/broadcast.js:372-494 | on every run all that is held was published so, and every descriptor with proof |
| ArchiveRuns.WriteOnce | tools/cloudflare_relay_worker/src/broadcast.js:455-473 | an accepted write is read back unchanged until its retention ends, whatever happens; the same bytes are 204 and different bytes 409 |
| ArchiveRuns.Released | tools/cloudflare_relay_worker/src/broadcast.js:403-410 | after its retention an entry is not served and its address is free |
| ArchiveRuns.SweepExact | tools/cloudflare_relay_worker/src/broadcast.js:546-572 | a sweep keeps exactly what is live and leaves the counters exact |
| ArchiveRuns.StoreExact | tools/cloudflare_relay_worker/src/broadcast.js:483-494 | a store keeps exact counters exact if and only if the window has not rolled or nothing has expired unswept |
| ArchiveCounters.ForgetTallied | tools/cloudflare_relay_worker/src/broadcast.js:498-539 | forgetting an expired entry leaves the counters equal to the bytes and posts of the entries counted in the window if and only if the entry is one of them or nothing is counted |
| ArchiveCounters.ApplyTallied | tools/cloudflare_relay_worker/src/broadcast.js:403-539 | any read, write or sweep keeps that tally if and only if the entry it forgets, if any, meets the guard |
| ArchiveCounters.TalliedExactly | tools/cloudflare_relay_worker/src/broadcast.js:403-572 | over every run with a clock that never goes back the tally holds after every step if and only if every forget meets the guard |
| ArchiveCounters.CeilingsHold | tools/cloudflare_relay_worker/src/broadcast.js:475-539 | on every such run what is live never exceeds the counts a request sees, and these never exceed 64 MiB and 512 posts |
| ArchiveRuns.CounterDrifts | tools/cloudflare_relay_worker/src/broadcast.js:498-539 | two objects and one late read leave the counter short by the first object while the second is live |
| ArchiveRuns.CounterDriftsInWindow | tools/cloudflare_relay_worker/src/broadcast.js:483-539 | a third object recounts and opens a new window, and the late read leaves the counter short although the window has not rolled |
| ArchiveObjects.BroadcastArchive.Load | tools/cloudflare_relay_worker/src/broadcast.js:513-539 | the counting loop recounts exactly what is live once the window has rolled |
| ArchiveObjects.BroadcastArchive.ForgetEntry | tools/cloudflare_relay_worker/src/broadcast.js:498-507 | the entry goes and its bytes and post are given back |
| ArchiveObjects.BroadcastArchive.ReadRoute | tools/cloudflare_relay_worker/src/broadcast.js:403-416 | a read serves, or forgets and misses |
| ArchiveObjects.BroadcastArchive.WriteRoute | tools/cloudflare_relay_worker/src/broadcast.js:372-495 | a write in the source's order of checks, with each status |
| ArchiveObjects.BroadcastArchive.SweepAll | tools/cloudflare_relay_worker/src/broadcast.js:546-572 | the sweep loop deletes exactly the expired entries and counts them |
| RelayLanes.KeptLongest | tools/cloudflare_relay_worker/src/worker.js:410-422 | only what has to go is dropped: no longer tail of the queue fits the caps |
| RelayLaws.Queues | tools/cloudflare_relay_worker/src/worker.js:410-422 | a queued frame goes last, and what is dropped is exactly what 256 frames and 4 MiB do not hold |
| RelayLaws.Delivers | tools/cloudflare_relay_worker/src/worker.js:388-401 | a frame goes down a socket that takes it, or the socket is given up and it is queued |
| RelayLaws.ClosesAndPolls | tools/cloudflare_relay_worker/src/worker.js:310-382 | only the attached socket's closing counts, and a poll takes everything |
| RelayLaws.Attaches | tools/cloudflare_relay_worker/src/worker.js:285-308 | a new socket gets the backlog, and what it refuses is queued again in order |
| RelayLaws.AlwaysWithin | tools/cloudflare_relay_worker/src/worker.js:272-442 | on every run the caps hold and the socket is the one the history says |
| RelayLanes.NothingUnaccounted | tools/cloudflare_relay_worker/src/worker.js:388-442 | on every run both caps hold and every frame was handed out, dropped, or is queued, as often as it was sent |
| RelayOrder.FramesInOrder | tools/cloudflare_relay_worker/src/worker.js:272-442 | if a socket that has thrown keeps throwing, frames handed out and then the queue are in the order sent, and what is missing is older than the queue |
| RelayOrder.FlushOrder | tools/cloudflare_relay_worker/src/worker.js:428-442 | a flush keeps the order of a backlog of any length if and only if the socket takes no frame after refusing one |
| RelayOrder.FlushOvertakes | tools/cloudflare_relay_worker/src/worker.js:428-442 | two frames queued, the first refused and the second taken: out of order |
| RelayOrder.SendOvertakes | tools/cloudflare_relay_worker/src/worker.js:388-401 | a frame refused in the flush and the next one taken: out of order |
| RelayOrder.SendOrder | tools/cloudflare_relay_worker/src/worker.js:388-401 | a frame that a socket takes keeps the order if and only if nothing is queued |
| RelayOrder.OrderExactly | tools/cloudflare_relay_worker/src/worker.js:272-442 | on every run frames stay in order at every moment if and only if every flush and send keeps it |
| RelayObjects.Trim | tools/cloudflare_relay_worker/src/worker.js:415-422 | the dropping loop keeps the longest tail that fits, and the byte count with it |
| RelayObjects.RelaySession.Deliver | tools/cloudflare_relay_worker/src/worker.js:388-401 | a frame goes to the socket or the queue, and the other direction is untouched |
| RelayObjects.RelaySession.FlushTo | tools/cloudflare_relay_worker/src/worker.js:428-442 | the flush loop hands out and requeues as the lane says |
| RelayObjects.RelaySession.AttachSocket | tools/cloudflare_relay_worker/src/worker.js:285-308 | a new socket replaces the old one and gets the backlog |
| RelayObjects.RelaySession.TakeInbox | tools/cloudflare_relay_worker/src/worker.js:359-382 | a poll answers with the queued frames joined in order, of exactly the counted size |
| PlanGraph.NoCycleWhenOrdered | tools/plan_check.py:215-238 | when a dependency order places every step the needs form no cycle |
| PlanGraph.StuckHasCycle | tools/plan_check.py:235-237 | when no step is ready and one is left, the needs form a cycle |
| PlanGraph.DoneMeansAllEvidence | tools/plan_check.py:291-314 | a step is done if and only if its evidence and that of everything it needs, directly or not, is present |
| PlanGraph.StatesMean | tools/plan_check.py:291-314 | each of the five states exactly, by the evidence of the step and of all it needs |
| PlanGraph.LeftIsTangled | tools/plan_check.py:215-238 | when no step is ready, a step is left over if and only if its needs, directly or not, run into a cycle |
| PlanCheck.TopoOrder | tools/plan_check.py:215-238 | every step once, its needs before it, always the ready step of smallest number; otherwise exactly the ids, in the plan's order, of the steps whose needs run into a cycle |
| PlanCheck.Edges | tools/plan_check.py:218-224 | the indegrees count the needs and the dependents list them |
| PlanCheck.Release | tools/plan_check.py:231-234 | counting down the dependents puts exactly the newly ready steps on the heap |
| PlanCheck.ErrorsAreFaults | tools/plan_check.py:199-212 | the errors are exactly the repeated ids, repeated numbers and unknown needs of the plan, and there is none if and only if the plan is valid |
| PlanCheck.ValidateGraph | tools/plan_check.py:199-212 | the loops report exactly those errors, in the source's order |
| PlanCheck.ComputeStates | tools/plan_check.py:291-314 | each step's state, of the five, from its evidence and the states before it |
| StreamScan.WindowFirst | tools/step7_analyze.py:96-107 | a window with the carried overlap shows a needle's first place whenever it was not found before |
| StreamScan.OccursFolded | tools/step7_analyze.py:99-105 | a needle occurs in the lower-cased bytes exactly where it matches up to the case of A to Z |
| StreamScan.ScanFile | tools/step7_analyze.py:85-111 | however the reads cut the file, each needle's first offset in the lower-cased whole, or -1 |
| NewsCbor.HeadRoundTrip | tools/phase5/measure_news.py:16-57 | every head reads back |
| NewsCbor.ShortestHead | tools/phase5/measure_news.py:16-23 | no head that reads as the same number is shorter |
| NewsCbor.RoundTrip | tools/phase5/measure_news.py:26-71 | decoding what was encoded, with anything after it, gives the value and exactly its length |
| CborLaws.Scalars | tools/phase5/measure_news.py:44-63 | on any bytes, what decodes to which integer or text, and what does not decode |
| CborLaws.LaterWins | tools/phase5/measure_news.py:64-70 | a repeated key keeps its place and takes the later value |
| CborLaws.DecodedWellFormed | tools/phase5/measure_news.py:44-71 | whatever decodes has distinct keys, none of them a map |
| NewsCbor.EncodesExactly | tools/phase5/measure_news.py:26-41 | a value encodes if and only if its integers and lengths are in range |
| NewsCbor.Enc | tools/phase5/measure_news.py:26-41 | the encoder loop over map entries |
| NewsCbor.Dec | tools/phase5/measure_news.py:44-71 | the decoder loop on every byte string, short reads and repeated keys included |
| RankTables.RankRoundTrip | tools/hamseda_token_codec.py:104-115 | rank and id of rank undo each other |
| RankTables.RankOrder | tools/hamseda_token_codec.py:39-46 | a lower rank is a higher frequency, or the same and a lower id |
| TokenLaws.RankCounts | tools/hamseda_token_codec.py:104-115 | a rank is the number of ids ahead of it |
| RankTables.FrequentIsCheap | tools/hamseda_token_codec.py:58-60 | a more frequent id never costs more bits |
| TokenLaws.Costs | tools/hamseda_token_codec.py:58-60 | what each symbol costs, bit by bit |
| TokenLaws.CostsAdd | tools/hamseda_token_codec.py:75-90 | a stream costs what its symbols cost |
| TokenCoders.RoundTrip | tools/hamseda_token_codec.py:75-90 | rank decoding undoes rank encoding with equal final states, from every state a run reaches |
| TokenLaws.ColumnTeaches | tools/hamseda_token_codec.py:75-90 | a known column is coded by its rank and counts one more, a new one is sent whole and becomes the last entry |
| TokenCoders.Reloaded | tools/hamseda_token_codec.py:62-72 | a coder saved as entries and counts loads with the same index |
| TokenCoders.PayloadReads | tools/hamseda_token_codec.py:139-163 | an id coded by context, by the global table or raw reads back |
| TokenLaws.CodedBy | tools/hamseda_token_codec.py:154-163 | an id seen in its context is coded there, one seen only elsewhere by the row, any other as itself |
| TokenLaws.IdTeaches | tools/hamseda_token_codec.py:117-152 | an id counts once in its context and once in the row |
| TokenLaws.TiesWhen | tools/hamseda_token_codec.py:104-163 | learning an id makes a table that could be sorted unsortable exactly when it brings a missing id level with another, and a table without a missing id always sorts |
| TokenRuns.ReadBy | tools/hamseda_token_codec.py:112-152 | what any payload reads as: the id of its rank, a missing id past the table, an error at an unseen context or a table that cannot be sorted |
| TokenRuns.RowsEach | tools/hamseda_token_codec.py:182-196 | a column is coded row by row after the ids before it, and fails exactly where one row does |
| TokenRuns.ReadsEach | tools/hamseda_token_codec.py:199-209 | a frame of any payloads is read row by row after the ids before it, and fails exactly where one row does |
| TokenRuns.TablesCount | tools/hamseda_token_codec.py:182-196 | over a whole stream each table has counted an id exactly as often as it stood in its context, and in its row |
| TokenRuns.CodedByCounts | tools/hamseda_token_codec.py:182-196 | every payload of a stream is its id coded by the tables its row had counted up to there |
| TokenCoders.FramesRoundTrip | tools/hamseda_token_codec.py:182-209 | per-row decoding undoes per-row encoding with equal final states whenever encoding does not raise, which from tables without a missing id is exactly when no column is longer than the one before it or than the coders |
| TokenObjects.RankCoder.Ranks | tools/hamseda_token_codec.py:39-46 | the cached rank map always equals a fresh sort |
| TokenObjects.RankCoder.EncodeColumn | tools/hamseda_token_codec.py:80-89 | one column is coded by its cached rank or as new, and the cache is dropped |
| TokenObjects.RankCoder.EncodeAll | tools/hamseda_token_codec.py:75-90 | the encoder loop gives the symbols and their total size |
| TokenObjects.DecodeAll | tools/hamseda_token_codec.py:212-226 | on any symbols the loop gives what they decode to, or stops at the first rank the dictionary lacks with the state reached so far; what an encoder in the same state made gives back its columns and its state |
| TokenObjects.ContextRowCoder.CostAndUpdate | tools/hamseda_token_codec.py:117-137 | the cost is that of the symbol encode_symbol gives, and the tables learn the id; nothing changes where a table cannot be sorted |
| TokenObjects.ContextRowCoder.DecodeAndUpdate | tools/hamseda_token_codec.py:139-152 | the id is read and learned, a rank past its table as a missing id; an unseen context or a table that cannot be sorted is an error that changes nothing |
| TokenObjects.EncodeV2 | tools/hamseda_token_codec.py:182-195 | the loops over columns and rows give the frames, their cost and the learned rows, or the error |
| TokenObjects.DecodeV2 | tools/hamseda_token_codec.py:198-209 | the loops over frames give the columns and the learned rows, or the error, on any frames |
| MediaQueue.TickSpends | tools/apply_media_queue_fix.py:99-131 | a tick spends exactly the tokens it takes, and nothing while voice speaks |
| MediaQueue.RateBound | tools/apply_media_queue_fix.py:99-131 | on every run, from any tick to any later one with the clock not going back, at most one second's budget plus the budget for the time between goes out |
| MediaLaws.Earns | tools/apply_media_queue_fix.py:102-107 | elapsed time earns exactly its budget, up to one second's worth |
| MediaLaws.SilenceDrains | tools/apply_media_queue_fix.py:108-131 | a silent tick with something to send leaves less than one datagram's tokens and has sent the others |
| MediaLaws.SpanConserves | tools/apply_media_queue_fix.py:99-131 | over a span bytes out and tokens left are what was there and what the time earned, if and only if the bucket never ran over |
| MediaLaws.Throughput | tools/apply_media_queue_fix.py:99-131 | on every run, from a tick to a silent one, all that was earned goes out but less than one datagram |
| MediaLaws.FiveDatagrams | tools/apply_media_queue_fix.py:99-131 | budget 300, blocks of 48, one second of silence: 265 bytes |
| MediaQueue.FairTurns | tools/apply_media_queue_fix.py:111-129 | while the active set is unchanged the turns of any two transfers differ by at most one, across ticks |
| MediaLaws.InTurn | tools/apply_media_queue_fix.py:111-129 | the datagrams of a tick go to the active transfers in turn, from where the last one stopped |
| MediaLaws.SentIsTagged | tools/apply_media_queue_fix.py:122-129 | each tag is one datagram its transfer has sent |
| MediaLaws.NewTransfer | tools/apply_media_queue_fix.py:78-82 | a new transfer stands last, active, with an id of its own |
| MediaLaws.CompletedExactly | tools/apply_media_queue_fix.py:86-93 | an acknowledgement takes exactly its transfers off the unfinished ones, and no finished one stays at the head |
| MediaLaws.AcknowledgedIsFinished | tools/apply_media_queue_fix.py:86-93 | at any point of a run an acknowledgement finishes exactly the transfers of its id |
| MediaLaws.IdsDistinct | tools/apply_media_queue_fix.py:78-93 | on every run ids are distinct |
| MediaQueue.MediaTransferQueue.MarkComplete | tools/apply_media_queue_fix.py:86-93 | marks every transfer of the id and removes finished ones from the head only |
| MediaQueue.MediaTransferQueue.SendAll | tools/apply_media_queue_fix.py:122-129 | the loop sends as many datagrams as the tokens pay for, in turn |
| MediaQueue.MediaTransferQueue.TickNow | tools/apply_media_queue_fix.py:99-131 | accrual, silence and the datagrams of one tick, tagged in order |

## Left out

- CodecObjects.V4State: the tables are values in the state object's maps; sharing of table objects between the state and its clones is not modelled, because values cannot be shared.
- The older `encode_stream`/`decode_stream` of `tools/hamseda_arith.py` has a dictionary without cap; v4's cap of 4096 columns is what bounds the totals.
- Persistence.StateRoundTrip: JSON text syntax is not modelled, only the conversion of keys and records; nor is loading text that no save wrote with two spellings of one key.
- Sessions.Exchange: a block arrives whole or not at all; bytes changed on the way are what `CodecObjects.Decode` says on any byte string.
- Codebook ids are 0..1023 wherever an id is coded in 10 raw bits; other integers in a token stream are not modelled.
- HuffmanMerge.HuffmanLengths: the heap is the order in which its entries come out; heapq's own sifting is not part of this model.
- The hub's advertised inflight window, rate samples, keep-alive timing, log lines, files and a restart of the hub process (its generation counter starts again) are not modelled; signature and key checks are uninterpreted functions.
- The hub's header parsing and name checks before the lock are not modelled; a header arrives parsed.
- ValveServer.Stored: one clock reading per query stands for the two the source takes within one lock section.
- Names and domains of the DNS valve are ASCII; rate shaping, sockets and the random session and nonce generators are inputs or left out.
- ArchiveObjects.BroadcastArchive.WriteRoute: the descriptor's signature chain is one boolean input and SHA-256 an uninterpreted function; the clock is read once per request; texts of refusals are not modelled.
- A HEAD request is a read without the body, any other method a 405; neither is modelled.
- `stats` and `hasExpired` of the archive only count what the model already states.
- RelayObjects.RelaySession: parked long polls and their timers are not modelled, and frames are binary; a text frame has no byteLength and is outside the model.
- BroadcastPaths.ParsePath: the pieces between slashes are cut by position, which their fixed widths allow.
- PlanCheck.TopoOrder: requires a graph that validate_graph accepts, as the program does; two equal step numbers do not reach it. The cycle message sorts the ids that are left.
- NewsCbor.Dec: UTF-8 is opaque bytes, so a decoding error inside a text is not modelled; all exceptions are one None.
- MediaQueue.Accrued: tokens are real numbers; rounding of doubles is not modelled, and nextDatagram is opaque.
- MediaQueue.MediaTransferQueue: any budget is allowed, although the source asserts 200 to 500 bytes per second: no property here needs the bounds. The transfers are values in the queue, so a handle kept by a caller is not modelled.
- TokenCoders.Read: Python's None, learned as an id, is the number 1024, which no codebook has; sorting it beside an id of equal frequency is the TypeError.
- TokenObjects.EncodeV2: the row coders are values passed through the loops, so one coder object used for two rows is not modelled.
- Signal processing, EnCodec, numeric reports, probes, gates and scripts are outside the model.
