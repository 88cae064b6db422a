# Verified models of the browser torrent protocol engines

This project models the protocol engines of the repository that sit apart from input and output (the tracker's
cache in `packages/websocket-tracker` and the libraries under `docs/deno-torrent`) and proves what they promise.
Each engine has a simple specification: a bijection, a partition of the id space, a recursive root, a prefix of a
stream, a recency order, a conserved set of requests. The models reach it, as the code does, through stacks, loops,
bit operations, linked nodes and interleaved steps. `dafny verify dfyconfig.toml` checks everything.

Loops and objects of the source are methods and classes here, proved against specification functions on values; the
promises are lemmas about those functions, over all inputs and all runs. The methods of `PeerWire`, `BlockingMap` and
`SendWindow` each equal a function of `PeerSession` or `UtpSendWindow`; the table lists those of them that loop.

| modules | engine |
|---|---|
| `Results`, `ByteStrings`, `Utf8`, `Arithmetic` | shared values, byte order, text decoding, division and powers of two |
| `WireFormats` | the bytes of bencode, metadata headers, metainfo, Merkle leaves and uTP, spelt out |
| `BencodeTree`, `BencodeDecoder`, `BencodeLanguage`, `BencodeEncoder`, `BencodeLaws` | strict bencode decoder and canonical encoder (BEP 3) |
| `InfoLocator`, `MetainfoWrapping` | exact-byte location and wrapping of the info dictionary |
| `MetadataMessages`, `MetadataExchange`, `MetadataBytes`, `MetadataPeers` | metadata messages and the download of metadata by a pool of workers, over messages and over bytes, and what is accepted from any peer (BEP 9) |
| `PeerFrames` | the frames of peer-wire messages and streams of them |
| `PeerSession`, `PeerRuns`, `PeerChoking`, `PeerPair`, `PeerWires` | the peer-wire session whose operations are single steps, alone and between two endpoints (BEP 3, BEP 6, BEP 52) |
| `PeerInterleaving`, `PeerOverlaps` | the same session with operations that overlap: handshake halves, reads, queued writes, chokes under way |
| `PeerFates`, `PeerHistory`, `PeerChecks` | over every run: what becomes of each promise, what the flags and held requests say about the past, which messages are let through |
| `Merkle`, `FileLayout`, `FileTree` | piece-layer roots, flattening of file trees, padded layouts (BEP 52) |
| `Sha1`, `Sha1Example`, `PieceHashing` | incremental SHA-1 (FIPS 180-4) and hashing by pieces |
| `IdSpace`, `RoutingTable`, `RoutingHistory`, `NodeLookup`, `LookupHistory`, `AnnounceTokens` | Kademlia ranges, buckets, lookup and tokens (BEP 5), the tables and lookups also over their histories |
| `UtpSeq`, `UtpSack`, `UtpPacket`, `UtpReceiver`, `UtpDuplicates`, `UtpLosses`, `UtpSendWindow`, `UtpDelivery`, `UtpSetters`, `UtpWindowObjects` | uTP (BEP 29) |
| `LruCache`, `LruHistory` | the tracker's cache, and what it holds after every run |

## What the proofs found

- `docs/deno-torrent/bencode/decode.ts:200` reads integer text with a decoder that drops a leading byte order mark,
  so `i<EF BB BF>5e` is accepted as 5 and strict decoding is not canonical there. Text strings and keys lose such a
  mark too. The laws carry the exact condition (`BomFree`, `Unmarked`), and without any mark in the input strict
  decoding accepts canonical encodings only. `ShortestNotCanonical` gives the shortest input where it does not.
- `wrapInfoBytes` produces metainfo that the decoder or the locator refuses when the info dictionary nests to the
  limit, or when two layer roots led by a mark change their order as text. `WrapThenExtract` says exactly when;
  `WrappedTooDeep` and `MarkedLayerRoots` give inputs.
- A closed peer session becomes connected again when a half of the handshake that was under way at the close completes
  and the other half is done (`MayReopen`); it stays closed exactly when none can (`ReopensExactly`). A message whose read was under way
  at the close is still applied, so a closed session can come to hold a request (`MayHoldLate`,
  `ClosedMapStaysEmptyExactly`).
- A padded layout with an empty file behind a file that ends inside a piece is refused by `validateHybridLayout`
  although `buildPieceFiles` made it. `PaddedLayoutIsAccepted` says exactly when.
- A request that arrives while choking, for a piece that is not allowed fast, cannot be rejected: the reject throws
  and the session closes (`RequestWhileChoking`, with a run in `RequestMayBeRefused`). Only while a choke still owes a
  reject for the very same request is one written (`RefusalFailsExactly`).
- A choke that nothing overlaps fails exactly when requests are held under BEP 52 without the Fast extension, because
  the reject message itself needs that extension (`ChokeFailsExactly`, with a run in `ChokeMayFail`). When sends
  overlap it also fails when a request of its snapshot is answered before its turn, and else only when the session is
  no longer connected or the write queue is full (`TurnFailsExactly`, `FailsOnlyForAnswered`, with a run in
  `OverlappedChokeMayFail`).
- An answer to a request that timed out closes the session exactly under reject semantics (`LateAnswerEndsSession`).
- A duplicate packet a whole turn of the sequence numbers behind is received in the place of the packet that has its
  number: at once when it lags by 65535 (`OldDuplicateIsMistaken`, `OldDuplicateExample`), else later, if it is still
  queued when its number is next (`PrefixBreaksExactly`, `DuplicateBreaksPrefix`). A stream of fewer than 65536
  packets, the FIN included, survives every old duplicate; with packets that can be told apart and a queue of two or
  more, no longer stream does (`HarmlessExactlyWhenShort`).
- A packet larger than the receive buffer is acknowledged and its data is lost, because the error of the write is only
  logged (`docs/deno-torrent/utp/utp_conn.ts:433-445`): what is received are the bytes of the packets that fit, and a stream whose
  end is reported was received whole exactly when all of them do (`OversizedIsLost`).
- A message of unknown kind can be given the id of a known one; it is written, but read as something else, and it is
  the only thing written that is not read as itself (`FramesAreInverse`, `SentIsRead`).
- An extension payload of more than 255 bytes, which a selective acknowledgement reaches when a number is 2016 or
  more ahead, does not survive the packet codec (`PacketRoundTrip`, `SackRoundTrip`).
- Resetting the send window without an error while a flush waits and no setter does leaves the flush waiting on an
  empty window (`ResetKeepsFlush`, with a run in `CleanResetStrands`). The program itself never does this: the one
  caller, `docs/deno-torrent/utp/utp_conn.ts:799`, always passes an error, so its runs lose no wakeup
  (`ConnectionLosesNoWakeups`); a user of the public field `sendWindow` can.

## Model

| member | source | states |
|---|---|---|
| `ByteStrings.CompareBytes` | docs/deno-torrent/bencode/decode.ts:263-269 | the sign of the result is the raw byte order, zero only for equal strings |
| `Utf8.ValidIffEncoded` | docs/deno-torrent/bencode/decode.ts:249-254 | the bytes that pass the fatal text decoder are exactly the UTF-8 encodings of sequences of scalar values |
| `Utf8.DecodingDropsMark` | docs/deno-torrent/bencode/decode.ts:249-254 | text decoding drops one leading byte order mark and changes nothing else |
| `BencodeDecoder.HandOver` | docs/deno-torrent/bencode/decode.ts:93-131 | giving a finished value to the top frame, or returning it, leaves the recursive parse of the rest unchanged |
| `BencodeDecoder.ReadKey` | docs/deno-torrent/bencode/decode.ts:132-164 | reading a key, with its duplicate and order checks, leaves the recursive parse unchanged |
| `BencodeDecoder.ReadToken` | docs/deno-torrent/bencode/decode.ts:165-193 | one token either yields a value, opens a frame or fails as the recursive parse does |
| `BencodeDecoder.DecodeOne` | docs/deno-torrent/bencode/decode.ts:93-193 | the explicit-stack loop ends and equals the recursive parse, errors included |
| `BencodeDecoder.Decode` | docs/deno-torrent/bencode/decode.ts:43-76 | limits, the one value and the refusal of trailing bytes, as a function of the input |
| `BencodeLanguage.IntegerParsed` | docs/deno-torrent/bencode/decode.ts:195-209 | an integer token whose text, without a leading mark, is canonical and safe is accepted as that integer |
| `BencodeLanguage.IntegerSlice` | docs/deno-torrent/bencode/decode.ts:195-209 | conversely, whatever integer token is accepted has such a text up to its end byte |
| `BencodeLanguage.StringAccepted` | docs/deno-torrent/bencode/decode.ts:211-255 | an accepted byte string stands in the input as its canonical length, a colon and its bytes |
| `BencodeLanguage.PrintedParses` | docs/deno-torrent/bencode/decode.ts:93-193 | a printed well-formed tree within the depth limit parses to itself and ends where its print ends |
| `BencodeLanguage.AcceptedIsPrinted` | docs/deno-torrent/bencode/decode.ts:93-193 | whatever the parse accepts stands in the input as the print of a well-formed tree within the limit |
| `BencodeLanguage.DecodesIffPrinted` | docs/deno-torrent/bencode/decode.ts:43-193 | an input decodes to a value exactly when it is the print of a well-formed tree, nested within the limit, with that text |
| `BencodeTree.PrintPrefixFree` | docs/deno-torrent/bencode/encode.ts:27-110 | prints are uniquely readable: equal texts begin with the same tree and go on with the same rest |
| `WireFormats.DigitsAreDecimal` | docs/deno-torrent/bencode/encode.ts:60-76 | numbers are written in decimal, the units last and the highest digit first |
| `WireFormats.PrintedList` | docs/deno-torrent/bencode/encode.ts:27-86 | a number, a string and a list, byte by byte |
| `WireFormats.PrintedDictionary` | docs/deno-torrent/bencode/encode.ts:88-110 | a dictionary, byte by byte |
| `BencodeEncoder.SortAscends` | docs/deno-torrent/bencode/encode.ts:88-110 | sorting the entries puts their keys in ascending raw order |
| `BencodeEncoder.AscendingDistinct` | docs/deno-torrent/bencode/encode.ts:88-110 | in ascending order, keys that differ from their neighbours all differ and ascend strictly, so comparing neighbours finds every duplicate |
| `BencodeEncoder.SortEntries` | docs/deno-torrent/bencode/encode.ts:88-110 | sorting neither loses nor adds nor duplicates an entry |
| `BencodeEncoder.SortKeepsKeys` | docs/deno-torrent/bencode/encode.ts:88-110 | so the keys differ after sorting exactly when they differed before |
| `BencodeEncoder.ByteWriter.Write` | docs/deno-torrent/bencode/encode.ts:128-148 | the growing buffer holds everything written before, then the chunk |
| `BencodeEncoder.ByteWriter.Finish` | docs/deno-torrent/bencode/encode.ts:128-148 | the result is exactly what was written |
| `BencodeEncoder.EncodeValue` | docs/deno-torrent/bencode/encode.ts:27-58 | succeeds exactly on encodable values and appends the print of the canonical form |
| `BencodeEncoder.EncodeList` | docs/deno-torrent/bencode/encode.ts:78-86 | the same for lists |
| `BencodeEncoder.EncodeDict` | docs/deno-torrent/bencode/encode.ts:88-110 | the same for dictionaries, sorted first, duplicates refused |
| `BencodeEncoder.Encode` | docs/deno-torrent/bencode/encode.ts:21-25 | the encoding is the print of the canonical form |
| `BencodeLaws.EncodeThenDecode` | docs/deno-torrent/bencode/decode.ts:43-255 | decoding an encoding gives the value back exactly when it nests within the limit and no text of it is led by a mark |
| `BencodeLaws.DecodeThenEncode` | docs/deno-torrent/bencode/encode.ts:27-110 | accepted bytes are the print of one tree only; encoding the value gives them back exactly when no token is led by a mark |
| `BencodeLaws.MarkFreeInputIsCanonical` | docs/deno-torrent/bencode/decode.ts:93-255 | without a byte order mark in it, accepted input is the canonical encoding of its value |
| `BencodeLaws.MarkedIntegerIsAccepted` | docs/deno-torrent/bencode/decode.ts:195-209 | an accepted integer that is not canonical |
| `BencodeLaws.ShortestNotCanonical` | docs/deno-torrent/bencode/decode.ts:211-255 | the string of nothing but a mark, five bytes, is accepted and is not canonical; whatever is accepted of fewer bytes is canonical |
| `BencodeLaws.EncodingsArePrefixFree` | docs/deno-torrent/bencode/encode.ts:21-110 | no encoding is a proper prefix of another, and equal encodings have equal canonical values |
| `InfoLocator.ReadByteString` | docs/deno-torrent/metainfo/identity.ts:205-216 | the scanner's byte-string step as a function of the input, errors included |
| `InfoLocator.SkipValue` | docs/deno-torrent/metainfo/identity.ts:174-203 | the cursor loop equals the recursive scan |
| `InfoLocator.ExtractInfo` | docs/deno-torrent/metainfo/identity.ts:76-102 | the root loop equals the recursive search for the info entry |
| `InfoLocator.ScannerAgrees` | docs/deno-torrent/metainfo/identity.ts:174-203 | on every printed well-formed value the scanner ends exactly at its end, or fails exactly when it lies too deep |
| `InfoLocator.FindsInfo` | docs/deno-torrent/metainfo/identity.ts:76-102 | the search succeeds exactly when an info dictionary is there and nothing lies too deep, and yields its bytes |
| `MetainfoWrapping.ExtractionAgreesWithDecoder` | docs/deno-torrent/metainfo/identity.ts:76-102 | on every accepted metainfo the slice is the print of the root's info value and decodes to what the decoder puts there; success has an exact condition |
| `MetainfoWrapping.MergeLayers` | docs/deno-torrent/metainfo/identity.ts:150-154 | the loop over the layers fills a map keyed by the root arrays: one given again keeps its place and replaces the hashes |
| `MetainfoWrapping.MergedHoldsLast` | docs/deno-torrent/metainfo/identity.ts:150-154 | that map holds each root array once, with the hashes given for it last, and nothing else |
| `MetainfoWrapping.WrappableExactly` | docs/deno-torrent/metainfo/identity.ts:150-154 | wrapping refuses the layers exactly when two different arrays with the same bytes are given as roots |
| `MetainfoWrapping.WrapFields` | docs/deno-torrent/metainfo/identity.ts:134-167 | the optional fields, sorted, are the printed entries of the wrapped root |
| `MetainfoWrapping.JoinFields` | docs/deno-torrent/metainfo/identity.ts:156-166 | the output buffer, allocated with the total length and filled chunk by chunk, is the fields between the dictionary marks |
| `MetainfoWrapping.WrapInfo` | docs/deno-torrent/metainfo/identity.ts:134-167 | the result is the print of the wrapped root, or the error the source raises |
| `WireFormats.WrappedBytes` | docs/deno-torrent/metainfo/identity.ts:134-167 | the bytes of the wrapped root, field by field |
| `WireFormats.OuterKeys` | docs/deno-torrent/metainfo/identity.ts:134-167 | its keys, byte by byte |
| `WireFormats.ListsKeepOrder` | docs/deno-torrent/metainfo/identity.ts:140-154 | tiers and layers stand in the given order |
| `MetainfoWrapping.WrapThenExtract` | docs/deno-torrent/metainfo/identity.ts:76-167 | for every set of fields: wrapped bytes are accepted, and extraction gives the info bytes back, exactly under the nesting and layer-key conditions |
| `MetainfoWrapping.WrappedTooDeep` | docs/deno-torrent/metainfo/identity.ts:76-167 | info dictionaries that fail the nesting conditions: 257 deep cannot be extracted, 1001 deep is refused once wrapped |
| `MetainfoWrapping.MarkedLayerRoots` | docs/deno-torrent/metainfo/identity.ts:76-167 | two roots of 32 bytes that fail the layer-key condition: around any info dictionary wrapping succeeds, and the wrapped bytes are refused by the decoder and by extraction |
| `MetadataMessages.BencodePrefixLength` | docs/deno-torrent/peerwire/ut_metadata.ts:384-423 | the prefix scan as a function of the input |
| `MetadataMessages.PrefixIsTheValue` | docs/deno-torrent/peerwire/ut_metadata.ts:384-423 | a value followed by any bytes: the prefix is exactly the value when it lies within the depth bound, and fails otherwise |
| `MetadataMessages.EncodeHeader` | docs/deno-torrent/peerwire/ut_metadata.ts:332-339 | the header bytes of a message |
| `WireFormats.HeaderBytes` | docs/deno-torrent/peerwire/ut_metadata.ts:332-339 | the header of a request or reject, byte by byte |
| `WireFormats.BlockHeaderBytes` | docs/deno-torrent/peerwire/ut_metadata.ts:332-339 | the header of a block |
| `MetadataMessages.MessagesRoundTrip` | docs/deno-torrent/peerwire/ut_metadata.ts:332-381 | requests, rejects and data with any block appended decode to themselves |
| `MetadataExchange.UtMetadata.OnMessage` | docs/deno-torrent/peerwire/ut_metadata.ts:130-173 | which pending piece a message settles, and how, or what it is answered with |
| `MetadataPeers.ResolvedExactly` | docs/deno-torrent/peerwire/ut_metadata.ts:146-173 | a block is resolved, as it came, exactly when the size is the known one and within the limit, the piece is one of it, and the block is as long as that piece |
| `MetadataPeers.AcceptedBlocksFill` | docs/deno-torrent/peerwire/ut_metadata.ts:130-245 | whatever a peer sends, blocks resolved for all pieces make up exactly the advertised number of bytes |
| `MetadataExchange.ServeSendsReply` | docs/deno-torrent/peerwire/ut_metadata.ts:304-322 | the bytes served for a request decode to the block asked for, or to a reject beyond the end |
| `MetadataExchange.RunsKeepInvariant` | docs/deno-torrent/peerwire/ut_metadata.ts:186-302 | each piece taken is pending with exactly one message under way, held, or stored, and no two workers hold the same piece |
| `MetadataExchange.DownloadIsLossless` | docs/deno-torrent/peerwire/ut_metadata.ts:186-322 | for every interleaving: each block is requested once, at most the limit are outstanding, and the finished download is the served metadata |
| `MetadataExchange.DownloadNeverStalls` | docs/deno-torrent/peerwire/ut_metadata.ts:186-302 | until all workers have finished some step is possible |
| `MetadataExchange.DownloadEnds` | docs/deno-torrent/peerwire/ut_metadata.ts:186-302 | every interleaving takes the same number of steps to its end, four for each block and one for each worker |
| `MetadataExchange.DownloadCompletes` | docs/deno-torrent/peerwire/ut_metadata.ts:186-322 | so a run that has taken them all, or that cannot go on, holds exactly the served metadata |
| `MetadataBytes.RunIsMirrored` | docs/deno-torrent/peerwire/ut_metadata.ts:130-322 | a run in which bytes travel and each side decodes them is mirrored step by step by a run of messages |
| `MetadataBytes.BytesAreLossless` | docs/deno-torrent/peerwire/ut_metadata.ts:130-381 | for every interleaving over bytes: whatever is under way decodes to the request or the block of a pending piece, and the finished download is the served metadata |
| `MetadataBytes.BytesComplete` | docs/deno-torrent/peerwire/ut_metadata.ts:130-381 | a run over bytes that cannot go on, or has taken all its steps, holds exactly the served metadata |
| `MetadataExchange.Assemble` | docs/deno-torrent/peerwire/ut_metadata.ts:186-245 | the buffer filled block by block is their concatenation |
| `PeerRuns.RunIsSound` | docs/deno-torrent/peerwire/peer_wire.ts:635-665 | with operations as single steps, the accounts of promises and the limits of both maps hold in every state reachable from a sound one, and a closed session stays closed |
| `PeerRuns.PromisesSettleOnce` | docs/deno-torrent/peerwire/peer_wire.ts:635-1394 | over piece, reject, choke, cancel, timeout, abort and close, each as one step, each promise waits or was settled by exactly one call; delivered data has the length asked for, and which data it is says `DeliveredIsReceived`; both maps stay within the limit; a closed session stays closed and leaves nothing pending |
| `PeerFates.FatesOfWhole` | docs/deno-torrent/peerwire/peer_wire.ts:635-1394 | so over every such run: each step settles, with the outcome its message or event brings, exactly the promises it ends, and leaves the others waiting |
| `PeerFates.DeliveredIsReceived` | docs/deno-torrent/peerwire/peer_wire.ts:974-989 | a step resolves a promise with data only by receiving a piece with that very data, for the block the promise was issued for |
| `PeerFates.PieceIsDelivered` | docs/deno-torrent/peerwire/peer_wire.ts:974-989 | conversely a piece that passes its checks and answers a waiting request with a promise adds exactly that settlement |
| `PeerInterleaving.PromisesSettleOnceOverlapping` | docs/deno-torrent/peerwire/peer_wire.ts:400-1394 | the same when operations overlap: each promise waits or was settled by exactly one call, data has the length asked for, and which data it is says `DeliveredIsRead`; both maps stay within the limit, and after a close only calls that have failed and are about to reject their promises still wait |
| `PeerFates.FatesOverlapping` | docs/deno-torrent/peerwire/peer_wire.ts:400-1394 | in every reachable state with operations that overlap, each step settles exactly the promises it ends, with the outcome it brings |
| `PeerFates.DeliveredIsRead` | docs/deno-torrent/peerwire/peer_wire.ts:974-989 | there, too, a promise is resolved with data only by the read of a piece with that very data for its block |
| `PeerFates.PieceDelivers` | docs/deno-torrent/peerwire/peer_wire.ts:974-989 | and a piece that is read, passes its checks and answers a waiting request with a promise adds exactly that settlement |
| `PeerHistory.HistoryTells` | docs/deno-torrent/peerwire/peer_wire.ts:848-989 | over every run with overlapping operations: each flag is what the last message about it set, the pieces allowed fast and the place in the availability order follow from the messages written and taken in, and the requests held are, in the order in which they came, those taken in without being refused and not released since |
| `PeerChecks.AcceptedExactly` | docs/deno-torrent/peerwire/peer_wire.ts:530-575 | in every reachable state a message that was read is taken in exactly when its frame is within the limit, both sides know its kind, it comes in its time and speaks of bytes and pieces the torrent has, a request also only while there is room; any other closes the session |
| `PeerChecks.QueuedExactly` | docs/deno-torrent/peerwire/peer_wire.ts:470-527 | in every reachable state a message to be sent is queued exactly when the session is connected, the message passes the same tests, answers a request that is held, is new and within the limit if it is a request, and fits the queue; else nothing changes |
| `PeerChecks.RequestedExactly` | docs/deno-torrent/peerwire/peer_wire.ts:635-665 | a request with a promise is turned down at once, queued, or about to fail, under exact conditions of the same kind |
| `PeerChecks.QueueCounts` | docs/deno-torrent/peerwire/peer_wire.ts:752-788 | the write queue counts the bytes of the frames in it |
| `PeerChecks.BlockFitsExactly` | docs/deno-torrent/peerwire/peer_wire.ts:1164-1194 | the bounds check accepts a block exactly when it is not empty, within the limit, and each of its bytes is a byte of that piece of the torrent |
| `PeerChecks.BitsFitExactly` | docs/deno-torrent/peerwire/bitfield.ts:9-28 | it accepts a bitfield exactly when it has a bit for each piece, no byte too many and no bit set for a piece that does not exist |
| `PeerFrames.FramesAreInverse` | docs/deno-torrent/peerwire/message.ts:142-488 | decoding accepts exactly what encoding produces and gives back the message, those of unknown kind with the id of a known one apart |
| `PeerFrames.StreamIsRead` | docs/deno-torrent/peerwire/peer_wire.ts:530-575 | whatever follows them, frames written one after the other are read as those frames |
| `PeerFrames.OnlyWrittenIsRead` | docs/deno-torrent/peerwire/peer_wire.ts:530-575 | what is read from a stream, written again, is what the stream begins with, and all of it exactly when it ends cleanly |
| `PeerFrames.SentIsRead` | docs/deno-torrent/peerwire/message.ts:142-488 | what a session may send has a frame and is read as itself within the reader's limit, unless its id is stolen |
| `PeerFrames.BareFrames` | docs/deno-torrent/peerwire/constants.ts:23-43 | the frames without a body, byte by byte |
| `PeerFrames.IndexFrames` | docs/deno-torrent/peerwire/constants.ts:23-43 | frames of a piece index or a port |
| `PeerFrames.BlockFrames` | docs/deno-torrent/peerwire/constants.ts:23-43 | frames of block coordinates |
| `PeerFrames.DataFrames` | docs/deno-torrent/peerwire/constants.ts:23-43 | frames of a bitfield, a piece and an extended message |
| `PeerInterleaving.ReopensExactly` | docs/deno-torrent/peerwire/peer_wire.ts:400-453 | in every reachable state a closed session stays closed, whatever comes, exactly when no half of the handshake under way can complete with the other half done |
| `PeerInterleaving.MayReopen` | docs/deno-torrent/peerwire/peer_wire.ts:837-843 | a run in which a session that was connected is closed and then connected again |
| `PeerInterleaving.StaysClosed` | docs/deno-torrent/peerwire/peer_wire.ts:1375-1394 | from then on every step keeps it so |
| `PeerInterleaving.ClosedMapStaysEmptyExactly` | docs/deno-torrent/peerwire/peer_wire.ts:530-575 | a session closed for good comes to hold a request exactly when a message is being read and some request would be taken in from it |
| `PeerInterleaving.MayHoldLate` | docs/deno-torrent/peerwire/peer_wire.ts:530-575 | a run in which it does |
| `PeerInterleaving.SendAlone` | docs/deno-torrent/peerwire/peer_wire.ts:470-527 | a send that nothing overlaps is the single step of the other modules |
| `PeerInterleaving.ReadAlone` | docs/deno-torrent/peerwire/peer_wire.ts:530-575 | so is a read |
| `PeerRuns.OrderCheckIsExact` | docs/deno-torrent/peerwire/peer_wire.ts:1084-1121 | the availability check accepts a message exactly when the accepted messages with it still have at most one declaration, in first place, and with Fast one there |
| `PeerRuns.AvailabilityComesFirst` | docs/deno-torrent/peerwire/peer_wire.ts:1084-1121 | so every run accepts at most one declaration, and with Fast it precedes all but keepalive and extended messages |
| `PeerChoking.ChokeRejectsTheRest` | docs/deno-torrent/peerwire/peer_wire.ts:881-900 | a choke under Fast rejects, in order, exactly the requests that are not allowed fast, and keeps the others |
| `PeerChoking.ChokeWithoutFast` | docs/deno-torrent/peerwire/peer_wire.ts:881-900 | a choke under BEP 52 without Fast is written and keeps all requests; it succeeds exactly when there are none |
| `PeerChoking.ChokeFailsExactly` | docs/deno-torrent/peerwire/peer_wire.ts:881-900 | with operations as single steps, in every reachable state a choke that can be written fails exactly when requests are held under BEP 52 without Fast |
| `PeerChoking.ChokeMayFail` | docs/deno-torrent/peerwire/peer_wire.ts:881-900 | a run that reaches such a state |
| `PeerChoking.RunIsTidy` | docs/deno-torrent/peerwire/peer_wire.ts:881-1003 | requests held are distinct and answerable, and while choking under Fast all are allowed fast |
| `PeerChoking.RequestWhileChoking` | docs/deno-torrent/peerwire/peer_wire.ts:956-969 | with operations as single steps, in every reachable state an acceptable request is admitted or closes the session, the latter exactly when choking with reject semantics and not allowed fast; no reject is written |
| `PeerChoking.RequestMayBeRefused` | docs/deno-torrent/peerwire/peer_wire.ts:956-969 | a run and a request for which it closes the session |
| `PeerOverlaps.TurnFailsExactly` | docs/deno-torrent/peerwire/peer_wire.ts:881-900 | when operations overlap: in every reachable state, at the turn of a request of its snapshot, a choke fails exactly when the session is not connected, Fast is not negotiated, the availability slot is open, the request is no longer held, or the queue is full; else that reject is under way and nothing else changes |
| `PeerOverlaps.FailsOnlyAtTurn` | docs/deno-torrent/peerwire/peer_wire.ts:881-900 | a choke fails in no other step, except when the write of one of its rejects is lost |
| `PeerOverlaps.FailsOnlyForAnswered` | docs/deno-torrent/peerwire/peer_wire.ts:881-900 | under Fast, a request of the snapshot that is no longer held at its turn was answered in between, or the session was closed |
| `PeerOverlaps.OnlyAnswersRelease` | docs/deno-torrent/peerwire/peer_wire.ts:1035-1051 | over every run a request held leaves only when a piece or reject for it is written or the session closes |
| `PeerOverlaps.RefusalFailsExactly` | docs/deno-torrent/peerwire/peer_wire.ts:956-969 | in every reachable state a request refused at once gets its reject exactly when nothing hinders it, which takes that the same request is still held; else the read fails |
| `PeerOverlaps.OverlappedChokeMayFail` | docs/deno-torrent/peerwire/peer_wire.ts:881-900 | a reachable state with Fast in which a choke has failed because a request was answered before its turn |
| `PeerPair.SendMoves` | docs/deno-torrent/peerwire/peer_wire.ts:470-527 | sending adds exactly the requests written to those awaited and takes exactly the answers written from those held |
| `PeerPair.ReceiveReads` | docs/deno-torrent/peerwire/peer_wire.ts:530-575 | receiving takes exactly the answer from those awaited and adds exactly the request to those held, or closes |
| `PeerPair.RequestsStayCorrelated` | docs/deno-torrent/peerwire/peer_wire.ts:470-1082 | two endpoints, any schedule: requests awaited are the disjoint union of those under way, those held and those whose answer is under way; no unsolicited piece, unsent reject or limit error is raised |
| `PeerPair.QuietEndpointsAgree` | docs/deno-torrent/peerwire/peer_wire.ts:470-1082 | with nothing under way each side waits for exactly what the other holds |
| `PeerPair.LateAnswerEndsSession` | docs/deno-torrent/peerwire/peer_wire.ts:974-989 | why timeouts are kept out of the theorem above: an answer that passes all checks after its request expired closes the session as unsolicited exactly under reject semantics, and otherwise changes no request |
| `PeerWires.PeerWire.RejectPeerRequests` | docs/deno-torrent/peerwire/peer_wire.ts:881-900 | the loop over a snapshot of the requests equals the recursive rejection |
| `PeerWires.PeerWire.RemoveAll` | docs/deno-torrent/peerwire/peer_wire.ts:1385-1387 | the loop over the pending requests settles each of them once, in order |
| `Merkle.SplitHashes` | docs/deno-torrent/metainfo/v2.ts:181-185 | the 32-byte slices in order |
| `WireFormats.LayerSlices` | docs/deno-torrent/metainfo/v2.ts:181-185 | slice i of a layer is its bytes 32 i to 32 i + 31 |
| `WireFormats.ThreeBlocks` | docs/deno-torrent/metainfo/v2.ts:160-179 | the root of three blocks, its fourth leaf 32 zero bytes |
| `Merkle.ZeroNode` | docs/deno-torrent/metainfo/v2.ts:160-172 | doubling the zero leaf gives the root of a piece of zero leaves |
| `Merkle.LevelUp` | docs/deno-torrent/metainfo/v2.ts:160-172 | one level is the pairwise hashes |
| `Merkle.PairUpKeepsRoot` | docs/deno-torrent/metainfo/v2.ts:160-172 | pairing a level keeps the recursive root |
| `Merkle.RootOfLayer` | docs/deno-torrent/metainfo/v2.ts:160-172 | the root over subtree roots is the root over all leaves |
| `Merkle.MerkleRootFromPieceLayer` | docs/deno-torrent/metainfo/v2.ts:160-185 | the level loop returns the root of the whole file's block tree padded with zero leaves to a power of two |
| `FileLayout.FlattenV2Files` | docs/deno-torrent/metainfo/v2.ts:33-86 | the stack walk equals the recursive pre-order traversal with its piece ranges, and fails exactly when that does |
| `FileTree.TreeIsValidExactly` | docs/deno-torrent/metainfo/v2.ts:33-86 | a tree is valid exactly when every node that names lead to is a directory with proper names or a file, and none lies too deep |
| `FileTree.WalkFindsFiles` | docs/deno-torrent/metainfo/v2.ts:33-86 | the files found are exactly those that names lead to, with these names as their paths, in the order of their places in the tree |
| `FileTree.FlattenedExactly` | docs/deno-torrent/metainfo/v2.ts:33-86 | a result needs a valid tree, from one to a million files and a piece length that is a power of two from 2^14 to 2^52 |
| `FileTree.LayoutHoldsFiles` | docs/deno-torrent/metainfo/utils.ts:137-168 | the real files of a padded layout are the files of the list, in order |
| `FileTree.PaddingIsLeast` | docs/deno-torrent/metainfo/utils.ts:137-168 | padding stands only before a file that is not empty, begins inside a piece and goes to its end |
| `FileLayout.PushChildren` | docs/deno-torrent/metainfo/v2.ts:33-86 | children pushed in reverse are visited in order |
| `FileLayout.RangesAreContiguous` | docs/deno-torrent/metainfo/v2.ts:33-86 | piece ranges follow one another from zero and have the least size that holds each file |
| `FileLayout.BuildPieceFiles` | docs/deno-torrent/metainfo/utils.ts:137-168 | the loop over files builds the specified padded layout |
| `FileLayout.ValidateHybridLayout` | docs/deno-torrent/metainfo/v2.ts:136-158 | accepts exactly the layouts whose real files are those of the list, with the same paths and lengths, each but the first at an offset that is a multiple of the piece length |
| `FileLayout.PaddedLayoutIsAccepted` | docs/deno-torrent/metainfo/v2.ts:136-158 | the padded layout is accepted exactly when empty files are aligned, so always for non-empty files |
| `FileLayout.EmptyFileMayBeRejected` | docs/deno-torrent/metainfo/v2.ts:136-158 | an empty file behind a file that ends inside a piece is refused |
| `FileLayout.OffsetsMatchPieceStarts` | docs/deno-torrent/metainfo/utils.ts:137-168 | each non-empty file's offset in the padded layout is its piece start times the piece length |
| `Sha1.ChooseByOr` | docs/deno-torrent/toolkit/hash/hash_util.ts:113-117 | the code's first round function is the Ch of FIPS 180-4 |
| `Sha1.MajorityByOr` | docs/deno-torrent/toolkit/hash/hash_util.ts:113-120 | the code's third round function is the Maj of FIPS 180-4 |
| `Sha1.Sha1Hasher.ExpandWords` | docs/deno-torrent/toolkit/hash/hash_util.ts:104-111 | the word loop computes the message schedule, which `ScheduleBits` and `FirstWordAt` say bit by bit |
| `Sha1Example.ScheduleBits` | docs/deno-torrent/toolkit/hash/hash_util.ts:108-111 | bit i of schedule word t is the exclusive or of bit (i + 31) mod 32 of the words 3, 8, 14 and 16 before it |
| `Sha1Example.FirstWordAt` | docs/deno-torrent/toolkit/hash/hash_util.ts:107-107 | the first 16 words are the bytes of the block, the most significant first |
| `Sha1Example.BigEndianAt` | docs/deno-torrent/toolkit/hash/hash_util.ts:84-88 | each byte of the length |
| `Sha1Example.AbcDigest` | docs/deno-torrent/toolkit/hash/hash_util.ts:77-133 | the hash of the three bytes abc is the published one |
| `Sha1.Sha1Hasher.ProcessBlock` | docs/deno-torrent/toolkit/hash/hash_util.ts:104-133 | processing a block is the compression function of FIPS 180-4, as worked out through all 80 rounds by `AbcDigest` |
| `Sha1.Sha1Hasher.Update` | docs/deno-torrent/toolkit/hash/hash_util.ts:51-75 | whatever the split, the hasher then stands for the whole message so far |
| `Sha1.Sha1Hasher.Digest` | docs/deno-torrent/toolkit/hash/hash_util.ts:77-96 | the digest is the one-shot hash of the padded message, of which `AbcDigest` works out the published example, and the hasher is unchanged |
| `Sha1.WriteLength` | docs/deno-torrent/toolkit/hash/hash_util.ts:77-96 | the backward loop writes the length, most significant byte first |
| `Sha1.Sha1Hasher.Reset` | docs/deno-torrent/toolkit/hash/hash_util.ts:98-102 | back to the empty message |
| `Sha1.FoldJoin` | docs/deno-torrent/toolkit/hash/hash_util.ts:51-75 | folding whole blocks in two parts is folding them at once |
| `Sha1.PaddedSplit` | docs/deno-torrent/toolkit/hash/hash_util.ts:77-96 | one or two final blocks complete the hash of the padded message |
| `PieceHashing.PieceHasher.Update` | docs/deno-torrent/metainfo/utils.ts:28-37 | takes the data, finishing a piece whenever it is full |
| `PieceHashing.PieceHasher.UpdateZeros` | docs/deno-torrent/metainfo/utils.ts:39-46 | the same as supplying that many zero bytes |
| `PieceHashing.PieceHasher.Digest` | docs/deno-torrent/metainfo/utils.ts:48-57 | the digests of the consecutive piece-size slices of everything supplied |
| `PieceHashing.DigestsJoin` | docs/deno-torrent/metainfo/utils.ts:18-58 | the digests of whole pieces and of what follows are those of the whole |
| `PieceHashing.DigestOfPiece` | docs/deno-torrent/metainfo/utils.ts:18-58 | bytes 20 i to 20 i + 19 are the digest of slice i of the data |
| `PieceHashing.DigestCount` | docs/deno-torrent/metainfo/utils.ts:18-58 | there are as many digests as slices, and nothing else |
| `IdSpace.GeneratesSplit` | docs/deno-torrent/torrent-dht/routing_table.ts:69-90 | each halving splits the ids of an interval by their distance |
| `IdSpace.BucketsFollowTheMetric` | docs/deno-torrent/torrent-dht/routing_table.ts:51-90 | for every width and local id: as many ranges as bits, range k is exactly the distances from 2^(n-1-k) up to 2^(n-k), each other id is in exactly one and the local id in none |
| `IdSpace.RangesAreDisjoint` | docs/deno-torrent/torrent-dht/routing_table.ts:51-90 | no number is in two ranges |
| `IdSpace.XorIsZero` | docs/deno-torrent/toolkit/bytes/bit_array.ts:206-216 | the distance of two ids is zero exactly when they are equal |
| `RoutingTable.Bucket.AddNode` | docs/deno-torrent/torrent-dht/bucket.ts:100-118 | renews a known node in place, refuses when full, puts a new one first |
| `RoutingTable.Bucket.RemoveNode` | docs/deno-torrent/torrent-dht/bucket.ts:144-156 | takes out the node with that id |
| `RoutingTable.Bucket.ReplaceNode` | docs/deno-torrent/torrent-dht/bucket.ts:121-126 | replaces exactly when the stale node is there and the new one is not |
| `RoutingTable.ReplaceStocks` | docs/deno-torrent/torrent-dht/bucket.ts:121-126 | the new node is in, the stale one out, all others stay, and the bucket stays within its capacity |
| `RoutingTable.KBuckets.AddNode` | docs/deno-torrent/torrent-dht/routing_table.ts:98-105 | adds to the bucket of the id's range only |
| `RoutingTable.KBuckets.ReplacementCandidate` | docs/deno-torrent/torrent-dht/routing_table.ts:108-115 | the candidate of the specification; `ProbesAskTheOldest` says which node that is |
| `RoutingTable.KBuckets.ReplaceNode` | docs/deno-torrent/torrent-dht/routing_table.ts:118-123 | replaces in the bucket of the new node's range |
| `RoutingTable.KBuckets.ConsiderNode` | docs/deno-torrent/torrent-dht/krpc.ts:195-205 | up to the probe: keep a known node, add to a bucket with room, else probe the node that `ProbesAskTheOldest` names |
| `RoutingTable.KBuckets.FinishProbe` | docs/deno-torrent/torrent-dht/krpc.ts:203-231 | behind the probe: replace only when it failed |
| `RoutingTable.TableStaysInPlace` | docs/deno-torrent/torrent-dht/krpc.ts:195-231 | for every interleaving of probes and removals: each node in the one bucket of its range, ids distinct table-wide, no bucket overfull, the local id not stored |
| `RoutingTable.KBuckets.constructor` | docs/deno-torrent/torrent-dht/routing_table.ts:51-56 | an empty bucket for each range |
| `RoutingHistory.BucketsAreByAge` | docs/deno-torrent/torrent-dht/bucket.ts:100-118 | over every run a bucket's nodes are in descending order of the events at which they came into the table |
| `RoutingHistory.ProbesAskTheOldest` | docs/deno-torrent/torrent-dht/krpc.ts:195-205 | a considered node leads to a probe exactly when its bucket is full without it and its id is nowhere in the table, and the probe asks the node there that came first |
| `RoutingHistory.HeldExactly` | docs/deno-torrent/torrent-dht/krpc.ts:195-231 | over every run: exactly which ids each event brings in and takes out |
| `RoutingHistory.ContactsAreLatest` | docs/deno-torrent/torrent-dht/bucket.ts:100-118 | whatever stands in the table was there before, just so, or is the node of this event, and a node considered while held is stored as it is |
| `RoutingHistory.AddReports` | docs/deno-torrent/torrent-dht/routing_table.ts:98-105 | adding reports true exactly when the id was not held and now is |
| `RoutingHistory.ReplaceReports` | docs/deno-torrent/torrent-dht/routing_table.ts:118-123 | so does replacing |
| `RoutingTable.LostOnlyAfterFailedProbe` | docs/deno-torrent/torrent-dht/krpc.ts:195-231 | an id leaves the table only by removal or after a failed probe of that very node, and then the waiting node is stored |
| `NodeLookup.DistanceIsInjective` | docs/deno-torrent/torrent-dht/dht.ts:444-449 | XOR distance to a fixed target is injective |
| `NodeLookup.NearestIsUnique` | docs/deno-torrent/torrent-dht/dht.ts:298-306 | so the batch does not depend on the order of candidates |
| `NodeLookup.ChooseBatch` | docs/deno-torrent/torrent-dht/dht.ts:298-306 | filter, sort and slice give the nearest candidates not asked yet |
| `NodeLookup.TakeAnswers` | docs/deno-torrent/torrent-dht/dht.ts:319-333 | one round: the candidates and the peers after its answers, and how many answered |
| `NodeLookup.GetPeers` | docs/deno-torrent/torrent-dht/dht.ts:263-345 | the loop ends, and what it returns is what the one complete run found: every batch the nearest candidates not asked among all that was learned by then, and an end only at a limit, at the deadline, or with nobody left to ask |
| `NodeLookup.AskedAreDifferent` | docs/deno-torrent/torrent-dht/dht.ts:298-307 | over all rounds the nodes asked are different, never the local one, and within the limit |
| `NodeLookup.FoundIsBounded` | docs/deno-torrent/torrent-dht/dht.ts:319-333 | the peers are different, and at most maxPeers + concurrency - 1 |
| `NodeLookup.LearnedAreTold` | docs/deno-torrent/torrent-dht/dht.ts:281-333 | the candidates are exactly the nodes known at the start, known in a round, or told by a node that was asked, without the local one |
| `NodeLookup.FoundAreGiven` | docs/deno-torrent/torrent-dht/dht.ts:319-333 | the peers were all given by nodes that were asked, and none that was given is missing unless the limit is reached |
| `LookupHistory.RoundsAreDue` | docs/deno-torrent/torrent-dht/dht.ts:296-307 | a round begins only in time, while fewer nodes than allowed were asked and fewer peers than wanted found, and asks from one to `concurrency` nodes |
| `LookupHistory.OverExactly` | docs/deno-torrent/torrent-dht/dht.ts:296-304 | the lookup is over exactly when a limit is reached, the time is up or every candidate was asked |
| `LookupHistory.ExhaustedExactly` | docs/deno-torrent/torrent-dht/dht.ts:336-344 | it is reported as exhausted, when the time is not up, exactly when all nodes heard of were asked, the local one apart |
| `LookupHistory.AnsweredCounts` | docs/deno-torrent/torrent-dht/dht.ts:319-321 | the number of responding nodes is that of the different nodes that answered |
| `LookupHistory.CandidatesAreLatest` | docs/deno-torrent/torrent-dht/dht.ts:280-286 | a candidate stands with the contact data with which it was heard of last |
| `LookupHistory.FoundInOrder` | docs/deno-torrent/torrent-dht/dht.ts:325-332 | the peers found stand in the order in which they were given |
| `NodeLookup.LookupIsDetermined` | docs/deno-torrent/torrent-dht/dht.ts:296-334 | what the network does leaves one complete run only |
| `AnnounceTokens.TokenManager.RotateIfNeeded` | docs/deno-torrent/torrent-dht/token_manager.ts:54-62 | lazy rotation as specified |
| `AnnounceTokens.TokenManager.Issue` | docs/deno-torrent/torrent-dht/token_manager.ts:35-38 | the token of the then current secret, which is less than one interval old |
| `AnnounceTokens.TokenManager.Validate` | docs/deno-torrent/torrent-dht/token_manager.ts:41-46 | accepts exactly tokens of the current or previous secret |
| `AnnounceTokens.ConstantTimeEqual` | docs/deno-torrent/torrent-dht/token_manager.ts:73-82 | the loop without early exit decides equality |
| `AnnounceTokens.YoungTokenIsValid` | docs/deno-torrent/torrent-dht/token_manager.ts:35-71 | under any schedule of calls a token validates for its address for less than one interval |
| `AnnounceTokens.OldTokenIsInvalid` | docs/deno-torrent/torrent-dht/token_manager.ts:35-71 | with fresh secrets and an injective hash it never validates at or after three intervals |
| `AnnounceTokens.TokenMayLiveLong` | docs/deno-torrent/torrent-dht/token_manager.ts:54-62 | the three intervals cannot be made less |
| `AnnounceTokens.TokenMayDieYoung` | docs/deno-torrent/torrent-dht/token_manager.ts:54-62 | the one interval cannot be made more |
| `AnnounceTokens.TokenIsBoundToAddress` | docs/deno-torrent/torrent-dht/token_manager.ts:64-71 | a token is refused for any other address |
| `UtpSeq.OrderAgrees` | docs/deno-torrent/utp/util.ts:94-119 | comparisons, distance and addition agree with integers less than 2^15 apart |
| `UtpSeq.HalfWayIsUnordered` | docs/deno-torrent/utp/util.ts:94-119 | at exactly 2^15 apart neither number is before the other |
| `UtpSack.SortSorts` | docs/deno-torrent/utp/utp_ext_sack.ts:61-118 | sorting puts all the numbers in order of their distance |
| `UtpSack.Create` | docs/deno-torrent/utp/utp_ext_sack.ts:61-118 | the mask marks exactly the numbers that count as ahead and is the shortest multiple of four bytes that covers all |
| `UtpSack.GetReceivedSequenceNumbers` | docs/deno-torrent/utp/utp_ext_sack.ts:146-160 | the numbers of the set bits in order |
| `UtpSack.GetMissingSequenceNumbers` | docs/deno-torrent/utp/utp_ext_sack.ts:127-143 | the next expected number and those of the clear bits in order |
| `UtpSack.MaskKeepsReceived` | docs/deno-torrent/utp/utp_ext_sack.ts:61-160 | reading back gives exactly the numbers put in that count as ahead; the missing ones are the complement in the range |
| `WireFormats.MaskBits` | docs/deno-torrent/utp/utp_ext_sack.ts:146-160 | of the bits of a mask's byte the lowest comes first |
| `UtpSack.MaskFitsLengthByte` | docs/deno-torrent/utp/utp_ext_sack.ts:83-97 | the mask fits the length byte exactly when no number is 2016 or more ahead |
| `UtpPacket.ToBytes` | docs/deno-torrent/utp/utp_packet.ts:149-184 | the filled buffer is the header, the chain and the data |
| `UtpPacket.FromBytes` | docs/deno-torrent/utp/utp_packet.ts:79-147 | the parse loop equals the recursive decoding, errors included |
| `UtpPacket.HeaderSlices` | docs/deno-torrent/utp/utp_packet.ts:149-184 | the place of every header field |
| `WireFormats.TwoBytes` | docs/deno-torrent/utp/utp_packet.ts:149-184 | fields of two bytes have the most significant byte first |
| `WireFormats.FourBytes` | docs/deno-torrent/utp/utp_packet.ts:149-184 | so have fields of four |
| `WireFormats.ChainBytes` | docs/deno-torrent/utp/utp_packet.ts:149-184 | an extension is the type of the one behind it, its length and its payload |
| `UtpPacket.HeaderFields` | docs/deno-torrent/utp/utp_packet.ts:79-184 | every header field comes back |
| `UtpPacket.PacketRoundTrip` | docs/deno-torrent/utp/utp_packet.ts:79-184 | a packet with any chain survives encoding and decoding exactly when every payload has at most 255 bytes |
| `UtpPacket.SackSurvives` | docs/deno-torrent/utp/utp_packet.ts:79-184 | a selective acknowledgement anywhere in such a chain yields the same received and missing numbers |
| `UtpPacket.SackRoundTrip` | docs/deno-torrent/utp/utp_packet.ts:79-184 | from the numbers received to those read at the other end, through mask, chain and packet: they are the same, the missing ones being the rest of the range, exactly when none is 2016 or more ahead |
| `UtpReceiver.CircularQueue.Enqueue` | docs/deno-torrent/utp/circular_queue.ts:45-61 | replaces a known key, else adds it, pushing the least key out of a full queue |
| `UtpReceiver.CircularQueue.DequeueByKey` | docs/deno-torrent/utp/circular_queue.ts:63-73 | takes the entry out and keeps the least key known |
| `UtpReceiver.UtpConn.ProcessReceivedPackets` | docs/deno-torrent/utp/utp_conn.ts:422-447 | the loop passes on packets as long as the next one is there |
| `UtpReceiver.UtpConn.HandleAtConnected` | docs/deno-torrent/utp/utp_conn.ts:314-412 | one arrival as specified: ignored, or queued and processed, with the FIN noted and the end signalled |
| `UtpReceiver.HandleFollows` | docs/deno-torrent/utp/utp_conn.ts:314-447 | an arrival keeps what was received a prefix; nothing deliverable is held back; the next packet in order is passed on at once unless a FIN more than half the sequence space ahead is known |
| `UtpReceiver.NextIsPassedOn` | docs/deno-torrent/utp/utp_conn.ts:314-447 | when all arrivals are at most half the sequence space ahead, the next packet in order is always passed on at once |
| `UtpReceiver.ReceivedIsPrefix` | docs/deno-torrent/utp/utp_conn.ts:314-447 | under any loss, reordering, eviction and repetition of what is not older than the last acknowledgement, the bytes passed on are a prefix of the stream, and its end is reported exactly when all of it was passed on |
| `UtpLosses.OversizedIsLost` | docs/deno-torrent/utp/utp_conn.ts:422-447 | for packets of any size: what is received are the bytes of the packets passed on that fit the buffer, all their bytes exactly when none is too large; a stream whose end is reported was received whole exactly when every packet fits |
| `UtpLosses.WaitsUntilDue` | docs/deno-torrent/utp/circular_queue.ts:45-73 | on each arrival every other waiting packet goes on waiting exactly unless it is passed on, or has the least number in a full queue that takes in a new one; the arriving packet is passed on or waits |
| `UtpReceiver.OldDuplicateIsMistaken` | docs/deno-torrent/utp/utp_conn.ts:333-340 | what one old duplicate does on its arrival: of those less than 2^16 behind, exactly one that lags by 2^16 - 1 and is not ignored changes what is received at once |
| `UtpReceiver.OldDuplicateExample` | docs/deno-torrent/utp/utp_conn.ts:333-340 | a stream and a state in which that happens |
| `UtpDuplicates.OrderBreaksExactly` | docs/deno-torrent/utp/utp_conn.ts:314-447 | for whatever arrives of what was sent, of any age: the packets are passed on in order exactly when no arrival makes a packet due that is queued in another's place |
| `UtpDuplicates.PrefixWhileUndisturbed` | docs/deno-torrent/utp/utp_conn.ts:314-447 | such runs pass on a prefix of the stream; its end is reported exactly when all of it was passed on, if nothing arrives a turn early |
| `UtpDuplicates.WindowRunsAreUndisturbed` | docs/deno-torrent/utp/utp_conn.ts:314-447 | the runs of `ReceivedIsPrefix` are such runs |
| `UtpDuplicates.ShortStreamsAreSafe` | docs/deno-torrent/utp/utp_conn.ts:314-447 | all runs of a stream of fewer than 2^16 packets are such runs, whatever is lost, repeated at any age, reordered or evicted |
| `UtpDuplicates.PrefixBreaksExactly` | docs/deno-torrent/utp/circular_queue.ts:45-73 | for streams of any length whose packets can be told apart, of which none arrives a turn early, the bytes passed on are a prefix exactly when no old duplicate is still queued, neither overwritten nor pushed out, when its number is next |
| `UtpDuplicates.LongStreamsBreak` | docs/deno-torrent/utp/utp_conn.ts:314-447 | every longer stream has a run that is disturbed: 65535 packets in order, the first one again, and then packet 65536 |
| `UtpDuplicates.DuplicateBreaksPrefix` | docs/deno-torrent/utp/utp_conn.ts:314-447 | a stream for which what was received in that run is no prefix of what was sent |
| `UtpDuplicates.HarmlessExactlyWhenShort` | docs/deno-torrent/utp/utp_conn.ts:314-447 | so for packets that can be told apart and a queue of two or more, every run passes on a prefix exactly when the stream has fewer than 2^16 packets |
| `UtpSendWindow.AdmitIsOrderly` | docs/deno-torrent/utp/blocking_map.ts:86-91 | setters are let in one by one, first come first, until the map is full |
| `UtpSendWindow.SetIsOrderly` | docs/deno-torrent/utp/blocking_map.ts:25-35 | promises settle in the order of the calls, and a setter waits only on a full map |
| `UtpSendWindow.AbortIsOrderly` | docs/deno-torrent/utp/blocking_map.ts:74-78 | all waiting setters are rejected in order |
| `UtpSendWindow.StepIsSound` | docs/deno-torrent/utp/utp_send_window.ts:123-289 | every operation keeps the invariant, except exactly a clean reset while a flush waits and no setter does |
| `UtpSendWindow.NoLostWakeups` | docs/deno-torrent/utp/utp_send_window.ts:123-289 | over every other run: setters wait only on a full window of at least one packet and settle once, in turn; a flush waits only on a non-empty window without error |
| `UtpSendWindow.ConnectionLosesNoWakeups` | docs/deno-torrent/utp/utp_conn.ts:790-805 | the connection resets with an error only, and so the same holds over all its runs |
| `UtpSendWindow.CleanResetStrands` | docs/deno-torrent/utp/utp_send_window.ts:264-274 | a run with a clean reset that ends with a flush waiting on an empty window |
| `UtpSendWindow.ResolvedFlushMeansIdle` | docs/deno-torrent/utp/utp_send_window.ts:179-186 | when a flush resolves nothing is in flight or queued |
| `UtpSendWindow.ResetKeepsFlush` | docs/deno-torrent/utp/utp_send_window.ts:264-274 | a clean reset keeps the invariant exactly when no flush waits or some setter does |
| `UtpWindowObjects.BlockingMap.ResolveNextSetter` | docs/deno-torrent/utp/blocking_map.ts:86-91 | the loop lets waiting setters in, first come first, until the map is full |
| `UtpWindowObjects.BlockingMap.Abort` | docs/deno-torrent/utp/blocking_map.ts:74-78 | empties the map and rejects all waiting setters |
| `UtpWindowObjects.SendWindow.DeleteAcked` | docs/deno-torrent/utp/utp_send_window.ts:214-224 | the loop over the selectively acknowledged numbers takes exactly those packets out |
| `UtpWindowObjects.SendWindow.DeleteUpTo` | docs/deno-torrent/utp/utp_send_window.ts:227-234 | the loop over the numbers in flight takes the cumulatively acknowledged ones out, which are those `AckTakesExactly` names |
| `UtpDelivery.AckTakesExactly` | docs/deno-torrent/utp/utp_send_window.ts:200-250 | an acknowledgement leaves exactly the packets not named selectively that lie ahead of the latest cumulative one in the sequence space, and lets in as many waiting setters as there is room for, in order |
| `UtpDelivery.AckLeaves` | docs/deno-torrent/utp/utp_send_window.ts:200-250 | with no setter waiting, the map is the old one restricted to those packets |
| `UtpDelivery.FullAckResolves` | docs/deno-torrent/utp/utp_send_window.ts:227-289 | such an acknowledgement resolves every waiting flush exactly when it covers everything in flight |
| `UtpDelivery.WindowSizeIsLargest` | docs/deno-torrent/utp/utp_send_window.ts:123-143 | the window is the largest size within the congestion window, its bounds and the peer's room, one packet at least |
| `UtpDelivery.LeavesOnlyAcked` | docs/deno-torrent/utp/utp_send_window.ts:200-289 | while nothing fails, a packet leaves the window only by being acknowledged |
| `UtpDelivery.FailsExactly` | docs/deno-torrent/utp/utp_send_window.ts:192-289 | in which steps the window fails |
| `UtpDelivery.FlushMeansDelivered` | docs/deno-torrent/utp/utp_send_window.ts:179-186 | over every run: when a flush is resolved, every packet that was in the window at its call has been acknowledged since |
| `UtpSetters.SettersEndInTurn` | docs/deno-torrent/utp/blocking_map.ts:25-91 | in every step the first setters of the queue are let in and resolved, in order; if the window fails in it, all others are rejected, in order, else they go on waiting |
| `UtpSetters.SubmitEnds` | docs/deno-torrent/utp/blocking_map.ts:25-35 | a packet handed over is stored at once under its number exactly when there is room and nothing has failed |
| `UtpWindowObjects.SendWindow.SettleFlushWaiters` | docs/deno-torrent/utp/utp_send_window.ts:276-288 | the loop over the flush waiters settles each once, in order |
| `LruCache.RunsAreByRecency` | packages/websocket-tracker/src/lru.ts:67-115 | over every run the entries are distinct, ordered by last use and at most the capacity (one at least), so an eviction takes the key used the longest ago |
| `LruHistory.ValuesAreLastPut` | packages/websocket-tracker/src/lru.ts:67-115 | over every run the value stored for a key is that of the last put of it |
| `LruHistory.KeysStayExactly` | packages/websocket-tracker/src/lru.ts:82-144 | a key is held after an operation exactly when it is put, or was held and is neither removed nor cleared nor pushed out: the key used the longest ago, when another is put into a cache that holds as many entries as it may |
| `LruCache.LRUCache.Get` | packages/websocket-tracker/src/lru.ts:67-73 | returns the value, if there, and makes the entry the most recent |
| `LruCache.LRUCache.Put` | packages/websocket-tracker/src/lru.ts:82-99 | renews the value or adds it first, evicting the last entry of a full cache, as `ValuesAreLastPut` and `KeysStayExactly` say over all runs; list, map and size stay in agreement |
| `LruCache.LRUCache.Remove` | packages/websocket-tracker/src/lru.ts:107-115 | takes the entry out and tells whether it was there |
| `LruCache.LRUCache.HasKey` | packages/websocket-tracker/src/lru.ts:123-125 | whether the key is there, leaving the order alone |
| `LruCache.LRUCache.Clear` | packages/websocket-tracker/src/lru.ts:139-144 | empties list and map |
| `LruCache.LRUCache.Entries` | packages/websocket-tracker/src/lru.ts:151-189 | the walk from the head lists the entries, the most recent first |
| `LruCache.LRUCache.MoveToFront` | packages/websocket-tracker/src/lru.ts:194-199 | the list stays linked both ways with the node in front |
| `LruCache.LRUCache.AddToFront` | packages/websocket-tracker/src/lru.ts:204-216 | the same for a new node |
| `LruCache.LRUCache.RemoveNode` | packages/websocket-tracker/src/lru.ts:221-236 | the list stays linked both ways without the node |
| `LruCache.LRUCache.Evict` | packages/websocket-tracker/src/lru.ts:241-248 | exactly the last entry goes, from list, map and size |

## Left out

- Sockets, DNS, trackers over HTTP and UDP, storage, service workers, the user interface and the command lines: input and output only.
- Timers, aborts, deadlines, message delivery and congestion estimates: steps, parameters or nondeterministic choices; idle timers of the peer wire are not modelled, and its write queue only where operations overlap.
- Peer-wire hash requests, uploaded and downloaded counters, the remote bitfield's contents and the BEP 10 extension host: the hash requests follow the discipline proved for block requests without its choke cases.
- `PeerRuns.PromisesSettleOnce`: each operation is one step, so nothing is under way at a close; `PeerInterleaving` is the model with overlapping operations, whose theorems say what changes.
- `PeerChoking.ChokeFailsExactly`: a choke with its rejects is one step; `PeerOverlaps` takes it apart.
- `PeerChoking.RequestWhileChoking`: sends and reads are single steps; `PeerOverlaps.RefusalFailsExactly` is the statement for overlapping ones.
- `PeerInterleaving.PromisesSettleOnceOverlapping`: writes complete in the order of the calls, as the write chain has it; a failed call or read reports in a step of its own, which may come later than the microtask in the source; each promise has its own timer step.
- `PeerPair.RequestsStayCorrelated`: sends are atomic and timeouts and aborts do not occur; `LateAnswerEndsSession` shows why. The limit error is excluded where the requester's limit is at most the answerer's, as it can occur otherwise.
- `PeerSession`: a message that no frame can carry counts as malformed on arrival, where the source's decoder could not produce it (`PeerFrames.ReadFitsFrame`).
- `PeerFrames.FramesAreInverse`: which of several errors a bad frame raises is not stated; handshake bytes are not modelled.
- `PeerHistory.HistoryTells`: the fields of the remote bitfield and the byte counters are not modelled.
- `UtpLosses.OversizedIsLost`: nothing arrives again once it is older than the last packet acknowledged, as in `UtpReceiver.ReceivedIsPrefix`.
- Text decoding beyond what the decoder does with a byte order mark, and the detection of cyclic values by the encoder.
- `InfoLocator.ScannerAgrees`: what `Number` makes of text that is not a canonical number is an arbitrary function that agrees with decimal digits.
- `FileLayout.FlattenV2Files`: which of several errors is raised first is not modelled, and the attributes and root hashes of a file count only where they decide acceptance; the file tree is an ordered list of entries.
- `Merkle.MerkleRootFromPieceLayer`: the pair hash is an arbitrary function; that the layer holds the piece roots is its premise, since the source is given nothing else; powers of two are exact integers, not `Math.log2`. The loop of `validateV2PieceLayers` over files is not modelled.
- `MetadataExchange.DownloadIsLossless`: messages rather than bytes travel in the channels; `MetadataBytes.BytesAreLossless` is the same over bytes. The peer is honest and its metadata has the advertised size.
- `RoutingTable.KBuckets.ConsiderNode`: nodes are values, so a caller's own reference to a node does not see it renewed; sorting and the other readers of the table are not modelled. A probe ends with one result, reachable or not; transaction ids and their timeouts are not modelled.
- `NodeLookup.GetPeers`: what the routing table knows when a round begins, what the nodes answer and when the time is up are inputs, so pinging the bootstrap nodes, adding candidates to the table and keeping tokens are not modelled, nor aborting the search and the callback for each peer; the order of candidates is that of a map, which `NearestIsUnique` shows to be irrelevant.
- `AnnounceTokens.ConstantTimeEqual`: the exclusive or of the lengths is replaced by whether they differ; the time taken is not modelled.
- `UtpReceiver.ReceivedIsPrefix`: one arrival is handled at a time, so writers that block on a full receive buffer do not overlap; local closing while a FIN is ahead of missing data, and the first packet in the SynReceived state are outside it. Duplicates older than the acknowledgement are admitted in `UtpDuplicates.PrefixWhileUndisturbed`, of which this is a special case.
- `UtpDuplicates.PrefixBreaksExactly`: streams with empty packets, or with packets of equal numbers of which one begins the other, can hide a broken order in their bytes; `OrderBreaksExactly` is about the order itself.
- `UtpSendWindow.NoLostWakeups`: the retransmissions that change only a counter and a time are not steps; the congestion window and the packet size are parameters of each step.
- `UtpPacket.PacketRoundTrip`: the packet's first extension type is that of its chain and data is absent rather than empty, as the packet constructors leave them.
- `LruCache.RunsAreByRecency`: keys and values listed separately are read off the list of entries.
- Peer ids, magnet links, handshake copying, the tracker server and swarm counters: shallow.
