# RTP and RTSP building blocks, verified

This project models the algorithmic core of a collection of RTP and RTSP programs in C and C++ and
proves what those programs are for: that what one side takes apart, the other side puts together.

The state-changing parts are classes and methods in the shape of the source (buffers as arrays,
indices for moving pointers, the same loops and branches); each is proved against a function of its
input or its old state, and the theorems are about those functions. Sends and file writes are
appended to a trace, and delivery is in order and without loss.

| area | files |
|---|---|
| bytes, big-endian fields, RTP header | `Options.dfy`, `Bytes.dfy`, `Packets.dfy`, `WireFormat.dfy` |
| Annex B scanning and splitting | `AnnexB.dfy` |
| first sender: single NAL units, STAP-A, FU-A | `RtpEnc.dfy`, `Packets.dfy`, `StapPacking.dfy` |
| receivers, and sender and receivers end to end | `Receivers.dfy`, `ReceiversApart.dfy`, `Delivery.dfy`, `PlayerDelivery.dfy`, `StapWalk.dfy`, `StapDelivery.dfy`, `PipeDelivery.dfy`, `Sessions.dfy` |
| second sender: byte state machine and packetizer | `ByteStreamParser.dfy`, `SecondPacketizer.dfy`, `SecondWireFormat.dfy`, `ClientDelivery.dfy` |
| hash table with two doubly linked lists | `KeyHashTable.dfy` |
| session descriptions: parser, printer, round trip | `Decimal.dfy`, `SdpText.dfy`, `SdpTokens.dfy`, `SdpTokensBack.dfy`, `Sdp.dfy`, `SdpParser.dfy`, `SdpPrinter.dfy`, `SdpRoundTrip.dfy`, `SdpExact.dfy`, `SdpTimeRule.dfy`, `SdpLines.dfy`, `SdpUnits.dfy`, `SdpLoose.dfy`, `SdpReprint.dfy` |
| RTCP sizes and source descriptions | `CompoundBuilder.dfy`, `SdesPacket.dfy` |
| Base64 | `Base64.dfy` |

## Main results

- The word-at-a-time start-code scanner returns what the naive scan returns, for any buffer and any alignment, and reads only inside the buffer.
- Splitting gives back the joined NAL units exactly when the units are splittable, and every stream is, from its first start code on, the concatenation of its start codes and the emitted units.
- The sender packs greedily: every aggregate fits the buffer, and of two in a row the first has no room for the first unit of the second.
- End to end without aggregation, the player's file is the original stream if and only if every fragmented unit has F clear and every unfragmented one has a type below 24. With aggregation the file holds the fragmented units and nothing else.
- The walk of the third receiver takes an aggregate apart into the units it holds if and only if an empty unit stands only in the last place, or in the two last places.
- End to end with aggregation, for every run and every stream: the data that the third receiver writes are the units sent, each behind its start code, if and only if every aggregate of the run meets that condition and every fragmented unit has F clear; what one packet loses no later packet makes up for. Nothing stays buffered. The bytes of its pipe are another matter: they are known for every run, and they are the joined stream if and only if no unit was aggregated and every unit has F clear.
- The second sender and the client restore a unit, F included, if and only if an unfragmented unit is not of type 28; the two fragmentation schemes agree if and only if a fragmented unit has F clear. Over a whole file the client's output is the joined units in front of the last one if and only if the client keeps each of them, and the sender is defined if and only if no unit is over 1400 bytes or the first one is not.
- The byte state machine returns a unit only at the end of a start code, whatever the file holds, and returns exactly the units in front of the last one if and only if those are plain and nothing is found in the last. Behind a plain unit, z zeros and a 01 end it if and only if z leaves two or three when divided by four.
- The hash table keeps both lists linked in both directions through every operation; iterating and deleting visits each node once and leaves exactly the others in order.
- Printing and parsing a session description gives it back if and only if it is well formed, a condition on the description alone. For every text the outcome of the parser is determined by the keys of its lines and the value of the version line; what is read is decided by the lines up to the first one that does not fit their order, however they end; and its pointers lead to the parsed strings in the final buffer. What is parsed from a text without a carriage return comes back from printing and parsing if and only if the user name and every media type are there.
- The RTCP size predictions are exact across the 31-per-packet limit and equal the length of the packets laid out byte by byte, and the source description walk visits exactly what was laid out.
- The Base64 decoder inverts the encoding of RFC 4648, whatever other bytes are mixed in, and the encoding inverts the decoder if and only if the padding comes last and the bits left unused are zero.

## Where the code differs from what it says or intends

- `h264RtpSend/RTP-Server/AVC.c`: a prefix 00 00 01 in the very last three bytes is never reported. `Splittable` says exactly what that means for the last NAL unit.
- `h264RtpSend/RTP-Server/RTPEnc.c`: the FU indicator copies NRI but not F. The end-to-end theorems have that as their exact condition.
- `rtsp_client/RtspPlayer.cpp`: aggregates are dropped, though the sender makes them by default (`h264RtpSend/RTP-Server/RTPEnc.c:26`); `PlayerAggregatedRun` states what is left of a run.
- `udp_h264/Client.c`: a fragment that both starts and ends a unit gets no start code; `PlayerAndClientAgreeExactly` has the exact condition under which it writes what the player writes.
- `h264Send/h264bytestreamparser.cpp`: the fourth zero in a row sends the state machine back, so that a start code behind it is taken for data; `OneBehindZeros` is an if and only if, and `TrailingZero` a file.
- `h264RtpSend/RTP-Server/RTPEnc.c`: the room check does not count the aggregation header, so an aggregate of a single unit of 1398 to 1400 bytes does not fit the buffer; `AggregateFitsExactly` is an if and only if, and `OneByteOver` a unit that does not fit.
- `h264dec/rtp.c`: the marker is looked for in bit 8 of a byte and always reads as clear; `HeaderReadBack` states it. Its FU-A branch drops F even from fragments that carry it (`ParserDropsF`).
- `h264dec/rtp.c`: the STAP-A walk writes the low byte of each unit's size (on a little-endian host) between the start code and the unit, into the same pipe. `PipeRun` has the bytes of any run and `PipeIsJoinExactly` the exact condition under which they are the joined stream.
- `h264dec/rtp.c`: behind an empty unit the walk steps one byte too far and reads the next size from the wrong place. `StapUnpackedExactly` says exactly which aggregates survive that: those in which an empty unit stands last, or second-last in front of an empty last one. `AggregatedEndToEnd` has the exact condition for whole runs. `StumbleStream` gives a stream that does not come back, 00 00 01 00 00 01 x, `WalkStumbles` what is read from its aggregate, and `EmptyThenFragmented` a run with an empty unit in front that does come back.
- `h264dec/rtp.c`: of a single NAL unit packet it writes `sizeof(paysize)` bytes, four; `SingleExactly`: a unit of type 1 to 23 comes back if and only if it is four bytes long.
- `h264Send/h264bytestreamparser.cpp`: what stands behind the last start code of a file is never returned; `ScanLast` and `LastIsLost` state it for any file.
- `h264Send/h264rtppacketizer.cpp`: fragments are written through a pointer that only the single NAL unit branch sets. `Start` is defined if and only if no unit is over 1400 bytes or the first one is not; `FirstOverLimit` is a file for which it is not.
- `rtsp_client/sdp.c`: a time line is called mandatory, but the key of the first one is never compared. `MandatoryTimeExactly` says when the rule is kept all the same, `FirstTimeRead` from which line the first time is read, and `NullValueExactly` when the code reads through a null pointer instead; `WithoutTime` gives a text for each case.
- `rtsp_client/sdp.c`: a line feed does not end a line while a carriage return and line feed follows later in the text; `LineEndExactly` is the exact condition, and `LineFeedPassedOver` a text.
- `rtsp_client/sdp.c`: a missing user name or media type is parsed, but what is printed for it is parsed differently; `ReparsedExactly` is an if and only if, and `WithoutUsername` a text.
- `jrtplib_send_recv_h264/include/rtcpcompoundpacketbuilder.h`: with no source yet, the prediction for one more source is 0; the prediction is exact if and only if there is a source already.

## Model

| member | source | states |
|---|---|---|
| Bytes.Load8 | h264RtpSend/RTP-Server/Utils.c:11-14 | stores one byte at the position, changes nothing else, returns the next position |
| Bytes.Load16 | h264RtpSend/RTP-Server/Utils.c:16-20 | stores the two bytes of a value, most significant first, and nothing else |
| Bytes.Load32 | h264RtpSend/RTP-Server/Utils.c:22-26 | stores the four bytes of a value, most significant first, and nothing else |
| Bytes.Get16Be16 | h264RtpSend/RTP-Server/Utils.c:16-20 | reading a stored 16-bit field gives the value modulo its width |
| Bytes.Get32Be32 | h264RtpSend/RTP-Server/Utils.c:22-26 | reading a stored 32-bit field gives the value |
| Bytes.NetworkOrder | h264RtpSend/RTP-Server/Utils.c:11-26 | the bytes of a field, weighed most significant first, add up to the value |
| AnnexB.MayHoldZeroIsExact | h264RtpSend/RTP-Server/AVC.c:18-19 | the bit trick on a 32-bit word is non-zero exactly when one of its bytes is zero |
| AnnexB.FirstCodeLeast | h264RtpSend/RTP-Server/AVC.c:8-41 | the naive scan skips no reportable prefix |
| AnnexB.FirstCodeIs | h264RtpSend/RTP-Server/AVC.c:8-41 | the naive scan is the only result with the three properties of a least match before the end |
| AnnexB.FindStartCodeInternal | h264RtpSend/RTP-Server/AVC.c:8-41 | for any buffer and alignment, the three loops return the least position of 00 00 01 before the last three bytes, else the end, and equal the naive scan |
| AnnexB.FindStartCode | h264RtpSend/RTP-Server/AVC.c:43-47 | one byte earlier when a zero stands in front of the prefix found |
| AnnexB.SplitStep | h264RtpSend/RTP-Server/RTPEnc.c:213-227 | one pass of the loop takes the first NAL unit off the list, strictly advances, and is the last pass exactly at the end of the buffer |
| AnnexB.StepNal | h264RtpSend/RTP-Server/RTPEnc.c:212-220 | an emitted NAL unit holds no start code the scanner would report |
| AnnexB.SplitFromPartitions | h264RtpSend/RTP-Server/RTPEnc.c:212-227 | from a start code on, the buffer is exactly its start codes and the emitted NAL units, which are splittable |
| AnnexB.SplitPartitions | h264RtpSend/RTP-Server/RTPEnc.c:212-227 | the same for the whole buffer from its first start code |
| AnnexB.SplitFromJoin | h264RtpSend/RTP-Server/RTPEnc.c:212-227 | splitting inverts joining wherever in the buffer the joined stream starts |
| AnnexB.SplitJoinWith | h264RtpSend/RTP-Server/RTPEnc.c:212-227 | splitting a stream joined with any mix of long and short start codes gives the NAL units back |
| AnnexB.SplitJoinWithExactly | h264RtpSend/RTP-Server/RTPEnc.c:212-227 | the NAL units come back if and only if they are splittable |
| Packets.StampConcat | h264RtpSend/RTP-Server/RTPEnc.c:54-75 | packets of consecutive payloads carry consecutive sequence numbers |
| Packets.StampWraps | h264RtpSend/RTP-Server/RTPEnc.c:75 | wrapping the counter at 16 bits changes no packet |
| Packets.AggregatedIsStap | h264RtpSend/RTP-Server/RTPEnc.c:86-132 | the buffer up to its pointer is the aggregate of the held NAL units, or empty |
| Packets.StapHeaderBits | h264RtpSend/RTP-Server/RTPEnc.c:110-120 | the header has type 24, F set if and only if some held unit has it, and the greatest NRI of the held units, which one of them has |
| Packets.StapHeaderSnoc | h264RtpSend/RTP-Server/RTPEnc.c:110-120 | updating the header in place for one more unit gives the header of all units |
| Packets.StapBodySnoc | h264RtpSend/RTP-Server/RTPEnc.c:122-126 | the body grows by the 16-bit size and the bytes of the unit |
| Packets.FuHeaderBits | h264RtpSend/RTP-Server/RTPEnc.c:170-193 | the in-place masks turn one fragment's header into the next one's |
| RtpEnc.RtpMuxContext.constructor | h264RtpSend/RTP-Server/RTPEnc.c:21-29 | the initial state, aggregating and with nothing held |
| RtpEnc.RtpMuxContext.SendData | h264RtpSend/RTP-Server/RTPEnc.c:32-76 | one packet with the current header, the counter on by one modulo 65536, the buffer empty |
| RtpEnc.RtpMuxContext.PutHeader | h264RtpSend/RTP-Server/RTPEnc.c:110-120 | the header byte of the aggregate that is to hold one more unit |
| RtpEnc.RtpMuxContext.PutUnit | h264RtpSend/RTP-Server/RTPEnc.c:122-126 | size field and bytes behind what the buffer holds |
| RtpEnc.RtpMuxContext.Append | h264RtpSend/RTP-Server/RTPEnc.c:110-126 | the buffer invariant is kept and one more unit is held, never beyond 1400 bytes |
| RtpEnc.RtpMuxContext.SendAggregated | h264RtpSend/RTP-Server/RTPEnc.c:86-132 | what the aggregating branch sends and what it keeps, from any state |
| RtpEnc.RtpMuxContext.SendFragment | h264RtpSend/RTP-Server/RTPEnc.c:186-195 | one fragment is sent, the two header bytes stay |
| RtpEnc.RtpMuxContext.SendFragmented | h264RtpSend/RTP-Server/RTPEnc.c:144-196 | the held units are flushed first, then the fragments follow |
| RtpEnc.RtpMuxContext.SendNal | h264RtpSend/RTP-Server/RTPEnc.c:79-197 | the packets of one NAL unit in all three modes |
| RtpEnc.RtpMuxContext.SendNext | h264RtpSend/RTP-Server/RTPEnc.c:213-227 | one pass: skip loop, next start code, send, clock |
| RtpEnc.RtpMuxContext.SendStream | h264RtpSend/RTP-Server/RTPEnc.c:200-228 | the whole trace of a stream is the run over the NAL units of its split |
| StapPacking.GreedyRun | h264RtpSend/RTP-Server/RTPEnc.c:97-132 | over any run: of two aggregates in a row, the first with the first unit of the second would have more than 1400 bytes |
| StapPacking.HeldGreedy | h264RtpSend/RTP-Server/RTPEnc.c:97-99 | the units held before a run are sent off alone if and only if the next short unit does not fit behind them in 1400 bytes |
| StapPacking.RunFits | h264RtpSend/RTP-Server/RTPEnc.c:97-132 | no aggregate of a run has more than 1400 bytes, if each unit fits alone |
| WireFormat.FuShape | h264RtpSend/RTP-Server/RTPEnc.c:158-195 | every fragment in closed form: as many as ceil((size-1)/1398), partitioning the bytes, S on exactly the first, E and possibly the marker on exactly the last, type and NRI constant |
| WireFormat.FuNeverAlone | h264RtpSend/RTP-Server/RTPEnc.c:144-196 | a fragmented NAL unit takes at least two fragments, so S and E never meet |
| WireFormat.FuFits | h264RtpSend/RTP-Server/RTPEnc.c:186-195 | no fragment exceeds 1400 bytes and all but the last fill them |
| WireFormat.AggregateFitsExactly | h264RtpSend/RTP-Server/RTPEnc.c:97-126 | an aggregate stays within the buffer if and only if the added unit has at most 1397 bytes |
| WireFormat.OneByteOver | h264RtpSend/RTP-Server/RTPEnc.c:97-126 | a unit of 1398 bytes passes as short, and its aggregate is one byte longer than the buffer |
| WireFormat.HeaderReadBack | h264dec/rtp.c:59-91 | the decoded header of any packet is what was put in, except that the marker always reads as clear |
| WireFormat.AnyHeaderReadBack | h264dec/rtp.c:59-91 | whatever version, padding, extension, source count, type and fields a header has, they are read back; the marker reads as clear |
| WireFormat.NalMarks | h264RtpSend/RTP-Server/RTPEnc.c:129-131 | of the payloads of a NAL unit only the final one of the last unit is marked |
| WireFormat.RunHeader | h264RtpSend/RTP-Server/RTPEnc.c:54-75 | packet k of a run decodes to sequence number (s0+k) modulo 65536 and the SSRC, and is marked exactly when it is the final one |
| WireFormat.RunGroupsAreRun | h264RtpSend/RTP-Server/RTPEnc.c:212-227 | the packets of a run are those of its NAL units, one group after the other |
| WireFormat.GroupTimestamp | h264RtpSend/RTP-Server/RTPEnc.c:220-226 | all packets of NAL unit i carry one timestamp, i frames after the first |
| WireFormat.GroupPayloads | h264RtpSend/RTP-Server/RTPEnc.c:134-196 | without aggregation a unit of at most 1400 bytes, of whatever type, is one packet with exactly its bytes behind the header, and a longer one the packets of its fragments |
| Receivers.RtspPlayer.HandleRtpMsg | rtsp_client/RtspPlayer.cpp:327-365 | what is appended to the file for one packet, whatever it is |
| Receivers.UdpClient.DecodeRtp2H264 | udp_h264/Client.c:34-89 | what is appended to the file, and the two global counters |
| Receivers.HeaderEitherWay | udp_h264/Client.c:60-78 | the header byte put together by the client is the player's |
| Receivers.RtpParser.RtpParse | h264dec/rtp.c:51-242 | what goes down the pipe, the source identifier, the returned offset |
| Receivers.RtpParser.WalkStapA | h264dec/rtp.c:170-200 | the writes of the aggregate walk |
| Receivers.WalkStep | h264dec/rtp.c:178-199 | one round of the walk takes one unit, or moves three places on for an empty one |
| Delivery.ReceiversAreHeaderBlind | rtsp_client/RtspPlayer.cpp:327-365 | none of the three receivers looks at the RTP header |
| ReceiversApart.PlayerDropsExactly | rtsp_client/RtspPlayer.cpp:339-364 | the player writes nothing for exactly the types 24 to 27 and 29 to 31 and an empty fragment that starts no unit |
| ReceiversApart.ClientDropsExactly | udp_h264/Client.c:40-85 | the client writes nothing for exactly an empty fragment that ends a unit or starts none |
| ReceiversApart.ParserDropsExactly | h264dec/rtp.c:137-242 | rtp_parse writes nothing for exactly the types 0, 25 to 27 and 29 to 31 and an aggregate with nothing behind its header |
| ReceiversApart.PlayerAndClientAgreeExactly | udp_h264/Client.c:40-85 | the client writes what the player writes if and only if the type is below 24, or 28 and the fragment does not both start and end a unit |
| PlayerDelivery.PlayerFu | rtsp_client/RtspPlayer.cpp:343-364 | fragments from any position reassemble to the header byte without F and the bytes |
| PlayerDelivery.ClientFu | udp_h264/Client.c:41-67 | the same for the client |
| PlayerDelivery.PlayerRun | rtsp_client/RtspPlayer.cpp:327-365 | the file after a whole run without aggregation |
| PlayerDelivery.PlayerShort | rtsp_client/RtspPlayer.cpp:339-364 | what becomes of an unfragmented unit, for every type |
| PlayerDelivery.PlayerAggregatedRun | rtsp_client/RtspPlayer.cpp:339-364 | with aggregation, whatever is held before: the file gets exactly the units over 1400 bytes, in order, with F cleared |
| PlayerDelivery.PlayerOutsAreJoin | rtsp_client/RtspPlayer.cpp:339-364 | that file is the joined stream if and only if every unit is kept |
| PlayerDelivery.EndToEnd | h264RtpSend/RTP-Server/RTPEnc.c:134-227 | join, split, send, receive: the original bytes if and only if every fragmented unit has F clear and every other one a type below 24 |
| PlayerDelivery.PlayerOnAnyStream | h264RtpSend/RTP-Server/RTPEnc.c:200-228 | for any stream of kept units the file has them with long start codes, and is the stream if and only if that starts with a start code and has only long ones |
| StapWalk.WalkUnit | h264dec/rtp.c:178-199 | the walk finds a non-empty unit whole and goes on behind it |
| StapWalk.WalkCollects | h264dec/rtp.c:178-199 | the data writes of the walk are the units it reads, rightly placed or not |
| StapWalk.Shifted | h264dec/rtp.c:191-194 | from k >= 1 places behind where they start, units are read right only if there are none, or a single empty one and k is 1 |
| StapWalk.WalkExactly | h264dec/rtp.c:178-199 | rightly placed, the walk reads exactly the units that are there if and only if an empty one stands last, or second-last in front of an empty last one; otherwise it does not even begin with them |
| StapWalk.StapUnpackedExactly | h264dec/rtp.c:170-200 | for every aggregate, the data writes are the units it holds if and only if they meet that condition |
| StapWalk.NeverAfterOthers | h264dec/rtp.c:178-199 | once other units have been read from the bytes of an aggregate, its own are never all read behind them |
| StapWalk.WalkStumbles | h264dec/rtp.c:191-194 | an empty unit in front of a one-byte unit x: the second unit read has 256 + x bytes, so they do not come back |
| StapWalk.SingleExactly | h264dec/rtp.c:137-145 | of a unit of type 1 to 23 sent alone the first four bytes are written, with zeros for those it does not have, so that it comes back if and only if it is four bytes long |
| StapDelivery.ParserFu | h264dec/rtp.c:201-225 | the data writes for the first sender's fragments are the unit with F cleared |
| StapDelivery.NalShipped | h264RtpSend/RTP-Server/RTPEnc.c:79-197 | from any state, the units shipped in aggregates and fragments together with those still held are those held before and the next one |
| StapDelivery.RunShipped | h264RtpSend/RTP-Server/RTPEnc.c:212-227 | a run ships the units held before it and its own, in order, and holds none back |
| StapDelivery.NalRead | h264dec/rtp.c:170-225 | from any state, the data writes for the packets of one unit are what is read from its shipments |
| StapDelivery.AggregatedRun | h264dec/rtp.c:170-225 | the same for the packets of any run |
| StapDelivery.ShipmentsExactly | h264dec/rtp.c:178-225 | a run of aggregates and fragmented units is read as it was sent if and only if each of them is |
| StapDelivery.AggregatedEndToEnd | h264dec/rtp.c:170-225 | for every run: the data writes are the same units if and only if every aggregate meets the condition of the walk and every fragmented unit has F clear; and the units with F cleared where fragmented if and only if every aggregate meets it |
| StapDelivery.AggregatedStreamEndToEnd | h264RtpSend/RTP-Server/RTPEnc.c:200-228 | the same from the joined stream on, with start codes of either length, and nothing is held |
| StapDelivery.FilledIsUpright | h264RtpSend/RTP-Server/RTPEnc.c:97-132 | a run of which at most the last unit is empty has only aggregates that meet the condition |
| StapDelivery.EmptyThenFragmented | h264RtpSend/RTP-Server/RTPEnc.c:154-156 | a fragmented unit flushes the empty one in front of it, and the run comes back |
| StapDelivery.StumbleStream | h264dec/rtp.c:191-194 | the stream 00 00 01 00 00 01 x splits into an empty unit and x, which do not come back |
| PipeDelivery.StapBytes | h264dec/rtp.c:178-199 | the bytes of any aggregate on the pipe: in front of each unit read a start code and the low byte of its size |
| PipeDelivery.FuBytes | h264dec/rtp.c:201-225 | the bytes of a fragmented unit on the pipe |
| PipeDelivery.NalBytes | h264dec/rtp.c:170-225 | from any state, the bytes for the packets of one unit are those of its shipments |
| PipeDelivery.PipeRun | h264dec/rtp.c:170-225 | the bytes of any run, from any state |
| PipeDelivery.UprightPipeRun | h264dec/rtp.c:178-199 | when every aggregate meets the condition of the walk, the bytes are those of the units sent, with one more byte for each aggregated one |
| PipeDelivery.PipeIsJoinExactly | h264dec/rtp.c:188-189 | for every run: they are the joined stream if and only if no unit was aggregated and every unit has F clear |
| PipeDelivery.PipeEndToEnd | h264RtpSend/RTP-Server/RTPEnc.c:200-228 | both, from the joined stream on |
| PipeDelivery.ParserDropsF | h264dec/rtp.c:207-219 | fed with fragments that carry F, the unit comes back if and only if F is clear |
| ByteStreamParser.H264ByteStreamParser.NextNalu | h264Send/h264bytestreamparser.cpp:26-90 | one call of the state machine from any position |
| ByteStreamParser.ScanNal | h264Send/h264bytestreamparser.cpp:26-90 | a plain NAL unit in front of a start code is returned whole |
| ByteStreamParser.ZerosBehind | h264Send/h264bytestreamparser.cpp:40-86 | any number of zeros behind a plain unit and a byte that is none: what is returned, or goes on in the buffer |
| ByteStreamParser.OneBehindZeros | h264Send/h264bytestreamparser.cpp:52-86 | behind a plain unit, z zeros and a 01 return it if and only if z % 4 >= 2; otherwise the 01 is data of the same unit |
| ByteStreamParser.TrailingZero | h264Send/h264bytestreamparser.cpp:78-86 | a file whose first unit has a zero behind it, for which 65 01 41 is returned |
| ByteStreamParser.ScanLast | h264Send/h264bytestreamparser.cpp:26-90 | whatever the file holds, a unit is returned only at the end of a prefix 00 00 01 that lies ahead, and otherwise the file is read to its end |
| ByteStreamParser.LastIsLost | h264Send/h264bytestreamparser.cpp:36-39 | where no prefix lies ahead nothing is returned any more |
| ByteStreamParser.ScanIsPlain | h264Send/h264bytestreamparser.cpp:40-87 | whatever the file holds, only plain units are returned |
| ByteStreamParser.ParsedJoin | h264Send/h264bytestreamparser.cpp:26-90 | repeated calls return all NAL units but the last, in order |
| ByteStreamParser.ParsedJoinExactly | h264Send/h264bytestreamparser.cpp:26-90 | they return exactly the units in front of the last one if and only if those are plain and nothing is found in the last |
| ByteStreamParser.ParserAgreesWithSplitter | h264RtpSend/RTP-Server/RTPEnc.c:212-227 | the splitter emits the same NAL units and the last one |
| SecondPacketizer.PackArithmetic | h264Send/h264rtppacketizer.cpp:116-123 | count and last size add up to the length, and the last piece is neither empty nor too long |
| SecondPacketizer.H264RtpPacketizer.PutRtpHeader | h264Send/h264rtppacketizer.cpp:130-144 | the header with the sequence number counted on first |
| SecondPacketizer.H264RtpPacketizer.SendSingle | h264Send/h264rtppacketizer.cpp:55-110 | a single NAL unit packet holds the unit unchanged, and nalu_hdr is set |
| SecondPacketizer.H264RtpPacketizer.SendPiece | h264Send/h264rtppacketizer.cpp:129-227 | one fragment with indicator, header and its bytes, written through a set nalu_hdr |
| SecondPacketizer.H264RtpPacketizer.SendPieces | h264Send/h264rtppacketizer.cpp:129-227 | the loop over the fragments of one unit |
| SecondPacketizer.H264RtpPacketizer.SendNalu | h264Send/h264rtppacketizer.cpp:44-231 | one pass of the loop, with the clock ticking first; an empty unit changes nothing |
| SecondPacketizer.H264RtpPacketizer.Start | h264Send/h264rtppacketizer.cpp:27-232 | defined if and only if no unit is over 1400 bytes or the first one the parser returns is not; then the whole trace over everything the parser returns |
| SecondPacketizer.PointerSetExactly | h264Send/h264rtppacketizer.cpp:91-209 | the pointer is set in time if and only if in front of every unit over 1400 bytes stands one that is not |
| SecondWireFormat.PieceShape | h264Send/h264rtppacketizer.cpp:116-227 | every fragment in closed form: as many as ceil(size/1400), cut at the multiples of 1400, F, NRI and type constant, S on exactly the first, E and the marker on exactly the last |
| SecondWireFormat.PieceMarks | h264Send/h264rtppacketizer.cpp:88-201 | the marker is on exactly the last fragment of a fragmented unit |
| SecondWireFormat.PieceRunHeader | h264Send/h264rtppacketizer.cpp:82-92 | packet k of a run decodes to sequence number (s0+1+k) modulo 65536 and the SSRC |
| SecondWireFormat.PieceGroupsAreRun | h264Send/h264rtppacketizer.cpp:43-231 | the packets of a run are those of its units, one group after the other |
| SecondWireFormat.PieceGroup | h264Send/h264rtppacketizer.cpp:50-205 | the packets of unit i hold its pieces, carry one timestamp, i+1 ticks after the first state, and are marked on exactly the last fragment of a fragmented unit |
| SecondWireFormat.PieceGroupPayloads | h264Send/h264rtppacketizer.cpp:55-227 | a unit of at most 1400 bytes, of whatever type, is one packet with exactly its bytes behind the header |
| SecondWireFormat.PieceTicks | h264Send/h264rtppacketizer.cpp:50 | at a clock of 90 kHz the units are 3600 ticks apart |
| SecondWireFormat.FirstOverLimit | h264Send/h264rtppacketizer.cpp:91-227 | a file whose first unit has 1401 bytes, for which the pointer is not set in time |
| ClientDelivery.PieceBounds | h264Send/h264rtppacketizer.cpp:159-221 | the pieces partition the bytes behind the header |
| ClientDelivery.ClientPieces | udp_h264/Client.c:40-85 | the client restores a fragmented unit, F included |
| ClientDelivery.ClientRestores | udp_h264/Client.c:40-85 | a unit is restored if and only if, unfragmented, it is not of type 28 |
| ClientDelivery.SchemesAgreeExactly | h264RtpSend/RTP-Server/RTPEnc.c:158-195 | the client gets the same from both schemes if and only if a fragmented unit has F clear |
| ClientDelivery.ClientRun | udp_h264/Client.c:34-89 | the client's file is the joined stream if and only if every unit is kept |
| ClientDelivery.SecondSenderEndToEnd | h264Send/h264rtppacketizer.cpp:27-232 | where the pointer is set in time, the file is the joined stream of all units but the last if and only if each of those is kept |
| Sessions.RunDeliverable | h264RtpSend/RTP-Server/RTPEnc.c:212-227 | every packet of a run of the first sender meets what the player and rtp_parse ask for |
| Sessions.PiecesDeliverable | h264Send/h264rtppacketizer.cpp:27-232 | every packet of the second sender meets what the client asks for |
| Sessions.SendAndPlay | rtsp_client/RtspPlayer.cpp:327-365 | sending a stream and playing its packets: without aggregation the stream is added to the file if and only if all its units are kept, with aggregation the fragmented units are |
| Sessions.SendAndParse | h264dec/rtp.c:51-242 | sending any stream with aggregation and parsing its packets: the bytes added to the pipe, and the units are added to the data writes if and only if every aggregate meets the condition of the walk and every fragmented unit has F clear |
| Sessions.SendAndDecode | udp_h264/Client.c:34-89 | packetizing a file and decoding its packets adds the joined units to the file if and only if all are kept, where the packetizer is defined |
| KeyHashTable.RTPKeyHashTable.constructor | jrtplib_send_recv_h264/include/rtpkeyhashtable.h:105-117 | an empty table without a cursor |
| KeyHashTable.ShapeAdd | jrtplib_send_recv_h264/include/rtpkeyhashtable.h:280-302 | filing a new key last in the list and first in its bucket keeps keys unique and every chain the reverse insertion order of its index |
| KeyHashTable.ShapeWithout | jrtplib_send_recv_h264/include/rtpkeyhashtable.h:127-168 | taking a node out removes it from one chain and leaves the order of the rest |
| KeyHashTable.BucketWithout | jrtplib_send_recv_h264/include/rtpkeyhashtable.h:127-143 | a node leaves its own bucket from one place, and no other bucket changes |
| KeyHashTable.HashWithout | jrtplib_send_recv_h264/include/rtpkeyhashtable.h:129-143 | once its neighbours lead past a node, the chain without it is linked both ways |
| KeyHashTable.ListWithout | jrtplib_send_recv_h264/include/rtpkeyhashtable.h:147-164 | the same for the list of all nodes |
| KeyHashTable.RTPKeyHashTable.Find | jrtplib_send_recv_h264/include/rtpkeyhashtable.h:266-276 | the chain search finds the node with the key, or there is none |
| KeyHashTable.RTPKeyHashTable.HasElement | jrtplib_send_recv_h264/include/rtpkeyhashtable.h:199-220 | true if and only if a node has the key |
| KeyHashTable.RTPKeyHashTable.GotoElement | jrtplib_send_recv_h264/include/rtpkeyhashtable.h:175-197 | the cursor and the status in all three cases |
| KeyHashTable.RTPKeyHashTable.LinkIntoBucket | jrtplib_send_recv_h264/include/rtpkeyhashtable.h:284-288 | the new node heads its chain, all links right |
| KeyHashTable.RTPKeyHashTable.LinkIntoList | jrtplib_send_recv_h264/include/rtpkeyhashtable.h:292-302 | the new node ends the list, all links right |
| KeyHashTable.RTPKeyHashTable.AddElement | jrtplib_send_recv_h264/include/rtpkeyhashtable.h:255-304 | the status, and the nodes with one more at the end or unchanged |
| KeyHashTable.RTPKeyHashTable.UnlinkFromBucket | jrtplib_send_recv_h264/include/rtpkeyhashtable.h:127-143 | every chain is linked again without the current node |
| KeyHashTable.RTPKeyHashTable.UnlinkFromList | jrtplib_send_recv_h264/include/rtpkeyhashtable.h:147-164 | the list is linked again without the current node |
| KeyHashTable.RTPKeyHashTable.DeleteCurrentElement | jrtplib_send_recv_h264/include/rtpkeyhashtable.h:119-173 | the nodes without the current one, the cursor on the one after it |
| KeyHashTable.RTPKeyHashTable.DeleteElement | jrtplib_send_recv_h264/include/rtpkeyhashtable.h:306-315 | the status, the nodes and the cursor in all three cases |
| KeyHashTable.RTPKeyHashTable.GotoFirstElement | jrtplib_send_recv_h264/include/rtpkeyhashtable.h:59 | the cursor on the oldest node |
| KeyHashTable.RTPKeyHashTable.GotoLastElement | jrtplib_send_recv_h264/include/rtpkeyhashtable.h:60 | the cursor on the newest node |
| KeyHashTable.RTPKeyHashTable.GotoNextElement | jrtplib_send_recv_h264/include/rtpkeyhashtable.h:222-227 | one node on in insertion order |
| KeyHashTable.RTPKeyHashTable.GotoPreviousElement | jrtplib_send_recv_h264/include/rtpkeyhashtable.h:229-234 | one node back in insertion order |
| KeyHashTable.RTPKeyHashTable.Clear | jrtplib_send_recv_h264/include/rtpkeyhashtable.h:236-253 | an empty table; the loop over the nodes ends |
| KeyHashTable.SweptStep | jrtplib_send_recv_h264/include/rtpkeyhashtable.h:145-168 | one step of iterate and delete keeps the sweep invariant, whichever branch is taken |
| KeyHashTable.DeleteWhere | jrtplib_send_recv_h264/include/rtpkeyhashtable.h:59-68 | each node is visited once, in order, and exactly the selected ones are gone |
| Decimal.DecRead | rtsp_client/sdp.c:63-86 | strtol reads back what printf wrote, over the whole range of a long, and stops behind it |
| Decimal.LongRead | rtsp_client/sdp.c:63-86 | strtol on any spaces, sign and digits: the value they stand for, kept within 64 bits, and where the digits end |
| Decimal.LongMissing | rtsp_client/sdp.c:63-86 | where no digits stand behind spaces and a sign, nothing is read |
| SdpText.LoadNextEntry | rtsp_client/sdp.c:8-37 | in place: key, value and rest of the text are those of the next line; nothing in front of the line changes and no NUL is overwritten |
| SdpText.EntryFound | rtsp_client/sdp.c:16-31 | the strings that overwriting the newlines leaves in the buffer |
| SdpTokens.SplitValues | rtsp_client/sdp.c:39-101 | in place: the tokens and the rest are those of the value, nothing outside the value changes, and every string taken before or now still stands at its pointer |
| SdpTokens.TakeToken | rtsp_client/sdp.c:53-64 | one string is cut off at the separators behind it |
| SdpTokens.TakeNumber | rtsp_client/sdp.c:65-78 | one number is read, or the rest is emptied |
| SdpTokens.TakeTime | rtsp_client/sdp.c:79-93 | one time with its unit is read, or the rest is emptied |
| SdpTokens.SplitShortens | rtsp_client/sdp.c:221-239 | every call on a non-empty value leaves a strictly shorter one, for any input, so the token loops end |
| SdpTokensBack.SplitJoined | rtsp_client/sdp.c:39-101 | splitting inverts joining with the separator for every mix of strings and numbers whose empty strings come last |
| SdpLoose.SpacedOut | rtsp_client/sdp.c:44-45 | any number of further separators in front of the values changes nothing |
| SdpLoose.IntTruncates | rtsp_client/sdp.c:71-78 | a number too wide for an int is read modulo its width |
| SdpLoose.MissingNumber | rtsp_client/sdp.c:63-78 | where a number should stand and none does, it is read as zero and the rest of the line as nothing |
| SdpLoose.PortMissing | rtsp_client/sdp.c:257-258 | without a port nothing is taken, and behind a slash a count alone is read |
| SdpLoose.InfoWithoutPort | rtsp_client/sdp.c:256-263 | a media line without a port has port zero and its protocol and formats |
| SdpUnits.UnitsAgree | rtsp_client/sdp.c:79-93 | n days, 24 n hours, 1440 n minutes and 86400 n seconds are read as the same number |
| SdpUnits.RepeatTimed | rtsp_client/sdp.c:215-227 | a repeat line in any units is the repeat in seconds |
| SdpUnits.TimeTimed | rtsp_client/sdp.c:207-213 | the same for a time line |
| SdpUnits.ZonesTimed | rtsp_client/sdp.c:231-241 | the same for a zone line |
| SdpUnits.WeeklyRepeat | rtsp_client/sdp.c:79-93 | 7d 1h 0 25h is 604800, 3600, 0 and 90000 seconds |
| SdpParser.LoadFacultative | rtsp_client/sdp.c:123-128 | an optional line is taken exactly when its key is there |
| SdpParser.LoadMultiple | rtsp_client/sdp.c:130-136 | all lines of one key are taken |
| SdpParser.GetConnInfo | rtsp_client/sdp.c:103-110 | an optional connection line |
| SdpParser.GetBandwidthInfo | rtsp_client/sdp.c:112-121 | all bandwidth lines |
| SdpParser.LoadNumbers | rtsp_client/sdp.c:221-225 | the loop over the numbers left on a line |
| SdpParser.LoadRepeats | rtsp_client/sdp.c:215-227 | the repeat lines of a time |
| SdpParser.LoadTimes | rtsp_client/sdp.c:207-228 | the time lines with their repeats |
| SdpParser.LoadZones | rtsp_client/sdp.c:231-241 | the zone adjustments |
| SdpParser.LoadInfo | rtsp_client/sdp.c:256-263 | the media line with port, count and formats |
| SdpParser.LoadMedia | rtsp_client/sdp.c:250-271 | one media description |
| SdpParser.LoadSession | rtsp_client/sdp.c:188-273 | everything behind the session name, with the pointers taken so far kept |
| SdpParser.SdpParse | rtsp_client/sdp.c:151-278 | the outcome on every text, and every pointer of a parsed description leads to its string in the final buffer |
| SdpPrinter.SdpDump | rtsp_client/sdp.c:327-404 | the printed text, line by line |
| SdpPrinter.PrintTimes | rtsp_client/sdp.c:355-365 | times and their repeats |
| SdpPrinter.PrintMedia | rtsp_client/sdp.c:382-403 | one media description |
| SdpRoundTrip.StartIs | rtsp_client/sdp.c:8-37 | the first printed line is the first line read |
| SdpRoundTrip.TimesBack | rtsp_client/sdp.c:207-228 | printed times and repeats are read back and the lines behind them left |
| SdpRoundTrip.ZonesBack | rtsp_client/sdp.c:231-241 | printed zone adjustments are read back |
| SdpRoundTrip.MediaBack | rtsp_client/sdp.c:250-271 | a printed media description is read back and the lines behind it left |
| SdpRoundTrip.RoundTrip | rtsp_client/sdp.c:327-404 | parsing what is printed gives the description back, with all repeats, zones and nested media fields |
| SdpExact.ParsedFits | rtsp_client/sdp.c:151-278 | every parsed description fits the format unless a user name or a media type is empty |
| SdpExact.CrLfRejected | rtsp_client/sdp.c:16-18 | a carriage return and line feed anywhere in printed text makes the parser reject it |
| SdpExact.RoundTripExactly | rtsp_client/sdp.c:151-278 | parsing what is printed gives the description back if and only if it is well formed |
| SdpExact.ParsedTidy | rtsp_client/sdp.c:8-101 | no line feed gets into a part of a text without a carriage return in front of one, and no carriage return into a part of a text without any |
| SdpExact.ReparsedExactly | rtsp_client/sdp.c:151-404 | for every text without a carriage return that is parsed: printing and parsing again gives the same if and only if the user name and every media type are there |
| SdpReprint.OriginReprinted | rtsp_client/sdp.c:327-404 | an origin line with one space between its values is printed as it was read |
| SdpReprint.ConnectionReprinted | rtsp_client/sdp.c:327-404 | the same for a connection line |
| SdpReprint.BandwidthReprinted | rtsp_client/sdp.c:327-404 | the same for a bandwidth line, with its colon |
| SdpReprint.TimeReprinted | rtsp_client/sdp.c:355-365 | the same for a time line in seconds |
| SdpReprint.RepeatReprinted | rtsp_client/sdp.c:355-365 | the same for a repeat line in seconds |
| SdpReprint.ZonesReprinted | rtsp_client/sdp.c:327-404 | the same for a zone line in seconds |
| SdpReprint.InfoReprinted | rtsp_client/sdp.c:382-403 | the same for a media line, with a count of ports only if it is not zero |
| SdpReprint.PrintedWithoutEmptyLines | rtsp_client/sdp.c:327-404 | a printed text ends with a line feed and has no empty line |
| SdpLines.OrderDecides | rtsp_client/sdp.c:151-278 | for any two texts: the outcome is decided by the lines that fit the order, up to the first one that does not |
| SdpLines.FirstMisfitEnds | rtsp_client/sdp.c:188-273 | a line that does not fit the order ends the description, with everything behind it |
| SdpLines.LinesDecide | rtsp_client/sdp.c:8-37 | texts with the same keys and values in the same order have the same outcome |
| SdpLines.EndsDoNotMatter | rtsp_client/sdp.c:8-37 | lines that end in line feeds, or all in carriage return and line feed, with empty lines between and text that is no line behind them, are read as the printed lines |
| SdpLines.RoundTripAnyEnds | rtsp_client/sdp.c:8-37 | a well-formed description comes back with any of these line ends |
| SdpExact.FirstTimeKeyUnchecked | rtsp_client/sdp.c:206-213 | a line directly behind the session name is taken as a time whatever its key |
| SdpTimeRule.PreludeLengthIs | rtsp_client/sdp.c:188-204 | the longest prefix of keys of the shape i? u? e* p* c? b* is the one that the next key does not continue |
| SdpTimeRule.TimeLineIs | rtsp_client/sdp.c:188-213 | the parser starts to read times at the first line behind that prefix |
| SdpTimeRule.NullValueExactly | rtsp_client/sdp.c:151-213 | for every text: the code reads through a null pointer if and only if version, origin and name are right and only such a prefix follows |
| SdpTimeRule.ParsedExactly | rtsp_client/sdp.c:151-278 | for every text: a description comes out if and only if they are right and one more line follows the prefix; otherwise the text is rejected or read through null |
| SdpTimeRule.FirstTimeRead | rtsp_client/sdp.c:207-213 | the first time is read from that line, whatever its key |
| SdpTimeRule.MandatoryTimeExactly | rtsp_client/sdp.c:206-228 | the rule that a time line is mandatory is kept if and only if that line, if there is one, is a time line |
| SdpTimeRule.WithoutTime | rtsp_client/sdp.c:206-213 | a text without a time line for the null read, and one that is parsed |
| SdpTimeRule.WithoutUsername | rtsp_client/sdp.c:151-278 | a text without a user name that is parsed and does not come back |
| SdpTimeRule.LineEndExactly | rtsp_client/sdp.c:16-25 | a line ends at its first line feed, or at the carriage return in front of it, if and only if it is such a pair or none follows |
| SdpTimeRule.LineFeedPassedOver | rtsp_client/sdp.c:16-25 | a line feed that ends no line, and stays in the value, because a pair follows |
| CompoundBuilder.CeilingIsLayout | jrtplib_send_recv_h264/include/rtcpcompoundpacketbuilder.h:186-190 | quotient and remainder give the number of packets laid out 31 at a time |
| CompoundBuilder.ReportBytesTotal | jrtplib_send_recv_h264/include/rtcpcompoundpacketbuilder.h:186-191 | the bytes of that layout |
| CompoundBuilder.Report.NeededBytesIsLayout | jrtplib_send_recv_h264/include/rtcpcompoundpacketbuilder.h:174-196 | the need is that of the layout and a multiple of 4 |
| CompoundBuilder.ReportsLength | jrtplib_send_recv_h264/include/rtcpcompoundpacketbuilder.h:174-196 | the length of a report laid out byte by byte, 31 blocks to a packet |
| CompoundBuilder.Report.NeededBytesIsEncoded | jrtplib_send_recv_h264/include/rtcpcompoundpacketbuilder.h:174-196 | the need of a report that was begun, with or without blocks, is the length of its packets laid out byte by byte |
| CompoundBuilder.Report.NeedsNothingExactly | jrtplib_send_recv_h264/include/rtcpcompoundpacketbuilder.h:177-182 | nothing is needed if and only if the report was neither begun nor given a block |
| CompoundBuilder.Report.ExtraReportBlock | jrtplib_send_recv_h264/include/rtcpcompoundpacketbuilder.h:198-211 | a block costs 24 bytes and, behind each 31st, 8 more; the first one of a report that was begun costs 24 |
| CompoundBuilder.Report.AddReportBlock | jrtplib_send_recv_h264/include/rtcpcompoundpacketbuilder.h:198-218 | the need after adding a block is the predicted one |
| CompoundBuilder.SDESSource.AddItem | jrtplib_send_recv_h264/include/rtcpcompoundpacketbuilder.h:247-263 | the need after adding an item is the predicted one |
| CompoundBuilder.SDES.AddSSRC | jrtplib_send_recv_h264/include/rtcpcompoundpacketbuilder.h:286-295 | the need after adding a source is the predicted one if and only if there was a source before |
| CompoundBuilder.SDES.AddItem | jrtplib_send_recv_h264/include/rtcpcompoundpacketbuilder.h:297-303 | the last source gets the item, the others stay, and the need is the predicted one |
| CompoundBuilder.SDES.NeedIsAligned | jrtplib_send_recv_h264/include/rtcpcompoundpacketbuilder.h:305-323 | the total is a multiple of 4 |
| CompoundBuilder.SDES.NeededBytes | jrtplib_send_recv_h264/include/rtcpcompoundpacketbuilder.h:305-323 | the sum over the sources and a header for every 31 |
| CompoundBuilder.SDES.NeededBytesWithExtraItem | jrtplib_send_recv_h264/include/rtcpcompoundpacketbuilder.h:325-344 | the loop that stops at the current source computes the prediction |
| CompoundBuilder.SDES.NeededBytesWithExtraSource | jrtplib_send_recv_h264/include/rtcpcompoundpacketbuilder.h:346-368 | the prediction for one more source |
| SdesPacket.ChunkTakesNeededBytes | jrtplib_send_recv_h264/include/rtcpcompoundpacketbuilder.h:236-245 | an encoded chunk takes exactly the bytes counted for its source |
| SdesPacket.SdesTakesNeededBytes | jrtplib_send_recv_h264/include/rtcpcompoundpacketbuilder.h:305-323 | encoded chunks, 31 to a packet with its header, take the bytes counted for all sources |
| SdesPacket.ItemAt | jrtplib_send_recv_h264/include/rtcpsdespacket.h:225-244 | what lies at the offset of item i of a chunk |
| SdesPacket.EndAt | jrtplib_send_recv_h264/include/rtcpsdespacket.h:187-193 | a zero byte lies behind the last item |
| SdesPacket.RTCPSDESPacket.GotoFirstChunk | jrtplib_send_recv_h264/include/rtcpsdespacket.h:162-173 | the cursor on chunk 0, if there is one |
| SdesPacket.RTCPSDESPacket.GotoNextChunk | jrtplib_send_recv_h264/include/rtcpsdespacket.h:175-200 | the cursor on the next chunk, the advance equal to the bytes counted for the chunk's source |
| SdesPacket.RTCPSDESPacket.GotoFirstItem | jrtplib_send_recv_h264/include/rtcpsdespacket.h:212-223 | the first item of the chunk, if there is one |
| SdesPacket.RTCPSDESPacket.GotoNextItem | jrtplib_send_recv_h264/include/rtcpsdespacket.h:225-244 | the next item of the chunk, if there is one |
| SdesPacket.RTCPSDESPacket.Getters | jrtplib_send_recv_h264/include/rtcpsdespacket.h:202-301 | on any chunk and item the getters give what was laid out there |
| SdesPacket.RTCPSDESPacket.NothingToGet | jrtplib_send_recv_h264/include/rtcpsdespacket.h:202-301 | without a current chunk every getter gives nothing |
| SdesPacket.TypesByNumber | jrtplib_send_recv_h264/include/rtcpsdespacket.h:246-276 | every item type is read from its number in the standard and from no other, and all further numbers are unknown |
| SdesPacket.ReadPacket | jrtplib_send_recv_h264/include/rtcpsdespacket.h:162-301 | the two walks visit exactly the chunks and items laid out, in order |
| Base64.BuildTable | h264dec/base64.c:59-62 | the table sends every alphabet character to its place, padding to zero and everything else to the skip mark |
| Base64.CountChars | h264dec/base64.c:64-68 | the number of characters that count |
| Base64.PutBlock | h264dec/base64.c:87-89 | three bytes of a full block |
| Base64.DecodeBlocks | h264dec/base64.c:77-93 | the output of all blocks, every write inside the buffer of count bytes, and the last characters left for the padding test |
| Base64.Base64Decode | h264dec/base64.c:53-103 | the decoded bytes, or nothing when the count is not a multiple of four |
| Base64.RoundTrip | h264dec/base64.c:53-103 | any text whose counting characters are the encoding of some bytes decodes to them |
| Base64.DecodeEncode | h264dec/base64.c:53-103 | decoding inverts encoding, which has four characters for every three bytes begun |
| Base64.NoiseIgnored | h264dec/base64.c:78-81 | a byte outside the alphabet changes nothing, wherever it is inserted |
| Base64.PaddingReadsAsA | h264dec/base64.c:62-101 | for every text: padding is read as the letter A wherever it stands, and the last two counting characters alone decide whether two, one or no bytes are taken off |
| Base64.EncodeDecode | h264dec/base64.c:53-103 | re-encoding what unpadded text decodes to gives its counting characters back |
| Base64.EncodeDecodeExactly | h264dec/base64.c:53-103 | for every text: re-encoding gives its counting characters back if and only if they are whole blocks, padded at the end only, with the unused bits zero |

## Left out

- Sockets, files, threads, sleeps, printing and HTTP: plumbing; a send or a write is an append to a trace, and an argument check for null pointers or an empty buffer has no counterpart.
- Packet loss and reordering: the receivers modelled keep no state across packets that would notice either.
- Memory: allocation never fails in the model, and freeing has no counterpart.
- RtpEnc.RtpMuxContext.SendNal: in aggregating mode it is stated for sizes up to 1397 or above 1400, because the code writes past its buffer for the three sizes between.
- RtpEnc.RtpMuxContext.SendAggregated: for the same sizes only.
- RtpEnc.RtpMuxContext.SendStream: in aggregating mode for streams without a unit of 1398 to 1400 bytes; and the timestamp wraps at 32 bits, where adding the floating-point 3600.0 and converting back is undefined in C at the overflow.
- Receivers.RtspPlayer.HandleRtpMsg: packets have the 12 bytes of a header, and 14 for a fragment, because the code subtracts the offsets without looking; the buffer behind a short packet is read as zeros.
- Receivers.RtpParser.RtpParse: packets have 12 bytes, and 14 for a fragment, for the same reason; the single NAL unit branch is modelled as it is, with the four bytes it writes. Statistics are not modelled.
- Receivers.UdpClient.DecodeRtp2H264: packets have a payload byte, and two for a fragment, for the same reason; the caller, which passes a length it never set, is not modelled.
- StapDelivery.AggregatedEndToEnd: a unit of 1398 to 1400 bytes counts as packed whole, where the source writes past its buffer; `SendAndParse` has no such unit.
- ByteStreamParser.H264ByteStreamParser.NextNalu: the fixed buffer for one NAL unit is unbounded in the model.
- SecondPacketizer.H264RtpPacketizer.Start: where a fragment would go through the unset `nalu_hdr`, it gives up and says so, as the source is undefined from there on.
- SecondPacketizer.H264RtpPacketizer.constructor: the random first sequence number, source and timestamp are parameters.
- The keyless twin of the hash table, rtphashtable.h, is the same structure with the element as key and is not written out again.
- KeyHashTable.RTPKeyHashTable.Clear: the cursor is null afterwards, where the source leaves it on a freed node.
- KeyHashTable.RTPKeyHashTable.constructor: the cursor is null, where the source leaves it unset.
- KeyHashTable.RTPKeyHashTable.AddElement: hash indices are natural numbers; a negative one would index outside the table.
- KeyHashTable.RTPKeyHashTable.GetCurrentElement: gives the element's value; writing through the returned reference is not modelled.
- SdpTokens.TakeTime: a product with a unit wraps at 64 bits, where overflow is undefined in C; `long`, `long long` and `time_t` have 64 bits and `int` 32, to which a port or format is truncated.
- SdpPrinter.SdpDump: a connection is printed when it is there; a half-filled one, which the parser never makes, is not modelled, nor is a null description.
- `sdp_get_attr`, `sdp_has_flag_attr` and `sdp_destroy`: easy members, and freeing.
- The private extension getters of the source description packet and the packet builders of jrtplib without bodies in the headers.
- CompoundBuilder.Report.NeededBytesIsLayout: asks that the header length be a multiple of 4, which the two headers the builder writes are.
- Base64.Base64Decode: returns a sequence for the buffer and its length; allocation failure is not modelled.
- `h264dec/rtcp.c`, `h264dec/rtsp.c`, `udp_h264/Server.c`, the jrtplib clock and jitter arithmetic, RTSP requests and URL parsing.
