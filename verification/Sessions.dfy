/** Sender and receiver as programs: what the one sends is handed, packet by packet, to the other. */
module Sessions {
  import opened Bytes
  import opened AnnexB
  import opened Packets
  import opened RtpEnc
  import opened Receivers
  import opened Delivery
  import opened PlayerDelivery
  import opened StapWalk
  import opened StapDelivery
  import opened ByteStreamParser
  import opened SecondPacketizer
  import opened ClientDelivery
  import opened PipeDelivery
  import opened WireFormat

  // --- every packet sent can be received ---

  const PAYLOAD_LIMIT: nat := 1402

  /** A payload that fits a datagram, with a FU header if it is of type 28. */
  predicate Sound(b: seq<Byte>) {
    |b| <= PAYLOAD_LIMIT && (At(b, 0) & 0x1f == 28 ==> |b| >= 2)
  }

  ghost predicate AllSound(ps: seq<Payload>) {
    forall i :: 0 <= i < |ps| ==> Sound(ps[i].bytes)
  }

  ghost predicate AllFull(ps: seq<Payload>) {
    forall i :: 0 <= i < |ps| ==> ps[i].bytes != []
  }

  /** What all three receivers ask of a packet. */
  ghost predicate Deliverable(pkts: seq<seq<Byte>>) {
    forall i :: 0 <= i < |pkts| ==> RTP_OFFSET <= |pkts[i]| <= 65535 && Receivable(pkts[i])
  }

  ghost predicate NoneBare(pkts: seq<seq<Byte>>) {
    forall i :: 0 <= i < |pkts| ==> |pkts[i]| > RTP_OFFSET
  }

  lemma {:induction false} PacketSound(seqNo: nat, timestamp: nat, ssrc: nat, p: Payload)
    requires Sound(p.bytes)
    ensures var pkt := Packet(seqNo, timestamp, ssrc, p);
      && |pkt| == RTP_OFFSET + |p.bytes| <= 65535 && Receivable(pkt)
  {
    hide Header;
    RestAt(Header(seqNo, timestamp, ssrc, p.mark), p.bytes, 0);
  }

  lemma {:induction false} StampSound(seqNo: nat, timestamp: nat, ssrc: nat, ps: seq<Payload>)
    requires AllSound(ps)
    ensures Deliverable(Stamp(seqNo, timestamp, ssrc, ps))
    ensures AllFull(ps) ==> NoneBare(Stamp(seqNo, timestamp, ssrc, ps))
    decreases |ps|
  {
    hide Packet, Sound, Receivable;
    if ps == [] {
    } else {
      PacketSound(seqNo, timestamp, ssrc, ps[0]);
      StampSound(seqNo + 1, timestamp, ssrc, ps[1..]);
      StampCons(seqNo, timestamp, ssrc, ps);
    }
  }

  lemma {:induction false} DeliverableBoth(a: seq<seq<Byte>>, b: seq<seq<Byte>>)
    requires Deliverable(a) && Deliverable(b)
    ensures Deliverable(a + b)
    ensures NoneBare(a) && NoneBare(b) ==> NoneBare(a + b)
  {}

  lemma {:induction false} AllSoundBoth(a: seq<Payload>, b: seq<Payload>)
    requires AllSound(a) && AllSound(b)
    ensures AllSound(a + b)
  {}

  lemma {:induction false} FragmentsSound(n: Nal, off: nat, last: bool)
    requires 1 <= off <= |n|
    ensures AllSound(FuFrom(n, off, last))
    decreases |n| - off
  {
    hide FuIndicator, FuHeader, At;
    if off + FuSize(n, off) == |n| {
    } else {
      FragmentsSound(n, off + FuSize(n, off), last);
    }
  }

  lemma {:induction false} StapSound(hs: seq<Nal>, mark: bool)
    requires hs != [] && |Stap(hs)| <= RTP_PAYLOAD_MAX
    ensures AllSound([Payload(Stap(hs), mark)])
  {
    hide StapBody, StapHeader;
    StapHeaderBits(hs);
  }

  /** The state between two NAL units: the buffer within its bound, the next unit sendable. */
  predicate Sendable(m: Mux, n: Nal) {
    |Stap(m.held)| <= RTP_PAYLOAD_MAX && Admissible(m.aggregation, n) && (m.aggregation || WellDefined(n))
  }

  lemma {:induction false} NalSound(m: Mux, n: Nal, last: bool)
    requires Sendable(m, n)
    ensures AllSound(NalPayloads(m, n, last)) && |Stap(NalHeld(m, n, last))| <= RTP_PAYLOAD_MAX
  {
    hide Stap, FuFrom, Sound;
    StapNothing();
    if m.held != [] {
      StapSound(m.held, false);
    }
    if |n| > RTP_PAYLOAD_MAX {
      FragmentsSound(n, 1, last);
      AllSoundBoth(Flush(m.held), FuFrom(n, 1, last));
    } else if m.aggregation {
      AggregateFitsExactly(m.held, n);
      StapSound(Aggregate(m.held, n), true);
    } else {
      SingleSound(n);
    }
  }

  lemma {:induction false} StapNothing()
    ensures |Stap([])| <= RTP_PAYLOAD_MAX
  {}

  lemma {:induction false} SingleSound(n: Nal)
    requires |n| <= RTP_PAYLOAD_MAX && WellDefined(n)
    ensures Sound(n)
  {}

  /** Every packet of a run meets what the player and rtp_parse ask for. */
  lemma {:induction false} RunDeliverable(m: Mux, nals: seq<Nal>)
    requires |Stap(m.held)| <= RTP_PAYLOAD_MAX
    requires forall n :: n in nals ==> Admissible(m.aggregation, n) && (m.aggregation || WellDefined(n))
    ensures Deliverable(RunPackets(m, nals))
    decreases |nals|
  {
    hide NalPayloads, NalHeld, Stamp, Stap, Deliverable, NoneBare, Admissible, WellDefined, AllSound, AllFull;
    if nals == [] {
      NothingDelivered();
    } else {
      var last, n := |nals| == 1, nals[0];
      var m' := AfterNal(m, n, last);
      assert n in nals;
      NalSound(m, n, last);
      StampSound(m.seqNo, m.timestamp, m.ssrc, NalPayloads(m, n, last));
      RunDeliverable(m', nals[1..]);
      DeliverableBoth(NalPackets(m, n, last), RunPackets(m', nals[1..]));
    }
  }

  lemma {:induction false} NothingDelivered()
    ensures Deliverable([]) && NoneBare([])
  {}

  lemma {:induction false} PiecesSound(n: Nal)
    requires n != [] && WellDefined(n)
    ensures AllSound(Pieces(n)) && AllFull(Pieces(n))
  {
    hide At, PiecesFrom, Sound;
    if |n| <= RTP_PAYLOAD_MAX_SIZE {
      SingleSound(n);
    } else {
      PackArithmetic(|n|);
      PiecesFromSound(n, 0);
    }
  }

  lemma {:induction false} PiecesFromSound(n: Nal, k: nat)
    requires |n| > RTP_PAYLOAD_MAX_SIZE && k < PackNum(|n|)
    ensures AllSound(PiecesFrom(n, k)) && AllFull(PiecesFrom(n, k))
    decreases PackNum(|n|) - k
  {
    hide Indicator, FragmentHeader, At, PackNum;
    PieceBounds(n, k);
    if k + 1 < PackNum(|n|) {
      PiecesFromSound(n, k + 1);
    } else {
      assert PiecesFrom(n, k) == [Piece(n, k)];
    }
  }

  /** Every packet of the second sender meets what the client asks for. */
  lemma {:induction false} PiecesDeliverable(seqNo: nat, timestamp: nat, ssrc: nat, tick: nat, nals: seq<Nal>)
    requires Readable(nals)
    ensures Deliverable(RunPieces(seqNo, timestamp, ssrc, tick, nals))
    ensures NoneBare(RunPieces(seqNo, timestamp, ssrc, tick, nals))
    decreases |nals|
  {
    hide Pieces, Stamp, WellDefined, Deliverable, NoneBare, AllSound, AllFull;
    if nals == [] {
      NothingDelivered();
    } else {
      assert nals[0] in nals;
      var t, ps := (timestamp + tick) % 0x1_0000_0000, Pieces(nals[0]);
      PiecesSound(nals[0]);
      StampSound(seqNo + 1, t, ssrc, ps);
      PiecesDeliverable((seqNo + |ps|) % 0x1_0000, t, ssrc, tick, nals[1..]);
      DeliverableBoth(Stamp(seqNo + 1, t, ssrc, ps), RunPieces((seqNo + |ps|) % 0x1_0000, t, ssrc, tick, nals[1..]));
    }
  }

  // --- sending and receiving ---

  lemma {:induction false} WritesStep<T>(f: seq<Byte> -> seq<T>, pkts: seq<seq<Byte>>, i: nat)
    requires i < |pkts|
    ensures Writes(f, pkts[..i + 1]) == Writes(f, pkts[..i]) + f(pkts[i])
  {
    hide Writes;
    assert pkts[..i + 1] == pkts[..i] + [pkts[i]];
    WritesConcat(f, pkts[..i], [pkts[i]]);
    WritesOne(f, pkts[i]);
  }

  lemma {:induction false} WritesOne<T>(f: seq<Byte> -> seq<T>, pkt: seq<Byte>)
    ensures Writes(f, [pkt]) == f(pkt) && Writes(f, []) == []
  {
    assert [pkt][1..] == [] && f(pkt) + [] == f(pkt);
  }

  method Play(player: RtspPlayer, pkts: seq<seq<Byte>>)
    requires Deliverable(pkts)
    modifies player
    ensures player.file == old(player.file) + Writes(PlayerWrites, pkts)
  {
    hide PlayerWrites, Writes, Receivable;
    WritesOne(PlayerWrites, []);
    for i := 0 to |pkts|
      invariant player.file == old(player.file) + Writes(PlayerWrites, pkts[..i])
    {
      WritesStep(PlayerWrites, pkts, i);
      player.HandleRtpMsg(pkts[i]);
    }
    assert pkts[..|pkts|] == pkts;
  }

  method Parse(parser: RtpParser, pkts: seq<seq<Byte>>)
    requires Deliverable(pkts)
    modifies parser
    ensures parser.pipe == old(parser.pipe) + Writes(ParseWrites, pkts)
  {
    hide ParseWrites, Writes, Receivable, DecodeHeader;
    WritesOne(ParseWrites, []);
    for i := 0 to |pkts|
      invariant parser.pipe == old(parser.pipe) + Writes(ParseWrites, pkts[..i])
    {
      WritesStep(ParseWrites, pkts, i);
      var _ := parser.RtpParse(pkts[i]);
    }
    assert pkts[..|pkts|] == pkts;
  }

  method Decode(client: UdpClient, pkts: seq<seq<Byte>>)
    requires Deliverable(pkts) && NoneBare(pkts)
    modifies client
    ensures client.savefp == old(client.savefp) + Writes(ClientWrites, pkts)
  {
    hide ClientWrites, Writes, Receivable;
    WritesOne(ClientWrites, []);
    for i := 0 to |pkts|
      invariant client.savefp == old(client.savefp) + Writes(ClientWrites, pkts[..i])
    {
      WritesStep(ClientWrites, pkts, i);
      client.DecodeRtp2H264(pkts[i]);
    }
    assert pkts[..|pkts|] == pkts;
  }

  /** Send a stream and play it. Without aggregation all its NAL units reach the file, as far as the
      player keeps them, and the file is the stream exactly when it keeps them all; with aggregation
      only the fragmented ones do. */
  method SendAndPlay(ctx: RtpMuxContext, player: RtspPlayer, stream: seq<Byte>, base: nat)
    requires ctx.Valid() && ctx.held == []
    requires forall n :: n in Split(stream) ==> if ctx.aggregation then Admissible(true, n) else WellDefined(n)
    modifies ctx`bufPtr, ctx`seqNo, ctx`held, ctx`sent, ctx`timestamp, ctx.cache, ctx.buf, player
    ensures ctx.Valid()
    ensures player.file
         == old(player.file) + PlayerOuts(if ctx.aggregation then Long(Split(stream)) else Split(stream))
    ensures !ctx.aggregation ==> forall nals :: Splittable(AllLong(|nals|), nals) && stream == Join(nals) ==>
      (player.file == old(player.file) + stream <==> forall n :: n in nals ==> PlayerKeeps(n))
  {
    hide Split, PlayerOuts, RunPackets, AfterRun, Writes, Receivable, WellDefined, Stap, Deliverable, PlayerKeeps,
      Splittable, Join, RtpMuxContext.Valid, Admissible, Long;
    var from := |ctx.sent|;
    ghost var m, nals := ctx.View(), Split(stream);
    AllAdmissible(m.aggregation, nals);
    ctx.SendStream(stream, base);
    var pkts := ctx.sent[from..];
    assert pkts == RunPackets(m, nals);
    StapNothing();
    RunDeliverable(m, nals);
    Play(player, pkts);
    if m.aggregation {
      PlayerAggregatedRun(m, nals);
    } else {
      PlayerRun(m, nals);
      PlayedExactly(stream, old(player.file));
    }
  }

  lemma {:induction false} AllAdmissible(aggregation: bool, nals: seq<Nal>)
    requires forall n :: n in nals ==> if aggregation then Admissible(true, n) else WellDefined(n)
    ensures forall n :: n in nals ==> Admissible(aggregation, n) && (aggregation || WellDefined(n))
  {}

  lemma {:induction false} PlayedExactly(stream: seq<Byte>, before: seq<Byte>)
    requires forall n :: n in Split(stream) ==> WellDefined(n)
    ensures forall nals :: Splittable(AllLong(|nals|), nals) && stream == Join(nals) ==>
      (before + PlayerOuts(Split(stream)) == before + stream <==> forall n :: n in nals ==> PlayerKeeps(n))
  {
    hide Split, PlayerOuts, WellDefined, PlayerKeeps, Splittable, Join;
    forall ns: seq<Nal> | Splittable(AllLong(|ns|), ns) && stream == Join(ns)
      ensures before + PlayerOuts(Split(stream)) == before + stream <==> forall n :: n in ns ==> PlayerKeeps(n)
    {
      JoinIsAllLong(ns);
      SplitJoinWith(AllLong(|ns|), ns);
      PlayerOutsAreJoin(ns);
      SameBehind(before, PlayerOuts(ns), Join(ns));
    }
  }

  /** Send a stream with aggregation and parse it: the bytes on the pipe, and exactly when the NAL
      units in the data writes are those of the stream. */
  method SendAndParse(ctx: RtpMuxContext, parser: RtpParser, stream: seq<Byte>, base: nat)
    requires ctx.Valid() && ctx.aggregation && ctx.held == []
    requires forall n :: n in Split(stream) ==> Admissible(true, n)
    modifies ctx`bufPtr, ctx`seqNo, ctx`held, ctx`sent, ctx`timestamp, ctx.cache, ctx.buf, parser
    ensures ctx.Valid() && ctx.held == []
    ensures PipeBytes(parser.pipe) == old(PipeBytes(parser.pipe)) + GotBytes(Shipments(old(ctx.View()), Split(stream)))
    ensures UprightRun(old(ctx.View()), Split(stream)) ==>
      PipeBytes(parser.pipe) == old(PipeBytes(parser.pipe)) + ArrivedAll(Split(stream))
    ensures Collect([], parser.pipe) == old(Collect([], parser.pipe)) + Split(stream)
       <==> UprightRun(old(ctx.View()), Split(stream)) && ClearF(Split(stream))
  {
    hide Split, RunPackets, AfterRun, Writes, Receivable, Stap, Deliverable, Admissible, UprightRun, ClearF, PipeBytes,
      ArrivedAll, GotBytes, Got, Shipments, Collect, RtpMuxContext.Valid;
    var from := |ctx.sent|;
    ghost var m, nals, before := ctx.View(), Split(stream), parser.pipe;
    ctx.SendStream(stream, base);
    var pkts := ctx.sent[from..];
    assert pkts == RunPackets(m, nals);
    StapNothing();
    RunDeliverable(m, nals);
    Parse(parser, pkts);
    RunMadeUp(m, nals);
    ParsedRun(m, nals, before);
  }

  /** What a run adds to a pipe. */
  lemma {:induction false} ParsedRun(m: Mux, nals: seq<Nal>, before: seq<Event>)
    requires m.aggregation && m.held == []
    ensures var es := before + Writes(ParseWrites, RunPackets(m, nals));
      && PipeBytes(es) == PipeBytes(before) + GotBytes(Shipments(m, nals))
      && (UprightRun(m, nals) ==> PipeBytes(es) == PipeBytes(before) + ArrivedAll(nals))
      && (Collect([], es) == Collect([], before) + nals <==> UprightRun(m, nals) && ClearF(nals))
  {
    hide RunPackets, Writes, ParseWrites, UprightRun, ClearF, PipeBytes, ArrivedAll, GotBytes, Got, Shipments, Collect;
    var es := Writes(ParseWrites, RunPackets(m, nals));
    PipeConcat(before, es);
    CollectConcat([], before, es);
    PipeRun(m, nals);
    if UprightRun(m, nals) {
      UprightPipeRun(m, nals);
    }
    AggregatedRun(m, nals, Collect([], before));
    AggregatedRun(m, nals, []);
    AggregatedEndToEnd(m, nals);
    SameBehind(Collect([], before), Got(Shipments(m, nals)), nals);
    assert [] + Got(Shipments(m, nals)) == Got(Shipments(m, nals));
  }

  /** Packetize what the parser finds in a file and decode it. */
  method SendAndDecode(packetizer: H264RtpPacketizer, parser: H264ByteStreamParser, client: UdpClient)
    returns (defined: bool)
    requires packetizer.Valid()
    requires forall n :: n in ParsedFrom(parser.h264file, parser.pos) ==> WellDefined(n)
    modifies packetizer`seqNum, packetizer`timestamp, packetizer`sent, packetizer`naluHdr, packetizer.sendBuff
    modifies parser, client
    ensures packetizer.Valid()
    ensures defined <==> PointerSet(old(ParsedFrom(parser.h264file, parser.pos)))
    ensures var nals := old(ParsedFrom(parser.h264file, parser.pos));
      defined ==> (client.savefp == old(client.savefp) + Join(nals) <==> forall n :: n in nals ==> ClientKeeps(n))
    ensures !defined ==> client.savefp == old(client.savefp)
  {
    hide ParsedFrom, RunPieces, Writes, Receivable, WellDefined, Deliverable, NoneBare, PointerSet, Join,
      ClientKeeps, Scan, Plain;
    var from := |packetizer.sent|;
    ghost var seqNum, timestamp, ssrc := packetizer.seqNum, packetizer.timestamp, packetizer.ssrc;
    ghost var tick, nals := packetizer.clock / FRAME_RATE, ParsedFrom(parser.h264file, parser.pos);
    ParsedReadable(parser.h264file, parser.pos);
    defined := packetizer.Start(parser);
    if defined {
      var pkts := packetizer.sent[from..];
      assert pkts == RunPieces(seqNum, timestamp, ssrc, tick, nals);
      PiecesDeliverable(seqNum, timestamp, ssrc, tick, nals);
      Decode(client, pkts);
      ClientRun(seqNum, timestamp, ssrc, tick, nals);
      SameBehind(old(client.savefp), Writes(ClientWrites, pkts), Join(nals));
    }
  }

  lemma {:induction false} ParsedReadable(s: seq<Byte>, p: nat)
    requires forall n :: n in ParsedFrom(s, p) ==> WellDefined(n)
    ensures Readable(ParsedFrom(s, p))
  {
    hide ParsedFrom, WellDefined, Plain;
    ParsedIsPlain(s, p);
    forall n | n in ParsedFrom(s, p) ensures n != [] {
      PlainNonEmpty(n);
    }
  }
}
