/** The second sender, h264rtppacketizer.cpp, which cuts NAL units by a count and a last size. */
module SecondPacketizer {
  import opened Bytes
  import opened Packets
  import opened ByteStreamParser

  const RTP_PAYLOAD_MAX_SIZE: nat := 1400
  const SEND_BUFF_SIZE: nat := 1500
  const FRAME_RATE: nat := 25

  /** fu_pack_num and last_fu_pack_size. */
  function PackNum(len: nat): nat {
    if len % RTP_PAYLOAD_MAX_SIZE != 0 then len / RTP_PAYLOAD_MAX_SIZE + 1 else len / RTP_PAYLOAD_MAX_SIZE
  }

  function LastPackSize(len: nat): nat {
    if len % RTP_PAYLOAD_MAX_SIZE != 0 then len % RTP_PAYLOAD_MAX_SIZE else RTP_PAYLOAD_MAX_SIZE
  }

  /** The count and the last size fit together: the last piece is not empty, not over the
      limit, and ends where the NAL unit ends. */
  lemma {:induction false} PackArithmetic(len: nat)
    requires len > 0
    ensures 1 <= LastPackSize(len) <= RTP_PAYLOAD_MAX_SIZE
    ensures PackNum(len) >= 1 && RTP_PAYLOAD_MAX_SIZE * (PackNum(len) - 1) + LastPackSize(len) == len
    ensures len > RTP_PAYLOAD_MAX_SIZE ==> PackNum(len) >= 2
  {}

  /** Indicator and header of a fragment: F, NRI and type all come from the NAL unit. */
  function Indicator(n: Nal): Byte
    requires n != []
  {
    (((n[0] & 0x80) >> 7) << 7) | (((n[0] & 0x60) >> 5) << 5) | 28
  }

  function FragmentHeader(n: Nal, s: bool, e: bool): Byte
    requires n != []
  {
    ((if s then 1 else 0) << 7) | ((if e then 1 else 0) << 6) | (n[0] & 0x1f)
  }

  lemma {:induction false} PieceHeader(n: Nal, s: bool, e: bool)
    requires n != []
    ensures Indicator(n) == (((n[0] & 0x80) >> 7) << 7) | (((n[0] & 0x60) >> 5) << 5) | 28
    ensures FragmentHeader(n, s, e) == ((if s then 1 else 0) << 7) | ((if e then 1 else 0) << 6) | (n[0] & 0x1f)
  {}

  /** Fragment k of the second scheme. */
  function Piece(n: Nal, k: nat): Payload
    requires |n| > RTP_PAYLOAD_MAX_SIZE && k < PackNum(|n|)
  {
    PackArithmetic(|n|);
    var from := if k == 0 then 1 else RTP_PAYLOAD_MAX_SIZE * k;
    var last := k == PackNum(|n|) - 1;
    var to := if last then |n| else RTP_PAYLOAD_MAX_SIZE * (k + 1);
    Payload([Indicator(n), FragmentHeader(n, k == 0, last)] + n[from..to], last)
  }

  function PiecesFrom(n: Nal, k: nat): seq<Payload>
    requires |n| > RTP_PAYLOAD_MAX_SIZE && k < PackNum(|n|)
    decreases PackNum(|n|) - k
  {
    [Piece(n, k)] + if k + 1 < PackNum(|n|) then PiecesFrom(n, k + 1) else []
  }

  /** The payloads the second sender makes of one NAL unit. */
  function Pieces(n: Nal): seq<Payload> {
    PackArithmetic(if n == [] then 1 else |n|);
    if n == [] then []
    else if |n| <= RTP_PAYLOAD_MAX_SIZE then [Payload(n, false)]
    else PiecesFrom(n, 0)
  }

  /** Pieces sent so far, and still to send from piece k on. */
  ghost predicate PiecesSent(m: Mux, before: seq<seq<Byte>>, ps: seq<Payload>, n: Nal, k: nat,
                             sent: seq<seq<Byte>>, seqNo: nat)
    requires |n| > RTP_PAYLOAD_MAX_SIZE
  {
    && SentBy(m, before, ps, sent, seqNo)
    && (if k < PackNum(|n|) then ps + PiecesFrom(n, k) else ps) == Pieces(n)
  }

  lemma {:induction false} PiecesSentStep(m: Mux, before: seq<seq<Byte>>, ps: seq<Payload>, n: Nal, k: nat,
                                          sent: seq<seq<Byte>>, seqNo: nat)
    requires |n| > RTP_PAYLOAD_MAX_SIZE && k < PackNum(|n|)
    requires PiecesSent(m, before, ps, n, k, sent, seqNo)
    ensures PiecesSent(m, before, ps + [Piece(n, k)], n, k + 1,
                       sent + Stamp(seqNo, m.timestamp, m.ssrc, [Piece(n, k)]), (seqNo + 1) % 0x1_0000)
  {
    hide SentBy, Stamp, Piece, PackNum, Pieces;
    SentMore(m, before, ps, sent, seqNo, [Piece(n, k)]);
    if k + 1 < PackNum(|n|) {
      Assoc(ps, [Piece(n, k)], PiecesFrom(n, k + 1));
    } else {
      assert [Piece(n, k)] + [] == [Piece(n, k)];
    }
  }

  /** The packets of a run; the clock ticks before each NAL unit. */
  function RunPieces(seqNum: nat, timestamp: nat, ssrc: nat, tick: nat, nals: seq<Nal>): seq<seq<Byte>>
    decreases |nals|
  {
    if nals == [] then []
    else
      var t := (timestamp + tick) % 0x1_0000_0000;
      Stamp(seqNum + 1, t, ssrc, Pieces(nals[0]))
      + RunPieces((seqNum + |Pieces(nals[0])|) % 0x1_0000, t, ssrc, tick, nals[1..])
  }

  /** A run in progress. */
  ghost predicate RunLeft(all: seq<seq<Byte>>, sent: seq<seq<Byte>>, seqNum: nat, timestamp: nat, ssrc: nat, tick: nat,
                          nals: seq<Nal>) {
    all == sent + RunPieces(seqNum, timestamp, ssrc, tick, nals)
  }

  lemma {:induction false} RunLeftStep(all: seq<seq<Byte>>, before: seq<seq<Byte>>, seqNum: nat, timestamp: nat,
                                       ssrc: nat,
                                       tick: nat, nals: seq<Nal>, m: Mux, sent: seq<seq<Byte>>, seqNum': nat)
    requires nals != [] && seqNum' < 0x1_0000
    requires RunLeft(all, before, seqNum, timestamp, ssrc, tick, nals)
    requires m == Mux(false, [], (seqNum + 1) % 0x1_0000, (timestamp + tick) % 0x1_0000_0000, ssrc)
    requires SentBy(m, before, Pieces(nals[0]), sent, (seqNum' + 1) % 0x1_0000)
    ensures RunLeft(all, sent, seqNum', m.timestamp, ssrc, tick, nals[1..])
  {
    hide Stamp, Pieces;
    var ps := Pieces(nals[0]);
    StampWraps(seqNum + 1, m.timestamp, ssrc, ps);
    NextNumber(seqNum, |ps|, seqNum');
    Assoc(before, Stamp(seqNum + 1, m.timestamp, ssrc, ps),
      RunPieces(seqNum', m.timestamp, ssrc, tick, nals[1..]));
  }

  lemma {:induction false} NextNumber(s: nat, k: nat, s': nat)
    requires s' < 0x1_0000 && (s' + 1) % 0x1_0000 == ((s + 1) % 0x1_0000 + k) % 0x1_0000
    ensures s' == (s + k) % 0x1_0000
  {}

  lemma {:induction false} RunLeftStarts(all: seq<seq<Byte>>, sent: seq<seq<Byte>>, seqNum: nat, timestamp: nat,
                                         ssrc: nat,
                                         tick: nat, nals: seq<Nal>)
    requires all == sent + RunPieces(seqNum, timestamp, ssrc, tick, nals)
    ensures RunLeft(all, sent, seqNum, timestamp, ssrc, tick, nals)
  {}

  lemma {:induction false} RunLeftEnds(all: seq<seq<Byte>>, sent: seq<seq<Byte>>, seqNum: nat, timestamp: nat,
                                       ssrc: nat,
                                       tick: nat)
    requires RunLeft(all, sent, seqNum, timestamp, ssrc, tick, [])
    ensures sent == all
  {
    assert sent + [] == sent;
  }

  /** Where start never goes through nalu_hdr before it is set: no NAL unit is over the limit, or the
      first one is not. */
  predicate PointerSet(nals: seq<Nal>) {
    (forall n :: n in nals ==> |n| <= RTP_PAYLOAD_MAX_SIZE) || (nals != [] && |nals[0]| <= RTP_PAYLOAD_MAX_SIZE)
  }

  /** That is: in front of every NAL unit sent in fragments stands one that is not. */
  lemma {:induction false} PointerSetExactly(nals: seq<Nal>)
    ensures PointerSet(nals) <==>
      forall i :: 0 <= i < |nals| && |nals[i]| > 1400 ==> exists j :: 0 <= j < i && |nals[j]| <= 1400
  {
    if PointerSet(nals) {
      forall i | 0 <= i < |nals| && |nals[i]| > 1400 ensures exists j :: 0 <= j < i && |nals[j]| <= 1400 {
        assert nals[i] in nals;
        assert |nals[0]| <= 1400;
      }
    } else {
      assert nals != [] && |nals[0]| > 1400;
    }
  }

  class H264RtpPacketizer {
    var seqNum: nat
    var ssrc: nat
    var timestamp: nat
    var clock: nat
    const sendBuff: array<Byte>

    /** Whether start has pointed nalu_hdr at byte 12 yet. */
    var naluHdr: bool

    /** The datagrams sent so far. */
    var sent: seq<seq<Byte>>

    ghost predicate Valid()
      reads this
    {
      seqNum < 0x1_0000 && ssrc < 0x1_0000_0000 && timestamp < 0x1_0000_0000 && sendBuff.Length == SEND_BUFF_SIZE
    }

    /** Sequence number, source and first timestamp are drawn at random. */
    constructor (seqNum: nat, ssrc: nat, timestamp: nat, clock: nat)
      requires seqNum < 0x1_0000 && ssrc < 0x1_0000_0000 && timestamp < 0x1_0000_0000
      ensures Valid() && fresh(sendBuff) && sent == []
      ensures this.seqNum == seqNum && this.ssrc == ssrc && this.timestamp == timestamp && this.clock == clock
    {
      this.seqNum, this.ssrc, this.timestamp, this.clock := seqNum, ssrc, timestamp, clock;
      sendBuff := new Byte[SEND_BUFF_SIZE];
      naluHdr, sent := false, [];
    }

    /** The state before the packets of a NAL unit, the clock having ticked. */
    ghost function Next(): Mux
      reads this
    {
      Mux(false, [], (seqNum + 1) % 0x1_0000, (timestamp + clock / FRAME_RATE) % 0x1_0000_0000, ssrc)
    }

    /** Clear the buffer and write the RTP header, counting the sequence number on first. */
    method PutRtpHeader(marker: bool)
      requires Valid()
      modifies this`seqNum, sendBuff
      ensures Valid() && seqNum == (old(seqNum) + 1) % 0x1_0000
      ensures sendBuff[..12] == Header(seqNum, timestamp, ssrc, marker)
    {
      hide Be16, Be32;
      forall i | 0 <= i < SEND_BUFF_SIZE {
        sendBuff[i] := 0;
      }
      seqNum := (seqNum + 1) % 0x1_0000;
      sendBuff[0] := 2 << 6;
      sendBuff[1] := ((if marker then 1 else 0) << 7) | 96;
      assert sendBuff[..2] == [0x80, 96 | (if marker then 0x80 else 0)];
      var pos := Load16(sendBuff, 2, seqNum);
      pos := Load32(sendBuff, 4, timestamp);
      pos := Load32(sendBuff, 8, ssrc);
    }

    /** A single NAL unit packet: the header byte put together from its fields, then the rest. The
        only place where nalu_hdr is set. */
    method SendSingle(n: Nal)
      requires Valid() && 1 <= |n| <= RTP_PAYLOAD_MAX_SIZE
      modifies this`seqNum, this`sent, this`naluHdr, sendBuff
      ensures naluHdr
      ensures Valid() && seqNum == (old(seqNum) + 1) % 0x1_0000
      ensures sent == old(sent) + Stamp(seqNum, timestamp, ssrc, [Payload(n, false)])
    {
      hide Header;
      PutRtpHeader(false);
      naluHdr := true;
      sendBuff[12] := (((n[0] & 0x80) >> 7) << 7) | (((n[0] & 0x60) >> 5) << 5) | (n[0] & 0x1f);
      assert sendBuff[12] == n[0];
      assert sendBuff[..13] == sendBuff[..12] + [n[0]];
      CopyInto(sendBuff, 13, n[1..]);
      assert n == [n[0]] + n[1..];
      assert sendBuff[..12 + |n|] == Packet(seqNum, timestamp, ssrc, Payload(n, false));
      StampOne(seqNum, timestamp, ssrc, Payload(n, false));
      sent := sent + [sendBuff[..12 + |n|]];
    }

    /** One fragment, the count bytes of n from position from on; F and NRI go through nalu_hdr. */
    method SendPiece(n: Nal, start: bool, end: bool, from: nat, count: nat)
      requires naluHdr
      requires Valid() && n != [] && from + count <= |n| && count <= RTP_PAYLOAD_MAX_SIZE
      modifies this`seqNum, this`sent, sendBuff
      ensures Valid() && seqNum == (old(seqNum) + 1) % 0x1_0000
      ensures sent == old(sent) + Stamp(seqNum, timestamp, ssrc,
        [Payload([Indicator(n), FragmentHeader(n, start, end)] + n[from..from + count], end)])
    {
      hide Header, Indicator, FragmentHeader, Stamp;
      PieceHeader(n, start, end);
      PutRtpHeader(end);
      sendBuff[12] := (((n[0] & 0x80) >> 7) << 7) | (((n[0] & 0x60) >> 5) << 5) | 28;
      sendBuff[13] := ((if start then 1 else 0) << 7) | ((if end then 1 else 0) << 6) | (n[0] & 0x1f);
      assert sendBuff[..14] == sendBuff[..12] + [Indicator(n), FragmentHeader(n, start, end)];
      CopyInto(sendBuff, 14, n[from..from + count]);
      ghost var p := Payload([Indicator(n), FragmentHeader(n, start, end)] + n[from..from + count], end);
      assert sendBuff[..14 + count] == Packet(seqNum, timestamp, ssrc, p);
      StampOne(seqNum, timestamp, ssrc, p);
      sent := sent + [sendBuff[..14 + count]];
    }

    /** start: every NAL unit the parser returns, one after the other. It is defined as long as no
        fragment goes through the unset pointer. */
    method Start(parser: H264ByteStreamParser) returns (defined: bool)
      requires Valid()
      modifies this`seqNum, this`timestamp, this`sent, this`naluHdr, sendBuff, parser
      ensures Valid()
      ensures defined <==> PointerSet(old(ParsedFrom(parser.h264file, parser.pos)))
      ensures defined ==> sent == old(sent) + RunPieces(old(seqNum), old(timestamp), ssrc, clock / FRAME_RATE,
        old(ParsedFrom(parser.h264file, parser.pos)))
      ensures !defined ==> sent == old(sent)
    {
      hide RunLeft, Scan, SentBy, ParsedFrom, RunPieces, Pieces;
      ghost var nals0 := ParsedFrom(parser.h264file, parser.pos);
      ghost var nals := nals0;
      ghost var tick := clock / FRAME_RATE;
      ghost var all := sent + RunPieces(seqNum, timestamp, ssrc, tick, nals);
      RunLeftStarts(all, sent, seqNum, timestamp, ssrc, tick, nals);
      naluHdr := false;
      ParsedOne(parser.h264file, parser.pos);
      var nal := parser.NextNalu();
      while nal.Some?
        invariant Valid() && ssrc == old(ssrc) && clock == old(clock)
        invariant nals == if nal.None? then [] else [nal.value] + ParsedFrom(parser.h264file, parser.pos)
        invariant nal.Some? ==> nal.value != []
        invariant RunLeft(all, sent, seqNum, timestamp, ssrc, tick, nals)
        invariant if naluHdr then PointerSet(nals0) else nals == nals0 && sent == old(sent)
        decreases |nals|
      {
        if |nal.value| > RTP_PAYLOAD_MAX_SIZE && !naluHdr {
          return false;
        }
        ghost var m, before, s, t := Next(), sent, seqNum, timestamp;
        SendNalu(nal.value);
        RunLeftStep(all, before, s, t, ssrc, tick, nals, m, sent, seqNum);
        nals := nals[1..];
        ParsedOne(parser.h264file, parser.pos);
        nal := parser.NextNalu();
      }
      RunLeftEnds(all, sent, seqNum, timestamp, ssrc, tick);
      return true;
    }

    /** One pass of the loop of start. */
    method SendNalu(n: Nal)
      requires Valid() && (|n| > RTP_PAYLOAD_MAX_SIZE ==> naluHdr)
      modifies this`seqNum, this`timestamp, this`sent, this`naluHdr, sendBuff
      ensures Valid()
      ensures n == [] ==> unchanged(this)
      ensures n != [] ==> timestamp == old(Next()).timestamp && naluHdr
      ensures n != [] ==> SentBy(old(Next()), old(sent), Pieces(n), sent, (seqNum + 1) % 0x1_0000)
      ensures ssrc == old(ssrc) && clock == old(clock)
    {
      hide SentBy, Stamp;
      if |n| < 1 {
        return;
      }
      ghost var m, before := Next(), sent;
      SentNothing(m, before);
      timestamp := (timestamp + clock / FRAME_RATE) % 0x1_0000_0000;
      if |n| <= RTP_PAYLOAD_MAX_SIZE {
        SentMore(m, before, [], sent, (seqNum + 1) % 0x1_0000, [Payload(n, false)]);
        assert [] + [Payload(n, false)] == Pieces(n);
        SendSingle(n);
      } else {
        SendPieces(m, before, n);
      }
    }

    method SendPieces(ghost m: Mux, ghost before: seq<seq<Byte>>, n: Nal)
      requires Valid() && |n| > RTP_PAYLOAD_MAX_SIZE && naluHdr
      requires m.timestamp == timestamp && m.ssrc == ssrc
      requires SentBy(m, before, [], sent, (seqNum + 1) % 0x1_0000)
      modifies this`seqNum, this`sent, sendBuff
      ensures Valid()
      ensures SentBy(m, before, Pieces(n), sent, (seqNum + 1) % 0x1_0000)
    {
      hide SentBy, Stamp, Indicator, FragmentHeader, PiecesFrom;
      var naluLen := |n|;
      var fuPackNum :=
        if naluLen % RTP_PAYLOAD_MAX_SIZE != 0 then naluLen / RTP_PAYLOAD_MAX_SIZE + 1
        else naluLen / RTP_PAYLOAD_MAX_SIZE;
      var lastFuPackSize :=
        if naluLen % RTP_PAYLOAD_MAX_SIZE != 0 then naluLen % RTP_PAYLOAD_MAX_SIZE else RTP_PAYLOAD_MAX_SIZE;
      PackArithmetic(|n|);
      ghost var ps := [];
      assert ps + PiecesFrom(n, 0) == Pieces(n);
      var fuSeq := 0;
      while fuSeq < fuPackNum
        invariant 0 <= fuSeq <= fuPackNum && Valid()
        invariant PiecesSent(m, before, ps, n, fuSeq, sent, (seqNum + 1) % 0x1_0000)
      {
        PiecesSentStep(m, before, ps, n, fuSeq, sent, (seqNum + 1) % 0x1_0000);
        ps := ps + [Piece(n, fuSeq)];
        if fuSeq == 0 {
          SendPiece(n, true, false, 1, RTP_PAYLOAD_MAX_SIZE - 1);
        } else if fuSeq < fuPackNum - 1 {
          SendPiece(n, false, false, RTP_PAYLOAD_MAX_SIZE * fuSeq, RTP_PAYLOAD_MAX_SIZE);
        } else {
          SendPiece(n, false, true, RTP_PAYLOAD_MAX_SIZE * fuSeq, lastFuPackSize);
        }
        fuSeq := fuSeq + 1;
      }
    }
  }
}
