/** The three receivers: HandleRtpMsg of RtspPlayer.cpp, decode_rtp2h264 of Client.c and
    rtp_parse of rtp.c. What each writes for a packet is a function of the packet; the class
    methods append exactly that to their output. */
module Receivers {
  import opened Bytes

  const RTP_OFFSET: nat := 12
  const FU_OFFSET: nat := 14

  const START_CODE: seq<Byte> := [0, 0, 0, 1]

  /** A byte of a receive buffer that was cleared before the packet was read into it. */
  function At(s: seq<Byte>, i: nat): Byte {
    if i < |s| then s[i] else 0
  }

  function Rest(s: seq<Byte>, i: nat): seq<Byte> {
    if i <= |s| then s[i..] else []
  }

  // --- RtspPlayer.cpp ---

  function RebuiltHeader(indicator: Byte, fuHeader: Byte): Byte {
    ((indicator >> 7) << 7) | (((indicator >> 5) & 3) << 5) | (fuHeader & 0x1f)
  }

  function PlayerWrites(pkt: seq<Byte>): seq<Byte> {
    var nalu := At(pkt, RTP_OFFSET);
    if nalu & 0x1f < 24 then START_CODE + Rest(pkt, RTP_OFFSET)
    else if nalu & 0x1f == 28 then
      var fu := At(pkt, RTP_OFFSET + 1);
      if fu >> 7 == 1 then START_CODE + [RebuiltHeader(nalu, fu)] + Rest(pkt, FU_OFFSET)
      else Rest(pkt, FU_OFFSET)
    else []
  }

  /** The lengths the handler subtracts offsets from without looking. */
  predicate Receivable(pkt: seq<Byte>) {
    |pkt| >= RTP_OFFSET && (At(pkt, RTP_OFFSET) & 0x1f == 28 ==> |pkt| >= FU_OFFSET)
  }

  class RtspPlayer {
    var file: seq<Byte>

    constructor ()
      ensures file == []
    {
      file := [];
    }

    method HandleRtpMsg(pkt: seq<Byte>)
      requires Receivable(pkt)
      modifies this
      ensures file == old(file) + PlayerWrites(pkt)
    {
      var nalu := At(pkt, RTP_OFFSET);
      var naluType := nalu & 0x1f;
      if naluType < 24 {
        file := file + START_CODE;
        file := file + pkt[RTP_OFFSET..];
      } else if naluType == 28 {
        var fu := At(pkt, RTP_OFFSET + 1);
        var s, e := fu >> 7, (fu >> 6) & 0x01;
        if s == 1 {
          var header := ((nalu >> 7) << 7) | (((nalu >> 5) & 3) << 5) | (fu & 0x1f);
          file := file + START_CODE;
          file := file + [header];
          file := file + pkt[FU_OFFSET..];
        } else if e == 1 {
          file := file + pkt[FU_OFFSET..];
        } else {
          file := file + pkt[FU_OFFSET..];
        }
      }
    }
  }

  // --- Client.c ---

  function ClientWrites(pkt: seq<Byte>): seq<Byte> {
    var nalu := At(pkt, RTP_OFFSET);
    if nalu & 0x1f == 28 then
      var fu := At(pkt, RTP_OFFSET + 1);
      if (fu >> 6) & 1 == 1 then Rest(pkt, FU_OFFSET)
      else if fu >> 7 == 1 then START_CODE + [RebuiltHeader(nalu, fu)] + Rest(pkt, FU_OFFSET)
      else Rest(pkt, FU_OFFSET)
    else START_CODE + [RebuiltHeader(nalu, nalu)] + Rest(pkt, RTP_OFFSET + 1)
  }

  lemma {:induction false} HeaderEitherWay(nalu: Byte, fu: Byte)
    ensures (fu & 0x1f) | (((nalu >> 5) & 3) << 5) | ((nalu >> 7) << 7) == RebuiltHeader(nalu, fu)
  {}

  class UdpClient {
    var savefp: seq<Byte>
    var rtpnum: int
    var naluLen: int

    constructor ()
      ensures savefp == [] && rtpnum == 0 && naluLen == 0
    {
      savefp, rtpnum, naluLen := [], 0, 0;
    }

    method DecodeRtp2H264(pkt: seq<Byte>)
      requires |pkt| > RTP_OFFSET && Receivable(pkt)
      modifies this
      ensures savefp == old(savefp) + ClientWrites(pkt)
      ensures var fu := pkt[RTP_OFFSET] & 0x1f == 28; var end := fu && (pkt[RTP_OFFSET + 1] >> 6) & 1 == 1;
        && rtpnum == old(rtpnum) + (if !fu || end then 1 else 0)
        && naluLen == if !fu then old(naluLen) else if end then 0 else old(naluLen) + |pkt| - FU_OFFSET
    {
      hide RebuiltHeader;
      var nalu := pkt[RTP_OFFSET];
      if nalu & 0x1f == 28 {
        var fu := pkt[RTP_OFFSET + 1];
        naluLen := naluLen + |pkt| - FU_OFFSET;
        if (fu >> 6) & 1 == 1 {
          savefp := savefp + pkt[FU_OFFSET..];
          rtpnum := rtpnum + 1;
          naluLen := 0;
        } else if fu >> 7 == 1 {
          PutStart(nalu, fu);
          Assoc(old(savefp), START_CODE + [RebuiltHeader(nalu, fu)], pkt[FU_OFFSET..]);
          savefp := savefp + pkt[FU_OFFSET..];
        } else {
          savefp := savefp + pkt[FU_OFFSET..];
        }
      } else {
        rtpnum := rtpnum + 1;
        PutStart(nalu, nalu);
        Assoc(old(savefp), START_CODE + [RebuiltHeader(nalu, nalu)], pkt[RTP_OFFSET + 1..]);
        savefp := savefp + pkt[RTP_OFFSET + 1..];
      }
    }

    /** The start code and the NAL header, byte by byte. */
    method PutStart(nalu: Byte, typeByte: Byte)
      modifies this`savefp
      ensures savefp == old(savefp) + (START_CODE + [RebuiltHeader(nalu, typeByte)])
    {
      savefp := savefp + [0];
      savefp := savefp + [0];
      savefp := savefp + [0];
      savefp := savefp + [1];
      var header := (typeByte & 0x1f) | (((nalu >> 5) & 3) << 5) | ((nalu >> 7) << 7);
      HeaderEitherWay(nalu, typeByte);
      savefp := savefp + [header];
    }
  }

  // --- rtp.c ---

  /** The fields of the fixed header as rtp_parse reads them. */
  datatype RtpHeader = RtpHeader(version: nat, padding: bool, extension: bool, cc: nat, marker: bool, pt: nat,
                                 seqNo: int, ts: int, ssrc: int)

  function DecodeHeader(raw: seq<Byte>): RtpHeader
    requires |raw| >= RTP_OFFSET
  {
    RtpHeader(
      (raw[0] >> 6) as nat, raw[0] & (1 << 5) != 0, raw[0] & (1 << 4) != 0, (raw[0] & 0x0f) as nat,
      (raw[1] as bv16) & (1 << 8) != 0, (raw[1] & 0x7f) as nat,
      Get16(raw, 2), Get32(raw, 4), Get32(raw, 8))
  }

  /** One write to the pipe. */
  datatype Event = StartCode | SizeByte(low: Byte) | Data(bytes: seq<Byte>)

  /** The payload buffer is cleared first, so reads past the packet see zeros. */
  function Padded(s: seq<Byte>, i: nat, n: nat): (t: seq<Byte>)
    ensures |t| == n
  {
    seq(n, k requires 0 <= k => At(s, i + k))
  }

  /** The STAP-A walk from index nidx of the bytes behind the aggregation header. */
  function Walk(payload: seq<Byte>, nidx: nat): seq<Event>
    decreases |payload| - nidx
  {
    if nidx >= |payload| - 1 then []
    else
      var size := Get16(Padded(payload, nidx + 1, 2), 0);
      if size <= 0 then [StartCode, SizeByte(At(payload, nidx + 2))] + Walk(payload, nidx + 3)
      else
        [StartCode, SizeByte(At(payload, nidx + 2)), Data(Padded(payload, nidx + 3, size))]
        + Walk(payload, nidx + 2 + size)
  }

  function ParseWrites(raw: seq<Byte>): seq<Event> {
    var payload := Rest(raw, RTP_OFFSET);
    var nalType := At(payload, 0) & 0x1f;
    if 1 <= nalType <= 23 then [StartCode, Data(Padded(payload, 0, 4))]
    else if nalType == 24 then Walk(payload, 0)
    else if nalType == 28 then
      var nri, fu := (At(payload, 0) & 0x60) >> 5, At(payload, 1);
      (if fu & 0x80 != 0 then [StartCode, Data([(nri << 5) | (fu & 0x1f)])] else []) + [Data(Rest(payload, 2))]
    else []
  }

  class RtpParser {
    /** What went down the pipe, and the last source identifier seen. */
    var pipe: seq<Event>
    var identifier: int

    constructor ()
      ensures pipe == [] && identifier == 0
    {
      pipe, identifier := [], 0;
    }

    /** rtp_parse. A datagram is at most 65535 bytes long, so every read stays inside the
        655360-byte payload buffer. The single NAL unit branch writes sizeof(paysize) bytes. */
    method RtpParse(raw: seq<Byte>) returns (rawOffset: nat)
      requires RTP_OFFSET <= |raw| <= 65535 && Receivable(raw)
      modifies this
      ensures pipe == old(pipe) + ParseWrites(raw)
      ensures identifier == DecodeHeader(raw).ssrc
      ensures var t := At(raw, RTP_OFFSET) & 0x1f;
        rawOffset == |raw| + (if t <= 24 || t == 28 then 0 else 1)
    {
      var header := DecodeHeader(raw);
      identifier := header.ssrc;
      rawOffset := RTP_OFFSET;
      var paysize := |raw| - rawOffset;
      var payload := raw[rawOffset..];
      var nalNri, nalType := (At(payload, 0) & 0x60) >> 5, At(payload, 0) & 0x1f;
      if 1 <= nalType <= 23 {
        pipe := pipe + [StartCode];
        pipe := pipe + [Data(Padded(payload, 0, 4))];
      } else if nalType == 24 {
        WalkStapA(payload);
      } else if nalType == 28 {
        var fu := At(payload, 1);
        var key := (((At(payload, 0) & 0x60) >> 5) << 5) | (fu & 0x1f);
        if fu & 0x80 != 0 {
          pipe := pipe + [StartCode];
          pipe := pipe + [Data([key])];
        }
        pipe := pipe + [Data(payload[2..])];
      } else if nalType == 0 {
      } else {
        rawOffset := rawOffset + 1;
      }
      rawOffset := rawOffset + paysize;
    }

    method WalkStapA(payload: seq<Byte>)
      requires payload != []
      modifies this`pipe
      ensures pipe == old(pipe) + Walk(payload, 0)
    {
      hide Walk, Walked, Padded;
      var nidx := 0;
      WalkStart(pipe, payload);
      while nidx < |payload| - 1
        invariant 0 <= nidx && Walked(old(pipe), payload, nidx, pipe)
        decreases |payload| - nidx
      {
        WalkStep(old(pipe), payload, nidx, pipe);
        ghost var start := pipe;
        pipe := pipe + [StartCode];
        var size := Get16(Padded(payload, nidx + 1, 2), 0);
        pipe := pipe + [SizeByte(At(payload, nidx + 2))];
        Assoc(start, [StartCode], [SizeByte(At(payload, nidx + 2))]);
        nidx := nidx + 2;
        if size == 0 {
          nidx := nidx + 1;
          continue;
        }
        pipe := pipe + [Data(Padded(payload, nidx + 1, size))];
        nidx := nidx + size;
      }
      WalkDone(old(pipe), payload, nidx, pipe);
    }
  }

  /** The writes so far, with those the walk still makes from nidx on, are all of its writes. */
  ghost predicate Walked(before: seq<Event>, payload: seq<Byte>, nidx: nat, pipe: seq<Event>) {
    pipe + Walk(payload, nidx) == before + Walk(payload, 0)
  }

  lemma {:induction false} WalkStart(before: seq<Event>, payload: seq<Byte>)
    ensures Walked(before, payload, 0, before)
  {}

  lemma {:induction false} WalkDone(before: seq<Event>, payload: seq<Byte>, nidx: nat, pipe: seq<Event>)
    requires Walked(before, payload, nidx, pipe) && nidx >= |payload| - 1
    ensures pipe == before + Walk(payload, 0)
  {
    assert pipe + [] == pipe;
  }

  lemma {:induction false} WalkUnfold(payload: seq<Byte>, nidx: nat)
    requires nidx < |payload| - 1
    ensures var size := Get16(Padded(payload, nidx + 1, 2), 0);
      var head := [StartCode] + [SizeByte(At(payload, nidx + 2))];
      Walk(payload, nidx) == if size <= 0 then head + Walk(payload, nidx + 3)
        else head + [Data(Padded(payload, nidx + 3, size))] + Walk(payload, nidx + 2 + size)
  {
    hide Padded;
  }

  lemma {:induction false} WalkStep(before: seq<Event>, payload: seq<Byte>, nidx: nat, pipe: seq<Event>)
    requires Walked(before, payload, nidx, pipe) && nidx < |payload| - 1
    ensures |Padded(payload, nidx + 1, 2)| == 2
    ensures var size := Get16(Padded(payload, nidx + 1, 2), 0);
      var head := [StartCode] + [SizeByte(At(payload, nidx + 2))];
      && size >= 0
      && if size == 0 then Walked(before, payload, nidx + 3, pipe + head)
         else Walked(before, payload, nidx + 2 + size, pipe + head + [Data(Padded(payload, nidx + 3, size))])
  {
    hide Padded, Walk;
    var size := Get16(Padded(payload, nidx + 1, 2), 0);
    var head := [StartCode] + [SizeByte(At(payload, nidx + 2))];
    WalkUnfold(payload, nidx);
    Get16Range(Padded(payload, nidx + 1, 2), 0);
    if size == 0 {
      Assoc(pipe, head, Walk(payload, nidx + 3));
    } else {
      var unit := [Data(Padded(payload, nidx + 3, size))];
      Assoc(head, unit, Walk(payload, nidx + 2 + size));
      Assoc(pipe, head, unit + Walk(payload, nidx + 2 + size));
      Assoc(pipe + head, unit, Walk(payload, nidx + 2 + size));
    }
  }
}
