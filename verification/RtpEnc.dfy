/** The sender of RTPEnc.c, in its own imperative form, proved against the functions of
    Packets. Sending a datagram is appending it to a trace. */
module RtpEnc {
  import opened Bytes
  import opened AnnexB
  import opened Packets

  class RtpMuxContext {
    const cache: array<Byte>
    const buf: array<Byte>
    var bufPtr: nat
    var aggregation: bool
    var ssrc: nat
    var seqNo: nat
    var timestamp: nat

    /** The datagrams sent so far. */
    var sent: seq<seq<Byte>>

    /** The NAL units in the aggregation buffer. */
    ghost var held: seq<Nal>

    ghost predicate Valid()
      reads this, buf
    {
      && cache.Length == RTP_PAYLOAD_MAX + 12 && buf.Length == RTP_PAYLOAD_MAX && cache != buf
      && ssrc < 0x1_0000_0000 && seqNo < 0x1_0000 && timestamp < 0x1_0000_0000
      && Aggregated(buf[..], bufPtr, held)
    }

    ghost function View(): Mux
      reads this
    {
      Mux(aggregation, held, seqNo, timestamp, ssrc)
    }

    /** initRTPMuxContext, on a context whose buffers hold arbitrary bytes. */
    constructor ()
      ensures Valid() && fresh(cache) && fresh(buf)
      ensures View() == Mux(true, [], 0, 0, 0x12345678) && sent == []
    {
      cache, buf := new Byte[RTP_PAYLOAD_MAX + 12], new Byte[RTP_PAYLOAD_MAX];
      seqNo, timestamp, ssrc := 0, 0, 0x12345678;
      aggregation := true;
      bufPtr := 0;
      held, sent := [], [];
    }

    /** rtpSendData: one datagram, after which the aggregation buffer counts as empty. */
    method SendData(data: seq<Byte>, mark: bool)
      requires Valid() && |data| <= RTP_PAYLOAD_MAX
      modifies this`bufPtr, this`seqNo, this`held, this`sent, cache
      ensures Valid() && bufPtr == 0 && held == []
      ensures sent == old(sent) + Stamp(old(seqNo), timestamp, ssrc, [Payload(data, mark)])
      ensures seqNo == (old(seqNo) + 1) % 0x1_0000
      ensures forall i :: 0 <= i < RTP_PAYLOAD_MAX + 10 ==> cache[i] == 0
    {
      hide Be16, Be32, Stamp, Stap, StapHeader, StapBody;
      cache[0] := 2 << 6;
      cache[1] := (96 & 0x7f) | (if mark then 1 << 7 else 0);
      assert cache[..2] == [0x80, 96 | (if mark then 0x80 else 0)];
      var pos := Load16(cache, 2, seqNo);
      pos := Load32(cache, 4, timestamp);
      pos := Load32(cache, 8, ssrc);
      assert cache[..12] == Header(seqNo, timestamp, ssrc, mark);
      CopyInto(cache, 12, data);
      ghost var packet := Packet(seqNo, timestamp, ssrc, Payload(data, mark));
      assert cache[..|data| + 12] == packet;
      sent := sent + [cache[..|data| + 12]];
      forall i | 0 <= i < RTP_PAYLOAD_MAX + 10 {
        cache[i] := 0;
      }
      bufPtr, held := 0, [];
      seqNo := (seqNo + 1) % 0x1_0000;
      StampOne(old(seqNo), timestamp, ssrc, Payload(data, mark));
    }

    /** The aggregating branch of rtpSendNAL; first is the byte the nal pointer points to. */
    method SendAggregated(nal: Nal, first: Byte, last: bool)
      requires Valid() && aggregation
      requires first == (if nal == [] then 0 else nal[0])
      requires |nal| <= RTP_PAYLOAD_MAX && Admissible(true, nal)
      modifies this`bufPtr, this`seqNo, this`held, this`sent, cache, buf
      ensures Valid()
      ensures SentBy(old(View()), old(sent), NalPayloads(old(View()), nal, last), sent, seqNo)
      ensures held == NalHeld(old(View()), nal, last)
    {
      hide Stap, StapHeader, StapBody;
      ghost var m, before := View(), sent;
      ghost var flushed := if Full(held, nal) then Flush(held) else [];
      var bufferedSize := bufPtr;
      SentNothing(m, before);
      AggregatedIsStap(buf[..], bufPtr, held);
      if bufferedSize + 2 + |nal| > RTP_PAYLOAD_MAX {
        SendBuffer(m, before, [], false);
        bufferedSize := 0;
        assert [] + Flush(m.held) == flushed;
      }
      assert SentBy(m, before, flushed, sent, seqNo);
      Append(nal, first, bufferedSize);
      if last {
        SendBuffer(m, before, flushed, true);
      } else {
        assert flushed + [] == flushed;
      }
    }

    /** Put one more NAL unit into the aggregation buffer. */
    method Append(nal: Nal, first: Byte, bufferedSize: nat)
      requires Valid() && bufferedSize == bufPtr
      requires first == (if nal == [] then 0 else nal[0])
      requires 1 + 2 + |nal| <= RTP_PAYLOAD_MAX && bufPtr + 2 + |nal| <= RTP_PAYLOAD_MAX
      modifies this`bufPtr, this`held, buf
      ensures Valid() && held == old(held) + [nal]
    {
      PutHeader(nal, first, bufferedSize);
      PutUnit(nal);
      StapBodySnoc(held, nal);
      held := held + [nal];
    }

    /** Send what the aggregation buffer holds, after the payloads already sent since state m. */
    method SendBuffer(ghost m: Mux, ghost before: seq<seq<Byte>>, ghost ps: seq<Payload>, mark: bool)
      requires Valid() && m.timestamp == timestamp && m.ssrc == ssrc
      requires SentBy(m, before, ps, sent, seqNo)
      modifies this`bufPtr, this`seqNo, this`held, this`sent, cache
      ensures Valid() && bufPtr == 0 && held == []
      ensures SentBy(m, before, ps + [Payload(Stap(old(held)), mark)], sent, seqNo)
    {
      SentMore(m, before, ps, sent, seqNo, [Payload(Stap(held), mark)]);
      AggregatedIsStap(buf[..], bufPtr, held);
      SendData(buf[..bufPtr], mark);
    }

    /** Write or update the header of the aggregate that is to hold one more NAL unit. */
    method PutHeader(ghost nal: Nal, first: Byte, bufferedSize: nat)
      requires buf.Length == RTP_PAYLOAD_MAX && bufPtr < RTP_PAYLOAD_MAX && bufferedSize == bufPtr
      requires Aggregated(buf[..], bufPtr, held)
      requires first == (if nal == [] then 0 else nal[0])
      modifies this`bufPtr, buf
      ensures bufPtr == (if old(bufPtr) == 0 then 1 else old(bufPtr))
      ensures buf[0] == StapHeader(held + [nal]) && buf[1..bufPtr] == StapBody(held)
    {
      hide StapHeader;
      var curNri := first & 0x60;
      StapHeaderSnoc(held, nal);
      if bufferedSize == 0 {
        buf[bufPtr] := 24 | curNri;
        bufPtr := bufPtr + 1;
        assert held + [nal] == [nal];
      } else {
        var lastNri := buf[0] & 0x60;
        if curNri > lastNri {
          buf[0] := (buf[0] & 0x9F) | curNri;
        }
      }
      buf[0] := buf[0] | (first & 0x80);
    }

    /** Append the size field and the bytes of a NAL unit. */
    method PutUnit(nal: Nal)
      requires buf.Length == RTP_PAYLOAD_MAX && 1 <= bufPtr && bufPtr + 2 + |nal| <= RTP_PAYLOAD_MAX
      modifies this`bufPtr, buf
      ensures bufPtr == old(bufPtr) + 2 + |nal|
      ensures buf[0] == old(buf[0]) && buf[1..bufPtr] == old(buf[1..bufPtr]) + Be16(|nal|) + nal
    {
      bufPtr := Load16(buf, bufPtr, |nal|);
      CopyInto(buf, bufPtr, nal);
      bufPtr := bufPtr + |nal|;
      DropHead(old(buf[..bufPtr]), Be16(|nal|) + nal, buf[..bufPtr]);
    }

    /** The fragmenting branch of rtpSendNAL: FU-A packets built in the aggregation buffer. */
    method SendFragmented(nal: Nal, last: bool)
      requires Valid() && |nal| > RTP_PAYLOAD_MAX
      modifies this`bufPtr, this`seqNo, this`held, this`sent, cache, buf
      ensures Valid() && held == []
      ensures SentBy(old(View()), old(sent), Flush(old(held)) + FuFrom(nal, 1, last), sent, seqNo)
    {
      hide Stap, StapHeader, StapBody, SentBy, FuIndicator, FuHeader, FuFrom, FuSent;
      ghost var m, before := View(), sent;
      if bufPtr > 0 {
        SentNothing(m, before);
        SendBuffer(m, before, [], false);
      }
      FuSentStart(m, before, nal, last, sent, seqNo);
      buf[0] := 28;
      buf[0] := buf[0] | (nal[0] & 0x60);
      buf[1] := nal[0] & 0x1F;
      buf[1] := buf[1] | (1 << 7);
      FuHeaderBits(nal);
      SendFragments(m, before, Flush(m.held), nal, last);
    }

    /** The loop of that branch, once the two header bytes of the first fragment are in place. */
    method SendFragments(ghost m: Mux, ghost before: seq<seq<Byte>>, ghost flushed: seq<Payload>, nal: Nal, last: bool)
      requires Valid() && |nal| > RTP_PAYLOAD_MAX && bufPtr == 0 && held == []
      requires m.timestamp == timestamp && m.ssrc == ssrc
      requires buf[0] == FuIndicator(nal) && buf[1] == FuHeader(nal, true, false)
      requires FuSent(m, before, flushed, nal, 1, last, sent, seqNo)
      modifies this`bufPtr, this`seqNo, this`held, this`sent, cache, buf
      ensures Valid() && held == []
      ensures SentBy(m, before, Flush(m.held) + FuFrom(nal, 1, last), sent, seqNo)
    {
      hide Stap, StapHeader, StapBody, SentBy, FuIndicator, FuHeader, Fragment, FuFrom, FuSent;
      ghost var ps := flushed;
      FuHeaderBits(nal);
      var headerSize := 2;
      var size, off := |nal| - 1, 1;
      while size + headerSize > RTP_PAYLOAD_MAX
        invariant Valid() && bufPtr == 0 && held == []
        invariant 1 <= off && off + size == |nal| && size > 0
        invariant buf[0] == FuIndicator(nal) && buf[1] == FuHeader(nal, off == 1, false)
        invariant FuSent(m, before, ps, nal, off, last, sent, seqNo)
      {
        FuSentStep(m, before, ps, nal, off, last, sent, seqNo);
        SendFragment(nal, off, RTP_PAYLOAD_MAX - headerSize, last, false);
        ps := ps + [Fragment(nal, off, last)];
        off := off + (RTP_PAYLOAD_MAX - headerSize);
        size := size - (RTP_PAYLOAD_MAX - headerSize);
        buf[1] := buf[1] & 0x7f;
      }
      buf[1] := buf[1] | 0x40;
      FuSentStep(m, before, ps, nal, off, last, sent, seqNo);
      SendFragment(nal, off, size, last, last);
    }

    /** Copy the bytes of one fragment behind the two header bytes and send it. */
    method SendFragment(nal: Nal, off: nat, size: nat, ghost last: bool, mark: bool)
      requires Valid() && bufPtr == 0 && held == []
      requires 1 <= off <= |nal| && size == FuSize(nal, off)
      requires buf[0] == FuIndicator(nal) && buf[1] == FuHeader(nal, off == 1, off + size == |nal|)
      requires mark == (off + size == |nal| && last)
      modifies this`bufPtr, this`seqNo, this`held, this`sent, cache, buf
      ensures Valid() && bufPtr == 0 && held == []
      ensures buf[0] == old(buf[0]) && buf[1] == old(buf[1])
      ensures sent == old(sent) + Stamp(old(seqNo), timestamp, ssrc, [Fragment(nal, off, last)])
      ensures seqNo == (old(seqNo) + 1) % 0x1_0000
    {
      hide Stap, StapHeader, StapBody, FuIndicator, FuHeader, Stamp;
      assert buf[..2] == [FuIndicator(nal), FuHeader(nal, off == 1, off + size == |nal|)];
      CopyInto(buf, 2, nal[off..off + size]);
      assert buf[..2 + size][0] == buf[0] && buf[..2 + size][1] == buf[1];
      assert Payload(buf[..2 + size], mark) == Fragment(nal, off, last);
      SendData(buf[..2 + size], mark);
    }

    /** rtpSendNAL on the size bytes of stream from nal on. An empty NAL unit only ever stands
        right before another start code, so the byte read there is zero. */
    method SendNal(stream: seq<Byte>, nal: nat, size: nat, last: bool)
      requires Valid() && nal + size <= |stream| && nal < |stream|
      requires size == 0 ==> stream[nal] == 0
      requires Admissible(aggregation, stream[nal..nal + size])
      modifies this`bufPtr, this`seqNo, this`held, this`sent, cache, buf
      ensures Valid()
      ensures sent == old(sent) + NalPackets(old(View()), stream[nal..nal + size], last)
      ensures View().(timestamp := AfterNal(old(View()), stream[nal..nal + size], last).timestamp)
           == AfterNal(old(View()), stream[nal..nal + size], last)
    {
      hide Stap, StapHeader, StapBody, FuFrom, Stamp, Full;
      var n := stream[nal..nal + size];
      if size <= RTP_PAYLOAD_MAX {
        if aggregation {
          SendAggregated(n, stream[nal], last);
        } else {
          SendData(n, last);
        }
      } else {
        SendFragmented(n, last);
      }
    }

    /** rtpSendH264HEVC: find the NAL units of the stream one after the other and send each. */
    method SendStream(stream: seq<Byte>, base: nat)
      requires Valid() && forall n :: n in Split(stream) ==> Admissible(aggregation, n)
      modifies this`bufPtr, this`seqNo, this`held, this`sent, this`timestamp, cache, buf
      ensures Valid()
      ensures sent == old(sent) + RunPackets(old(View()), Split(stream))
      ensures View() == AfterRun(old(View()), Split(stream))
    {
      hide Stap, StapHeader, StapBody, NalPackets, RunSent, AfterNal, AfterRun, RunPackets, NextCode, SplitFrom;
      ghost var m0, nals := View(), Split(stream);
      RunStart(m0, nals, sent);
      var end := |stream|;
      var r := end;
      if |stream| > 0 {
        r := FindStartCode(stream, 0, base);
      }
      SplitStart(stream);
      while r < end
        invariant Valid() && aggregation == m0.aggregation
        invariant r == end || CodeStart(stream, r)
        invariant r <= end && nals == SplitFrom(stream, r)
        invariant forall n :: n in nals ==> Admissible(aggregation, n)
        invariant RunSent(m0, Split(stream), old(sent), View(), nals, sent)
        decreases end - r
      {
        SplitStep(stream, r);
        RunStep(m0, Split(stream), old(sent), View(), nals, sent);
        r := SendNext(stream, r, base);
        nals := nals[1..];
      }
      SplitEnd(stream);
      RunEnd(m0, Split(stream), old(sent), View(), sent);
    }

    /** One pass of that loop: skip the start code at r, find the next one, send what is between. */
    method SendNext(stream: seq<Byte>, r: nat, base: nat) returns (r1: nat)
      requires Valid() && CodeStart(stream, r)
      requires Admissible(aggregation, FirstNal(stream, r))
      modifies this`bufPtr, this`seqNo, this`held, this`sent, this`timestamp, cache, buf
      ensures Valid()
      ensures r < r1 <= |stream| && r1 == NextCode(stream, r + CodeLen(stream, r))
      ensures sent == old(sent) + NalPackets(old(View()), FirstNal(stream, r), r1 == |stream|)
      ensures View() == AfterNal(old(View()), FirstNal(stream, r), r1 == |stream|)
    {
      hide Stap, StapHeader, StapBody, NalPackets, NextCode, NalPayloads, NalHeld;
      var p := r;
      while stream[p] == 0
        invariant r <= p < r + CodeLen(stream, r) < |stream|
        decreases r + CodeLen(stream, r) - p
      {
        p := p + 1;
      }
      p := p + 1;
      r1 := FindStartCode(stream, p, base);
      if r1 < |stream| {
        NextCodeReadsZero(stream, p);
      }
      SendNal(stream, p, r1 - p, r1 == |stream|);
      timestamp := (timestamp + TICKS_PER_FRAME) % 0x1_0000_0000;
    }
  }

  lemma {:induction false} DropHead(a: seq<Byte>, b: seq<Byte>, c: seq<Byte>)
    requires a != [] && c == a + b
    ensures c[0] == a[0] && c[1..] == a[1..] + b
  {}
}
