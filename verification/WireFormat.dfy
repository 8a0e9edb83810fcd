/** Shape of what goes on the wire: fragments as section 5.8 of RFC 6184 wants them, aggregates
    within the buffer, and headers over a whole run. */
module WireFormat {
  import opened Bytes
  import opened Packets
  import opened Receivers

  // --- FU-A ---

  /** How many fragments carry the bytes from off on: as few as fit, at least one. */
  function FuCount(n: Nal, off: nat): nat
    requires off <= |n|
  {
    if off == |n| then 1 else (|n| - off + FU_CHUNK - 1) / FU_CHUNK
  }

  /** Where fragment k of those from off on ends. */
  function FuEnd(n: Nal, off: nat, k: nat): nat
    requires off <= |n|
  {
    if off + FU_CHUNK * (k + 1) < |n| then off + FU_CHUNK * (k + 1) else |n|
  }

  lemma {:induction false} FuCountStep(n: Nal, off: nat)
    requires off <= |n|
    ensures off + FuSize(n, off) == |n| ==> FuCount(n, off) == 1
    ensures off + FuSize(n, off) < |n| ==> FuCount(n, off) == 1 + FuCount(n, off + FuSize(n, off))
  {}

  /** Fragment k in closed form: its run of bytes, S on the first, E and the mark on the last. */
  function FragmentAt(n: Nal, off: nat, last: bool, k: nat): Payload
    requires 1 <= off <= off + FU_CHUNK * k < |n|
  {
    var isFirst, isLast := off == 1 && k == 0, k == FuCount(n, off) - 1;
    Payload([28 | (n[0] & 0x60), (n[0] & 0x1f) | (if isFirst then 0x80 else 0) | (if isLast then 0x40 else 0)]
            + n[off + FU_CHUNK * k..FuEnd(n, off, k)],
            last && isLast)
  }

  lemma {:induction false} FirstFragment(n: Nal, off: nat, last: bool)
    requires 1 <= off < |n|
    ensures Fragment(n, off, last) == FragmentAt(n, off, last, 0)
  {
    FuCountStep(n, off);
    FuCountPositive(n, off + FuSize(n, off));
    hide FuCount;
  }

  lemma {:induction false} LaterFragment(n: Nal, off: nat, last: bool, k: nat)
    requires 1 <= off && off + FU_CHUNK < |n| && FuCount(n, off) == 1 + FuCount(n, off + FU_CHUNK)
    requires off + FU_CHUNK + FU_CHUNK * k < |n|
    ensures FragmentAt(n, off + FU_CHUNK, last, k) == FragmentAt(n, off, last, k + 1)
  {
    hide FuCount;
    assert FuEnd(n, off + FU_CHUNK, k) == FuEnd(n, off, k + 1);
  }

  /** Every fragment in closed form: they split the bytes into runs of 1398, only the last one
      shorter; S is set on exactly the first, E on exactly the last; type and NRI are the NAL
      unit's throughout; the marker can only be on the last. */
  lemma {:induction false} FuShape(n: Nal, off: nat, last: bool, k: nat)
    requires 1 <= off < |n| && k < FuCount(n, off)
    ensures |FuFrom(n, off, last)| == FuCount(n, off)
    ensures off + FU_CHUNK * k < FuEnd(n, off, k)
    ensures FuEnd(n, off, k) == |n| <==> k == FuCount(n, off) - 1
    ensures FuFrom(n, off, last)[k] == FragmentAt(n, off, last, k)
    decreases |n| - off
  {
    hide FuCount, Fragment, FragmentAt;
    var mid := off + FuSize(n, off);
    FuCountStep(n, off);
    FirstFragment(n, off, last);
    if mid == |n| {
      assert FuFrom(n, off, last) == [Fragment(n, off, last)];
    } else {
      FuCountPositive(n, mid);
      FuShape(n, mid, last, if k == 0 then 0 else k - 1);
      assert FuFrom(n, off, last) == [Fragment(n, off, last)] + FuFrom(n, mid, last);
      if k > 0 {
        LaterFragment(n, off, last, k - 1);
      }
    }
  }

  lemma {:induction false} FuCountPositive(n: Nal, off: nat)
    requires off <= |n|
    ensures FuCount(n, off) >= 1
  {}

  /** A NAL unit over the limit always takes more than one fragment, so no fragment is both the
      first and the last. */
  lemma {:induction false} FuNeverAlone(n: Nal)
    requires |n| > RTP_PAYLOAD_MAX
    ensures FuCount(n, 1) >= 2
  {}

  /** Each fragment fits the payload limit, and all but the last fill it. */
  lemma {:induction false} FuFits(n: Nal, off: nat, last: bool, k: nat)
    requires 1 <= off < |n| && k < |FuFrom(n, off, last)|
    ensures |FuFrom(n, off, last)[k].bytes| <= RTP_PAYLOAD_MAX
    ensures k < |FuFrom(n, off, last)| - 1 ==> |FuFrom(n, off, last)[k].bytes| == RTP_PAYLOAD_MAX
  {
    hide FuFrom;
    FuCountPositive(n, off);
    FuShape(n, off, last, 0);
    FuShape(n, off, last, k);
  }

  // --- STAP-A ---

  lemma {:induction false} StapLength(hs: seq<Nal>, n: Nal)
    ensures |Stap(hs + [n])| == (if hs == [] then 1 else |Stap(hs)|) + 2 + |n|
  {
    StapBodySnoc(hs, n);
  }

  lemma {:induction false} StapNonEmpty(hs: seq<Nal>)
    requires hs != []
    ensures |Stap(hs)| >= 3
  {}

  /** Aggregating one more short NAL unit stays within the buffer exactly when the NAL unit
      is at most 1397 bytes long, whatever the buffer held before. */
  lemma {:induction false} AggregateFitsExactly(held: seq<Nal>, n: Nal)
    requires |Stap(held)| <= RTP_PAYLOAD_MAX && |n| <= RTP_PAYLOAD_MAX
    ensures |Stap(Aggregate(held, n))| <= RTP_PAYLOAD_MAX <==> Admissible(true, n)
  {
    hide Stap;
    StapLength(held, n);
    StapLength([], n);
    assert [] + [n] == [n];
    if held != [] {
      StapNonEmpty(held);
    }
  }

  /** A unit of 1398 bytes passes as short, and its aggregate is one byte longer than the buffer. */
  lemma {:induction false} OneByteOver(n: Nal)
    requires |n| == 1398
    ensures |n| <= RTP_PAYLOAD_MAX && |Stap(Aggregate([], n))| == RTP_PAYLOAD_MAX + 1
  {
    hide Stap;
    StapLength([], n);
    assert [] + [n] == [n];
  }

  // --- headers over a whole run ---

  lemma {:induction false} HeaderParts(seqNo: nat, timestamp: nat, ssrc: nat, p: Payload)
    ensures var pkt := Packet(seqNo, timestamp, ssrc, p);
      && |pkt| >= RTP_OFFSET && pkt[0] == 0x80 && pkt[1] == 96 | (if p.mark then 0x80 else 0)
      && Holds(pkt, 2, Be16(seqNo)) && Holds(pkt, 4, Be32(timestamp)) && Holds(pkt, 8, Be32(ssrc))
  {
    hide Be16, Be32;
    var a := [0x80, 96 | (if p.mark then 0x80 else 0)];
    var pkt := Packet(seqNo, timestamp, ssrc, p);
    assert pkt == a + Be16(seqNo) + Be32(timestamp) + Be32(ssrc) + p.bytes;
    assert pkt[2..4] == Be16(seqNo) && pkt[4..8] == Be32(timestamp) && pkt[8..12] == Be32(ssrc);
  }

  /** What rtp_parse reads back: everything but the marker, which it looks for in bit 8 of a
      byte and so always finds clear. */
  lemma {:induction false} HeaderReadBack(seqNo: nat, timestamp: nat, ssrc: nat, p: Payload)
    requires timestamp < 0x1_0000_0000 && ssrc < 0x1_0000_0000
    ensures var pkt := Packet(seqNo, timestamp, ssrc, p);
      && |pkt| >= RTP_OFFSET
      && DecodeHeader(pkt) == RtpHeader(2, false, false, 0, false, 96, seqNo % 0x1_0000, timestamp, ssrc)
      && (pkt[1] & 0x80 != 0 <==> p.mark)
  {
    hide Packet, Get16, Get32, Be16, Be32;
    var pkt := Packet(seqNo, timestamp, ssrc, p);
    HeaderParts(seqNo, timestamp, ssrc, p);
    Get16Be16(seqNo, pkt, 2);
    Get32Be32(timestamp, pkt, 4);
    Get32Be32(ssrc, pkt, 8);
    FirstBytes(pkt[0], pkt[1], p.mark);
  }

  lemma {:induction false} FirstBytes(a: Byte, b: Byte, mark: bool)
    requires a == 0x80 && b == 96 | (if mark then 0x80 else 0)
    ensures (a >> 6) as nat == 2 && a & (1 << 5) == 0 && a & (1 << 4) == 0 && (a & 0x0f) as nat == 0
    ensures (b as bv16) & (1 << 8) == 0 && (b & 0x7f) as nat == 96 && (b & 0x80 != 0 <==> mark)
  {}

  /** Any fixed header (RFC 3550, section 5.1), as its sender puts it together. */
  function AnyHeader(h: RtpHeader): seq<Byte>
    requires h.version < 4 && h.cc < 16 && h.pt < 128 && h.seqNo >= 0 && h.ts >= 0 && h.ssrc >= 0
  {
    [(ToByte(h.version) << 6) | (if h.padding then 0x20 else 0) | (if h.extension then 0x10 else 0) | ToByte(h.cc),
     (if h.marker then 0x80 else 0) | ToByte(h.pt)] + Be16(h.seqNo) + Be32(h.ts) + Be32(h.ssrc)
  }

  /** Whatever the header, rtp_parse reads it back, all but the marker. */
  lemma {:induction false} AnyHeaderReadBack(h: RtpHeader, rest: seq<Byte>)
    requires h.version < 4 && h.cc < 16 && h.pt < 128
    requires 0 <= h.seqNo < 0x1_0000 && 0 <= h.ts < 0x1_0000_0000 && 0 <= h.ssrc < 0x1_0000_0000
    ensures |AnyHeader(h) + rest| >= RTP_OFFSET
    ensures DecodeHeader(AnyHeader(h) + rest) == h.(marker := false)
  {
    hide Get16, Get32, Be16, Be32, ToByte;
    var pkt := AnyHeader(h) + rest;
    assert pkt[2..4] == Be16(h.seqNo) && pkt[4..8] == Be32(h.ts) && pkt[8..12] == Be32(h.ssrc);
    Get16Be16(h.seqNo, pkt, 2);
    Get32Be32(h.ts, pkt, 4);
    Get32Be32(h.ssrc, pkt, 8);
    SmallByte(ToByte(h.version), h.version, 2);
    SmallByte(ToByte(h.cc), h.cc, 4);
    SmallByte(ToByte(h.pt), h.pt, 7);
    HeaderBits(ToByte(h.version), h.padding, h.extension, ToByte(h.cc), h.marker, ToByte(h.pt));
  }

  lemma {:induction false} SmallByte(b: Byte, n: nat, bits: nat)
    requires Val(b) == n
    ensures bits == 2 && n < 4 ==> b < 4
    ensures bits == 4 && n < 16 ==> b < 16
    ensures bits == 7 && n < 128 ==> b < 128
  {}

  lemma {:induction false} HeaderBits(v: Byte, p: bool, x: bool, cc: Byte, m: bool, pt: Byte)
    requires v < 4 && cc < 16 && pt < 128
    ensures var a := (v << 6) | (if p then 0x20 else 0) | (if x then 0x10 else 0) | cc;
      && a >> 6 == v && (a & (1 << 5) != 0 <==> p) && (a & (1 << 4) != 0 <==> x) && a & 0x0f == cc
    ensures var b := (if m then 0x80 else 0) | pt; (b as bv16) & (1 << 8) == 0 && b & 0x7f == pt
  {}

  /** Of the payloads sent for one NAL unit, only the final one of the last NAL unit is marked. */
  lemma {:induction false} NalMarks(m: Mux, n: Nal, last: bool, j: nat)
    requires j < |NalPayloads(m, n, last)|
    ensures NalPayloads(m, n, last)[j].mark <==> last && j == |NalPayloads(m, n, last)| - 1
  {
    hide Stap, FuFrom;
    if |n| > RTP_PAYLOAD_MAX {
      var f := |Flush(m.held)|;
      FuCountPositive(n, 1);
      FuShape(n, 1, last, 0);
      if j >= f {
        FuShape(n, 1, last, j - f);
      }
    }
  }

  lemma {:induction false} LastSends(m: Mux, n: Nal)
    ensures NalPayloads(m, n, true) != []
  {
    hide Stap;
  }

  lemma {:induction false} RunSends(m: Mux, nals: seq<Nal>)
    requires nals != []
    ensures RunPackets(m, nals) != []
    decreases |nals|
  {
    hide NalPayloads, Stamp;
    if |nals| == 1 {
      LastSends(m, nals[0]);
    } else {
      RunSends(AfterNal(m, nals[0], false), nals[1..]);
    }
  }

  lemma {:induction false} ModShift(a: nat, b: nat, c: nat)
    ensures ((a + b) % 0x1_0000 + c) % 0x1_0000 == (a + b + c) % 0x1_0000
  {
    var q := (a + b) / 0x1_0000;
    assert a + b + c == 0x1_0000 * q + ((a + b) % 0x1_0000 + c);
  }

  /** The header of any packet of a run, by its place in the run: the sequence number counts on
      modulo 65536, and the marker byte is set on exactly the final packet. */
  lemma {:induction false} RunHeader(m: Mux, nals: seq<Nal>, k: nat)
    requires m.timestamp < 0x1_0000_0000 && m.ssrc < 0x1_0000_0000
    requires k < |RunPackets(m, nals)|
    ensures var pkt := RunPackets(m, nals)[k];
      && |pkt| >= RTP_OFFSET
      && DecodeHeader(pkt).seqNo == (m.seqNo + k) % 0x1_0000
      && DecodeHeader(pkt).ssrc == m.ssrc
      && (pkt[1] & 0x80 != 0 <==> k == |RunPackets(m, nals)| - 1)
    decreases |nals|
  {
    hide NalPayloads, DecodeHeader, Packet, NalHeld;
    var last, ps := |nals| == 1, NalPayloads(m, nals[0], |nals| == 1);
    var m' := AfterNal(m, nals[0], last);
    if !last {
      RunSends(m', nals[1..]);
    }
    if k < |ps| {
      HeaderReadBack(m.seqNo + k, m.timestamp, m.ssrc, ps[k]);
      NalMarks(m, nals[0], last, k);
    } else {
      RunHeader(m', nals[1..], k - |ps|);
      ModShift(m.seqNo, |ps|, k - |ps|);
    }
  }

  /** The packets of a run, NAL unit by NAL unit. */
  function RunGroups(m: Mux, nals: seq<Nal>): (groups: seq<seq<seq<Byte>>>)
    ensures |groups| == |nals|
    decreases |nals|
  {
    if nals == [] then []
    else
      var last := |nals| == 1;
      [NalPackets(m, nals[0], last)] + RunGroups(AfterNal(m, nals[0], last), nals[1..])
  }

  lemma {:induction false} RunGroupsAreRun(m: Mux, nals: seq<Nal>)
    ensures Flat(RunGroups(m, nals)) == RunPackets(m, nals)
    decreases |nals|
  {
    hide NalPackets, AfterNal;
    if nals == [] {
    } else {
      var last := |nals| == 1;
      RunGroupsAreRun(AfterNal(m, nals[0], last), nals[1..]);
      assert RunGroups(m, nals)[1..] == RunGroups(AfterNal(m, nals[0], last), nals[1..]);
    }
  }

  lemma {:induction false} NothingHeld(m: Mux, n: Nal, last: bool)
    requires !m.aggregation
    ensures NalHeld(m, n, last) == []
    ensures |n| <= RTP_PAYLOAD_MAX ==> NalPayloads(m, n, last) == [Payload(n, last)]
    ensures |n| > RTP_PAYLOAD_MAX && m.held == [] ==> NalPayloads(m, n, last) == FuFrom(n, 1, last)
  {
    if |n| > RTP_PAYLOAD_MAX {
      assert [] + FuFrom(n, 1, last) == FuFrom(n, 1, last);
    }
  }

  lemma {:induction false} PayloadBehind(seqNo: nat, timestamp: nat, ssrc: nat, p: Payload)
    ensures |Packet(seqNo, timestamp, ssrc, p)| >= 12 && Packet(seqNo, timestamp, ssrc, p)[12..] == p.bytes
  {
    hide Header;
  }

  /** Without aggregation a unit of at most 1400 bytes, of whatever type, is one packet with nothing but
      its bytes behind the header, and a longer one as many as its fragments, in the shape above. */
  lemma {:induction false} GroupPayloads(m: Mux, nals: seq<Nal>, i: nat, k: nat)
    requires !m.aggregation && m.held == [] && i < |nals|
    ensures var group := RunGroups(m, nals)[i];
      && (|nals[i]| <= 1400 ==> |group| == 1 && |group[0]| >= 12 && group[0][12..] == nals[i])
      && (|nals[i]| > 1400 ==> |group| == FuCount(nals[i], 1))
      && (|nals[i]| > 1400 && k < |group| ==>
            1 + FU_CHUNK * k < |nals[i]| && |group[k]| >= 12
            && group[k][12..] == FragmentAt(nals[i], 1, i == |nals| - 1, k).bytes)
    decreases |nals|
  {
    hide NalPayloads, Packet, NalHeld, FuFrom, FuCount;
    var n, last := nals[0], |nals| == 1;
    NothingHeld(m, n, last);
    if i > 0 {
      GroupPayloads(AfterNal(m, n, last), nals[1..], i - 1, k);
    } else if |n| <= RTP_PAYLOAD_MAX {
      PayloadBehind(m.seqNo, m.timestamp, m.ssrc, Payload(n, last));
    } else {
      FuCountPositive(n, 1);
      FuShape(n, 1, last, 0);
      if k < FuCount(n, 1) {
        FuShape(n, 1, last, k);
        PayloadBehind(m.seqNo + k, m.timestamp, m.ssrc, FuFrom(n, 1, last)[k]);
      }
    }
  }

  /** All packets sent for NAL unit i, fragments included, carry one timestamp, i frames after
      the first. */
  lemma {:induction false} GroupTimestamp(m: Mux, nals: seq<Nal>, i: nat, j: nat)
    requires m.timestamp < 0x1_0000_0000 && m.ssrc < 0x1_0000_0000
    requires i < |nals| && j < |RunGroups(m, nals)[i]|
    ensures var pkt := RunGroups(m, nals)[i][j];
      |pkt| >= RTP_OFFSET && DecodeHeader(pkt).ts == (m.timestamp + 3600 * i) % 0x1_0000_0000
    decreases |nals|
  {
    hide NalPayloads, DecodeHeader, Packet, NalHeld;
    var last, ps := |nals| == 1, NalPayloads(m, nals[0], |nals| == 1);
    if i == 0 {
      HeaderReadBack(m.seqNo + j, m.timestamp, m.ssrc, ps[j]);
    } else {
      GroupTimestamp(AfterNal(m, nals[0], last), nals[1..], i - 1, j);
      TickShift(m.timestamp, i);
    }
  }

  lemma {:induction false} TickShift(t: nat, i: nat)
    requires i >= 1
    ensures ((t + TICKS_PER_FRAME) % 0x1_0000_0000 + TICKS_PER_FRAME * (i - 1)) % 0x1_0000_0000
         == (t + TICKS_PER_FRAME * i) % 0x1_0000_0000
  {
    var s, rest := t + TICKS_PER_FRAME, TICKS_PER_FRAME * (i - 1);
    SameResidue(s + rest, s % 0x1_0000_0000 + rest, s / 0x1_0000_0000);
  }

  lemma {:induction false} SameResidue(x: nat, y: nat, q: nat)
    requires x == 0x1_0000_0000 * q + y
    ensures x % 0x1_0000_0000 == y % 0x1_0000_0000
  {}
}
