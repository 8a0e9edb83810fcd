/** What the sender of RTPEnc.c puts on the wire, as functions of the NAL units it is given:
    RTP headers (RFC 3550, section 5.1), single NAL unit packets, STAP-A aggregates and
    FU-A fragments (RFC 6184, sections 5.6, 5.7.1 and 5.8). */
module Packets {
  import opened Bytes

  type Nal = seq<Byte>

  const RTP_PAYLOAD_MAX: nat := 1400
  const TICKS_PER_FRAME: nat := 3600

  /** A payload with its marker bit, before the RTP header is put in front. */
  datatype Payload = Payload(bytes: seq<Byte>, mark: bool)

  function Header(seqNo: nat, timestamp: nat, ssrc: nat, mark: bool): (h: seq<Byte>)
    ensures |h| == 12
  {
    [0x80, 96 | (if mark then 0x80 else 0)] + Be16(seqNo) + Be32(timestamp) + Be32(ssrc)
  }

  function Packet(seqNo: nat, timestamp: nat, ssrc: nat, p: Payload): seq<Byte> {
    Header(seqNo, timestamp, ssrc, p.mark) + p.bytes
  }

  /** Consecutive payloads under one timestamp take consecutive sequence numbers; the header
      field keeps the low 16 bits. */
  function Stamp(seqNo: nat, timestamp: nat, ssrc: nat, ps: seq<Payload>): (pkts: seq<seq<Byte>>)
    ensures |pkts| == |ps|
  {
    seq(|ps|, k requires 0 <= k < |ps| => Packet(seqNo + k, timestamp, ssrc, ps[k]))
  }

  lemma {:induction false} StampConcat(seqNo: nat, timestamp: nat, ssrc: nat, a: seq<Payload>, b: seq<Payload>)
    ensures Stamp(seqNo, timestamp, ssrc, a + b)
         == Stamp(seqNo, timestamp, ssrc, a) + Stamp(seqNo + |a|, timestamp, ssrc, b)
  {}

  lemma {:induction false} StampCons(seqNo: nat, timestamp: nat, ssrc: nat, ps: seq<Payload>)
    requires ps != []
    ensures Stamp(seqNo, timestamp, ssrc, ps)[0] == Packet(seqNo, timestamp, ssrc, ps[0])
    ensures Stamp(seqNo, timestamp, ssrc, ps)[1..] == Stamp(seqNo + 1, timestamp, ssrc, ps[1..])
  {
    hide Header;
  }

  lemma {:induction false} StampOne(seqNo: nat, timestamp: nat, ssrc: nat, p: Payload)
    ensures Stamp(seqNo, timestamp, ssrc, [p]) == [Packet(seqNo, timestamp, ssrc, p)]
  {}

  lemma {:induction false} DigitsWrap(x: nat, y: nat, q: nat)
    requires x == y + 0x1_0000 * q
    ensures x % 256 == y % 256 && x / 256 % 256 == y / 256 % 256
  {
    Digits(y);
    LowDigits(x, y / 256 / 256 + q, y / 256 % 256, y % 256);
  }

  lemma {:induction false} Be16Same(x: nat, y: nat)
    requires x % 256 == y % 256 && x / 256 % 256 == y / 256 % 256
    ensures Be16(x) == Be16(y)
  {
    hide ToByte;
  }

  lemma {:induction false} Be16Wraps(x: nat, k: nat)
    ensures Be16(x % 0x1_0000 + k) == Be16(x + k)
  {
    hide Be16;
    var y := x % 0x1_0000 + k;
    assert x + k == y + 0x1_0000 * (x / 0x1_0000);
    DigitsWrap(x + k, y, x / 0x1_0000);
    Be16Same(x + k, y);
  }

  /** A wrapped sequence number stamps the same packets. */
  lemma {:induction false} StampWraps(seqNo: nat, timestamp: nat, ssrc: nat, ps: seq<Payload>)
    ensures Stamp(seqNo % 0x1_0000, timestamp, ssrc, ps) == Stamp(seqNo, timestamp, ssrc, ps)
  {
    var a, b := Stamp(seqNo % 0x1_0000, timestamp, ssrc, ps), Stamp(seqNo, timestamp, ssrc, ps);
    forall k | 0 <= k < |ps| ensures a[k] == b[k] {
      Be16Wraps(seqNo, k);
    }
  }

  // --- STAP-A ---

  function FBit(n: Nal): Byte {
    if n == [] then 0 else n[0] & 0x80
  }

  function NriBits(n: Nal): Byte {
    if n == [] then 0 else n[0] & 0x60
  }

  function AnyF(hs: seq<Nal>): Byte {
    if hs == [] then 0 else AnyF(hs[..|hs| - 1]) | FBit(hs[|hs| - 1])
  }

  function MaxNri(hs: seq<Nal>): Byte {
    if hs == [] then 0
    else
      var m, c := MaxNri(hs[..|hs| - 1]), NriBits(hs[|hs| - 1]);
      if c > m then c else m
  }

  function StapHeader(hs: seq<Nal>): Byte {
    24 | MaxNri(hs) | AnyF(hs)
  }

  function StapBody(hs: seq<Nal>): seq<Byte> {
    if hs == [] then [] else Be16(|hs[0]|) + hs[0] + StapBody(hs[1..])
  }

  /** The aggregation buffer that holds these NAL units. */
  function Stap(hs: seq<Nal>): seq<Byte> {
    if hs == [] then [] else [StapHeader(hs)] + StapBody(hs)
  }

  /** The first p bytes of b are the aggregate of these NAL units, or nothing. */
  ghost predicate Aggregated(b: seq<Byte>, p: nat, hs: seq<Nal>) {
    && p <= |b|
    && (hs == [] <==> p == 0)
    && (hs != [] ==> b[0] == StapHeader(hs) && b[1..p] == StapBody(hs))
  }

  lemma {:induction false} AggregatedIsStap(b: seq<Byte>, p: nat, hs: seq<Nal>)
    requires Aggregated(b, p, hs)
    ensures b[..p] == Stap(hs)
  {
    if hs != [] {
      assert b[..p] == [b[0]] + b[1..p];
    }
  }

  lemma {:induction false} StapBodySnoc(hs: seq<Nal>, n: Nal)
    ensures StapBody(hs + [n]) == StapBody(hs) + Be16(|n|) + n
  {
    if hs == [] {
      assert hs + [n] == [n] && [n][1..] == [];
    } else {
      HeadOfConcat(hs, [n]);
      StapBodySnoc(hs[1..], n);
      var unit := Be16(|hs[0]|) + hs[0];
      Assoc(unit, StapBody(hs[1..]) + Be16(|n|), n);
      Assoc(unit, StapBody(hs[1..]), Be16(|n|));
    }
  }

  /** The bits of the aggregate's header: type 24, F set exactly when some held NAL unit has
      it set, and NRI the greatest of theirs. */
  lemma {:induction false} StapHeaderBits(hs: seq<Nal>)
    requires hs != []
    ensures StapHeader(hs) & 0x1f == 24
    ensures StapHeader(hs) & 0x80 != 0 <==> exists i :: 0 <= i < |hs| && FirstByte(hs[i]) & 0x80 != 0
    ensures forall i :: 0 <= i < |hs| ==> FirstByte(hs[i]) & 0x60 <= StapHeader(hs) & 0x60
    ensures exists i :: 0 <= i < |hs| && FirstByte(hs[i]) & 0x60 == StapHeader(hs) & 0x60
  {
    AnyFBits(hs);
    MaxNriBits(hs);
    HeaderFields(MaxNri(hs), AnyF(hs));
    forall i | 0 <= i < |hs|
      ensures FBit(hs[i]) == FirstByte(hs[i]) & 0x80 && NriBits(hs[i]) == FirstByte(hs[i]) & 0x60
    {
      FirstBits(hs[i]);
    }
  }

  /** The NAL header; an empty unit has none. */
  function FirstByte(n: Nal): Byte {
    if n == [] then 0 else n[0]
  }

  lemma {:induction false} FirstBits(n: Nal)
    ensures FBit(n) == FirstByte(n) & 0x80 && NriBits(n) == FirstByte(n) & 0x60
  {}

  lemma {:induction false} HeaderFields(nri: Byte, f: Byte)
    requires nri & 0x9f == 0 && f & 0x7f == 0
    ensures (24 | nri | f) & 0x1f == 24 && (24 | nri | f) & 0x80 == f && (24 | nri | f) & 0x60 == nri
  {}

  lemma {:induction false} AnyFBits(hs: seq<Nal>)
    ensures AnyF(hs) & 0x7f == 0
    ensures AnyF(hs) != 0 <==> exists i :: 0 <= i < |hs| && FBit(hs[i]) != 0
  {
    if hs == [] {
    } else {
      var l := |hs| - 1;
      AnyFBits(hs[..l]);
      OrZero(AnyF(hs[..l]), FBit(hs[l]));
      if i :| 0 <= i < |hs| && FBit(hs[i]) != 0 {
        assert i < l ==> hs[..l][i] == hs[i];
      }
    }
  }

  lemma {:induction false} OrZero(a: Byte, b: Byte)
    ensures a | b == 0 <==> a == 0 && b == 0
  {}

  lemma {:induction false} MaxNriBits(hs: seq<Nal>)
    ensures MaxNri(hs) & 0x9f == 0
    ensures forall i :: 0 <= i < |hs| ==> NriBits(hs[i]) <= MaxNri(hs)
    ensures hs != [] ==> exists i :: 0 <= i < |hs| && NriBits(hs[i]) == MaxNri(hs)
  {
    if hs == [] {
    } else {
      var l := |hs| - 1;
      MaxNriBits(hs[..l]);
      forall i | 0 <= i < |hs| ensures NriBits(hs[i]) <= MaxNri(hs) {
        assert i < l ==> hs[..l][i] == hs[i];
      }
      if NriBits(hs[l]) > MaxNri(hs[..l]) || l == 0 {
        assert NriBits(hs[l]) == MaxNri(hs);
      } else {
        var i :| 0 <= i < l && NriBits(hs[..l][i]) == MaxNri(hs[..l]);
        assert NriBits(hs[i]) == MaxNri(hs);
      }
    }
  }

  /** The header byte after one more NAL unit, as the sender computes it in place. */
  function NextStapHeader(header: Byte, nri: Byte, f: Byte): Byte {
    (if nri > header & 0x60 then (header & 0x9F) | nri else header) | f
  }

  lemma {:induction false} StapHeaderSnoc(hs: seq<Nal>, n: Nal)
    ensures StapHeader([n]) == (24 | NriBits(n)) | FBit(n)
    ensures hs != [] ==> StapHeader(hs + [n]) == NextStapHeader(StapHeader(hs), NriBits(n), FBit(n))
  {
    MaxNriBits(hs);
    AnyFBits(hs);
    MaxNriSnoc(hs, n);
    MaxNriSnoc([], n);
    HeaderUpdate(MaxNri(hs), AnyF(hs), NriBits(n), FBit(n));
    assert [] + [n] == [n];
  }

  lemma {:induction false} MaxNriSnoc(hs: seq<Nal>, n: Nal)
    ensures MaxNri(hs + [n]) == if NriBits(n) > MaxNri(hs) then NriBits(n) else MaxNri(hs)
    ensures AnyF(hs + [n]) == AnyF(hs) | FBit(n)
  {
    assert (hs + [n])[..|hs|] == hs;
  }

  lemma {:induction false} HeaderUpdate(nri: Byte, f: Byte, newNri: Byte, newF: Byte)
    requires nri & 0x9f == 0 && newNri & 0x9f == 0 && f & 0x7f == 0 && newF & 0x7f == 0
    ensures NextStapHeader(24 | nri | f, newNri, newF) == 24 | (if newNri > nri then newNri else nri) | (f | newF)
    ensures 0 | newF == newF && (newNri > 0 || newNri == 0)
  {
    assert (24 | nri | f) & 0x60 == nri;
  }

  // --- FU-A ---

  function FuIndicator(n: Nal): Byte
    requires n != []
  {
    28 | (n[0] & 0x60)
  }

  function FuHeader(n: Nal, start: bool, end: bool): Byte
    requires n != []
  {
    (n[0] & 0x1f) | (if start then 0x80 else 0) | (if end then 0x40 else 0)
  }

  const FU_CHUNK: nat := RTP_PAYLOAD_MAX - 2

  /** How many bytes of n the fragment that starts at off carries. */
  function FuSize(n: Nal, off: nat): (size: nat)
    requires off <= |n|
    ensures off + size <= |n|
  {
    if |n| - off > FU_CHUNK then FU_CHUNK else |n| - off
  }

  function Fragment(n: Nal, off: nat, last: bool): Payload
    requires 1 <= off <= |n|
  {
    var end := off + FuSize(n, off) == |n|;
    Payload([FuIndicator(n), FuHeader(n, off == 1, end)] + n[off..off + FuSize(n, off)], end && last)
  }

  /** The fragments that carry the bytes of n from position off on. */
  function FuFrom(n: Nal, off: nat, last: bool): seq<Payload>
    requires 1 <= off <= |n|
    decreases |n| - off
  {
    [Fragment(n, off, last)]
    + if off + FuSize(n, off) == |n| then [] else FuFrom(n, off + FuSize(n, off), last)
  }

  lemma {:induction false} FuHeaderBits(n: Nal)
    requires n != []
    ensures FuIndicator(n) == 28 | (n[0] & 0x60)
    ensures FuHeader(n, true, false) == (n[0] & 0x1f) | (1 << 7)
    ensures forall start: bool {:trigger FuHeader(n, start, false)} ::
      FuHeader(n, start, false) & 0x7f == FuHeader(n, false, false)
      && FuHeader(n, start, false) | 0x40 == FuHeader(n, start, true)
  {}

  // --- one NAL unit, a run of NAL units ---

  /** What the sender knows between two NAL units. */
  datatype Mux = Mux(aggregation: bool, held: seq<Nal>, seqNo: nat, timestamp: nat, ssrc: nat)

  /** A NAL unit the aggregation buffer can take: alone, its aggregate must fit the buffer. */
  predicate Admissible(aggregation: bool, n: Nal) {
    aggregation && |n| <= RTP_PAYLOAD_MAX ==> 1 + 2 + |n| <= RTP_PAYLOAD_MAX
  }

  function Flush(held: seq<Nal>): seq<Payload> {
    if held == [] then [] else [Payload(Stap(held), false)]
  }

  /** The aggregation buffer has no room left for n. */
  predicate Full(held: seq<Nal>, n: Nal) {
    |Stap(held)| + 2 + |n| > RTP_PAYLOAD_MAX
  }

  function Aggregate(held: seq<Nal>, n: Nal): seq<Nal> {
    (if Full(held, n) then [] else held) + [n]
  }

  /** The payloads sent for one NAL unit. */
  function NalPayloads(m: Mux, n: Nal, last: bool): seq<Payload> {
    if |n| > RTP_PAYLOAD_MAX then
      Flush(m.held) + FuFrom(n, 1, last)
    else if m.aggregation then
      (if Full(m.held, n) then Flush(m.held) else [])
      + (if last then [Payload(Stap(Aggregate(m.held, n)), true)] else [])
    else
      [Payload(n, last)]
  }

  /** The NAL units left in the buffer afterwards. */
  function NalHeld(m: Mux, n: Nal, last: bool): seq<Nal> {
    if |n| > RTP_PAYLOAD_MAX || !m.aggregation || last then [] else Aggregate(m.held, n)
  }

  /** The trace and the sequence number after sending payloads from state m. */
  ghost predicate SentBy(m: Mux, before: seq<seq<Byte>>, ps: seq<Payload>, sent: seq<seq<Byte>>, seqNo: nat) {
    sent == before + Stamp(m.seqNo, m.timestamp, m.ssrc, ps) && seqNo == (m.seqNo + |ps|) % 0x1_0000
  }

  lemma {:induction false} SentNothing(m: Mux, before: seq<seq<Byte>>)
    requires m.seqNo < 0x1_0000
    ensures SentBy(m, before, [], before, m.seqNo)
  {}

  lemma {:induction false} SentMore(m: Mux, before: seq<seq<Byte>>, ps: seq<Payload>, sent: seq<seq<Byte>>, seqNo: nat,
                                    qs: seq<Payload>)
    requires SentBy(m, before, ps, sent, seqNo)
    ensures SentBy(m, before, ps + qs, sent + Stamp(seqNo, m.timestamp, m.ssrc, qs), (seqNo + |qs|) % 0x1_0000)
  {
    var a := Stamp(m.seqNo, m.timestamp, m.ssrc, ps);
    var b := Stamp(m.seqNo + |ps|, m.timestamp, m.ssrc, qs);
    StampConcat(m.seqNo, m.timestamp, m.ssrc, ps, qs);
    StampWraps(m.seqNo + |ps|, m.timestamp, m.ssrc, qs);
    Assoc(before, a, b);
  }

  /** Fragments sent so far, and still to send from off on. */
  ghost predicate FuSent(m: Mux, before: seq<seq<Byte>>, ps: seq<Payload>, n: Nal, off: nat, last: bool,
                         sent: seq<seq<Byte>>, seqNo: nat) {
    && 1 <= off <= |n|
    && ps + FuFrom(n, off, last) == Flush(m.held) + FuFrom(n, 1, last)
    && SentBy(m, before, ps, sent, seqNo)
  }

  lemma {:induction false} FuSentStart(m: Mux, before: seq<seq<Byte>>, n: Nal, last: bool,
                                       sent: seq<seq<Byte>>, seqNo: nat)
    requires n != [] && m.seqNo < 0x1_0000
    requires if m.held == [] then sent == before && seqNo == m.seqNo
             else SentBy(m, before, [] + [Payload(Stap(m.held), false)], sent, seqNo)
    ensures FuSent(m, before, Flush(m.held), n, 1, last, sent, seqNo)
  {
    hide SentBy, Stap, FuFrom;
    SentNothing(m, before);
    assert [] + [Payload(Stap(m.held), false)] == [Payload(Stap(m.held), false)];
  }

  lemma {:induction false} FuSentStep(m: Mux, before: seq<seq<Byte>>, ps: seq<Payload>, n: Nal, off: nat, last: bool,
                                      sent: seq<seq<Byte>>, seqNo: nat)
    requires FuSent(m, before, ps, n, off, last, sent, seqNo)
    ensures var f := [Fragment(n, off, last)];
      var sent', seqNo' := sent + Stamp(seqNo, m.timestamp, m.ssrc, f), (seqNo + 1) % 0x1_0000;
      if off + FuSize(n, off) == |n| then SentBy(m, before, Flush(m.held) + FuFrom(n, 1, last), sent', seqNo')
      else FuSent(m, before, ps + f, n, off + FuSize(n, off), last, sent', seqNo')
  {
    hide SentBy, Stap, Stamp, Fragment;
    var f := [Fragment(n, off, last)];
    SentMore(m, before, ps, sent, seqNo, f);
    if off + FuSize(n, off) < |n| {
      Assoc(ps, f, FuFrom(n, off + FuSize(n, off), last));
    } else {
      assert f + [] == f;
    }
  }

  function NalPackets(m: Mux, n: Nal, last: bool): seq<seq<Byte>> {
    Stamp(m.seqNo, m.timestamp, m.ssrc, NalPayloads(m, n, last))
  }

  /** Sending one NAL unit, then moving the clock on by one frame. */
  function AfterNal(m: Mux, n: Nal, last: bool): Mux {
    m.(held := NalHeld(m, n, last),
       seqNo := (m.seqNo + |NalPayloads(m, n, last)|) % 0x1_0000,
       timestamp := (m.timestamp + TICKS_PER_FRAME) % 0x1_0000_0000)
  }

  /** The packets of a whole run; only the last NAL unit is sent as the last. */
  function RunPackets(m: Mux, nals: seq<Nal>): seq<seq<Byte>>
    decreases |nals|
  {
    if nals == [] then []
    else
      var last := |nals| == 1;
      NalPackets(m, nals[0], last) + RunPackets(AfterNal(m, nals[0], last), nals[1..])
  }

  function AfterRun(m: Mux, nals: seq<Nal>): Mux
    decreases |nals|
  {
    if nals == [] then m else AfterRun(AfterNal(m, nals[0], |nals| == 1), nals[1..])
  }

  /** A run in progress: what was sent, and the NAL units still to send. */
  ghost predicate RunSent(m0: Mux, nals0: seq<Nal>, before: seq<seq<Byte>>, m: Mux, nals: seq<Nal>,
                          sent: seq<seq<Byte>>) {
    && before + RunPackets(m0, nals0) == sent + RunPackets(m, nals)
    && AfterRun(m0, nals0) == AfterRun(m, nals)
  }

  lemma {:induction false} RunStart(m: Mux, nals: seq<Nal>, before: seq<seq<Byte>>)
    ensures RunSent(m, nals, before, m, nals, before)
  {}

  lemma {:induction false} RunEnd(m0: Mux, nals0: seq<Nal>, before: seq<seq<Byte>>, m: Mux, sent: seq<seq<Byte>>)
    requires RunSent(m0, nals0, before, m, [], sent)
    ensures sent == before + RunPackets(m0, nals0) && m == AfterRun(m0, nals0)
  {
    assert sent + RunPackets(m, []) == sent;
  }

  lemma {:induction false} RunStep(m0: Mux, nals0: seq<Nal>, before: seq<seq<Byte>>, m: Mux, nals: seq<Nal>,
                                   sent: seq<seq<Byte>>)
    requires nals != [] && RunSent(m0, nals0, before, m, nals, sent)
    ensures var last := |nals| == 1;
      RunSent(m0, nals0, before, AfterNal(m, nals[0], last), nals[1..], sent + NalPackets(m, nals[0], last))
  {
    hide AfterNal, NalPackets;
    var last := |nals| == 1;
    Assoc(sent, NalPackets(m, nals[0], last), RunPackets(AfterNal(m, nals[0], last), nals[1..]));
  }
}
