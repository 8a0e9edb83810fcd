/** Byte counts of rtcpcompoundpacketbuilder.h: reports and source descriptions, at most 31 to a
    packet (RFC 3550, sections 6.4 and 6.5). */
module CompoundBuilder {
  import opened Bytes

  const COMMON_HEADER: nat := 4
  const SSRC_SIZE: nat := 4
  const SENDER_REPORT: nat := 20
  const RECEIVER_REPORT: nat := 24
  const SDES_HEADER: nat := 2
  const MAX_PER_PACKET: nat := 31

  datatype Status = Ok | NoCurrentSource

  // --- reference layouts ---

  /** How many packets n entries take, laid out 31 at a time. */
  function PacketsFor(n: nat): nat {
    if n == 0 then 0 else 1 + (if n <= MAX_PER_PACKET then 0 else PacketsFor(n - MAX_PER_PACKET))
  }

  /** The bytes of n report blocks laid out 31 to a packet, each packet with its header and SSRC. */
  function ReportBytes(n: nat): nat {
    if n == 0 then 0
    else if n <= MAX_PER_PACKET then COMMON_HEADER + SSRC_SIZE + RECEIVER_REPORT * n
    else COMMON_HEADER + SSRC_SIZE + RECEIVER_REPORT * MAX_PER_PACKET + ReportBytes(n - MAX_PER_PACKET)
  }

  function RoundUp4(x: nat): nat {
    if x % 4 != 0 then x + (4 - x % 4) else x
  }

  /** The division and remainder of the builder, as a ceiling. */
  function Ceiling31(n: nat): nat {
    if n % MAX_PER_PACKET != 0 then n / MAX_PER_PACKET + 1 else n / MAX_PER_PACKET
  }

  lemma {:induction false} CeilingIsLayout(n: nat)
    ensures Ceiling31(n) == PacketsFor(n)
    decreases n
  {
    if n <= MAX_PER_PACKET {
    } else {
      CeilingIsLayout(n - MAX_PER_PACKET);
    }
  }

  lemma {:induction false} ReportBytesTotal(n: nat)
    ensures ReportBytes(n) == RECEIVER_REPORT * n + PacketsFor(n) * (COMMON_HEADER + SSRC_SIZE)
    decreases n
  {
    if n <= MAX_PER_PACKET {
    } else {
      ReportBytesTotal(n - MAX_PER_PACKET);
    }
  }

  // --- reports as packets ---

  /** A report block (RFC 3550, section 6.4.1). */
  datatype ReportBlock = ReportBlock(ssrc: nat, fraction: Byte, lost: nat, highest: nat, jitter: nat, lsr: nat,
                                     dlsr: nat)

  function EncodeBlock(b: ReportBlock): (s: seq<Byte>)
    ensures |s| == 24
  {
    Be32(b.ssrc) + ([b.fraction] + Be32(b.lost)[1..]) + Be32(b.highest) + Be32(b.jitter) + Be32(b.lsr) + Be32(b.dlsr)
  }

  function EncodeBlocks(bs: seq<ReportBlock>): (s: seq<Byte>)
    ensures |s| == 24 * |bs|
  {
    if bs == [] then [] else EncodeBlock(bs[0]) + EncodeBlocks(bs[1..])
  }

  /** What a sender tells of itself: NTP and RTP timestamps, packet and octet counts. */
  datatype SenderInfo = SenderInfo(ntpHigh: nat, ntpLow: nat, rtp: nat, packets: nat, octets: nat)

  function EncodeInfo(i: SenderInfo): seq<Byte> {
    Be32(i.ntpHigh) + Be32(i.ntpLow) + Be32(i.rtp) + Be32(i.packets) + Be32(i.octets)
  }

  /** One report packet of at most 31 blocks: the common header with the count, the type and the
      length in words less one, then the source, the sender's information and the blocks. */
  function EncodeReport(ssrc: nat, info: seq<SenderInfo>, bs: seq<ReportBlock>): (s: seq<Byte>)
    requires |info| <= 1 && |bs| <= MAX_PER_PACKET
  {
    var body := Be32(ssrc) + (if info == [] then [] else EncodeInfo(info[0])) + EncodeBlocks(bs);
    [0x80 | ToByte(|bs|), if info == [] then 201 else 200] + Be16(|body| / 4) + body
  }

  /** A report with all its blocks: those that do not fit go into receiver reports behind it. */
  function EncodeReports(ssrc: nat, info: seq<SenderInfo>, bs: seq<ReportBlock>): seq<Byte>
    requires |info| <= 1
    decreases |bs|
  {
    if |bs| <= MAX_PER_PACKET then EncodeReport(ssrc, info, bs)
    else EncodeReport(ssrc, info, bs[..MAX_PER_PACKET]) + EncodeReports(ssrc, [], bs[MAX_PER_PACKET..])
  }

  lemma {:induction false} ReportLength(ssrc: nat, info: seq<SenderInfo>, bs: seq<ReportBlock>)
    requires |info| <= 1 && |bs| <= MAX_PER_PACKET
    ensures |EncodeReport(ssrc, info, bs)| == 8 + (if info == [] then 0 else 20) + 24 * |bs|
  {
    hide Be32, Be16, ToByte, EncodeBlocks;
  }

  lemma {:induction false} ReportsLength(ssrc: nat, info: seq<SenderInfo>, bs: seq<ReportBlock>)
    requires |info| <= 1
    ensures |EncodeReports(ssrc, info, bs)|
         == (if info == [] then 0 else 20) + 24 * |bs| + 8 * (if bs == [] then 1 else PacketsFor(|bs|))
    decreases |bs|
  {
    hide EncodeReport;
    if |bs| <= MAX_PER_PACKET {
      ReportLength(ssrc, info, bs);
    } else {
      ReportLength(ssrc, info, bs[..MAX_PER_PACKET]);
      ReportsLength(ssrc, [], bs[MAX_PER_PACKET..]);
    }
  }

  // --- reports ---

  class Report {
    var isSR: bool
    var headerlength: nat
    var reportblocks: seq<seq<Byte>>

    constructor ()
      ensures !isSR && headerlength == 0 && reportblocks == []
    {
      isSR, headerlength, reportblocks := false, 0, [];
    }

    method Clear()
      modifies this
      ensures !isSR && headerlength == 0 && reportblocks == []
    {
      reportblocks := [];
      isSR := false;
      headerlength := 0;
    }

    function NeededBytes(): nat
      reads this
    {
      var n := |reportblocks|;
      if n == 0 then
        if headerlength == 0 then 0 else COMMON_HEADER + headerlength
      else
        n * RECEIVER_REPORT + Ceiling31(n) * (COMMON_HEADER + SSRC_SIZE) + if isSR then SENDER_REPORT else 0
    }

    function NeededBytesWithExtraReportBlock(): nat
      reads this
    {
      var n := |reportblocks| + 1;
      n * RECEIVER_REPORT + Ceiling31(n) * (COMMON_HEADER + SSRC_SIZE) + if isSR then SENDER_REPORT else 0
    }

    /** reportblocks.push_back, as AddReportBlock does it. */
    method AddReportBlock(block: seq<Byte>)
      modifies this
      ensures reportblocks == old(reportblocks) + [block] && isSR == old(isSR) && headerlength == old(headerlength)
      ensures NeededBytes() == old(NeededBytesWithExtraReportBlock())
    {
      reportblocks := reportblocks + [block];
    }

    /** The count is that of the packets the blocks are laid out in, the sender information
        coming on top, and a multiple of 4. */
    lemma {:induction false} NeededBytesIsLayout()
      requires headerlength % 4 == 0
      ensures reportblocks != [] ==> NeededBytes() == ReportBytes(|reportblocks|) + if isSR then SENDER_REPORT else 0
      ensures NeededBytes() % 4 == 0
    {
      CeilingIsLayout(|reportblocks|);
      ReportBytesTotal(|reportblocks|);
    }

    /** A report that was begun has its source, and the sender's information if it is one of a sender. */
    predicate Begun()
      reads this
    {
      headerlength == 4 + if isSR then 20 else 0
    }

    /** The need of a report that was begun, with or without blocks, is the length of its packets. */
    lemma {:induction false} NeededBytesIsEncoded(ssrc: nat, info: seq<SenderInfo>, bs: seq<ReportBlock>)
      requires Begun() && |bs| == |reportblocks| && |info| == if isSR then 1 else 0
      ensures NeededBytes() == |EncodeReports(ssrc, info, bs)|
    {
      hide EncodeReports;
      CeilingIsLayout(|bs|);
      ReportsLength(ssrc, info, bs);
    }

    /** Nothing is needed exactly for a report that was neither begun nor given a block. */
    lemma {:induction false} NeedsNothingExactly()
      ensures NeededBytes() == 0 <==> headerlength == 0 && reportblocks == []
    {}

    /** The predicted growth: one block, and a new packet when the last one is full; the first block
        of a report goes into the packet that is needed anyway. */
    lemma {:induction false} ExtraReportBlock()
      ensures var full := |reportblocks| % 31 == 0;
        reportblocks != [] ==> NeededBytesWithExtraReportBlock() == NeededBytes() + 24 + (if full then 8 else 0)
      ensures reportblocks == [] && Begun() ==> NeededBytesWithExtraReportBlock() == NeededBytes() + 24
    {
      CeilingStep(|reportblocks|);
    }
  }

  lemma {:induction false} CeilingStep(n: nat)
    ensures Ceiling31(n + 1) == Ceiling31(n) + if n % MAX_PER_PACKET == 0 then 1 else 0
  {}

  // --- source descriptions ---

  function ItemsSize(items: seq<seq<Byte>>): nat {
    if items == [] then 0 else ItemsSize(items[..|items| - 1]) + |items[|items| - 1]|
  }

  /** The chunk of a source with this many item bytes: SSRC, items, a zero byte, padding. */
  function ChunkBytes(total: nat): nat {
    SSRC_SIZE + RoundUp4(total + 1)
  }

  class SDESSource {
    const ssrc: nat
    var items: seq<seq<Byte>>
    var totalitemsize: nat

    constructor (s: nat)
      ensures ssrc == s && items == [] && totalitemsize == 0
    {
      ssrc, items, totalitemsize := s, [], 0;
    }

    ghost predicate Valid()
      reads this
    {
      totalitemsize == ItemsSize(items)
    }

    function NeededBytes(): (bytes: nat)
      reads this
      ensures bytes == ChunkBytes(totalitemsize)
    {
      var x := totalitemsize + 1;
      var r := x % 4;
      (if r != 0 then x + (4 - r) else x) + SSRC_SIZE
    }

    function NeededBytesWithExtraItem(itemdatalength: nat): nat
      reads this
    {
      var x := totalitemsize + SDES_HEADER + itemdatalength + 1;
      var r := x % 4;
      (if r != 0 then x + (4 - r) else x) + SSRC_SIZE
    }

    /** An item counts with its two header bytes, so the prediction is the need afterwards. */
    method AddItem(buf: seq<Byte>)
      requires Valid()
      modifies this
      ensures Valid() && items == old(items) + [buf]
      ensures |buf| >= SDES_HEADER ==> NeededBytes() == old(NeededBytesWithExtraItem(|buf| - SDES_HEADER))
    {
      totalitemsize := totalitemsize + |buf|;
      items := items + [buf];
    }
  }

  ghost function SourcesBytes(sources: seq<SDESSource>): nat
    reads sources
  {
    if sources == [] then 0 else SourcesBytes(sources[..|sources| - 1]) + sources[|sources| - 1].NeededBytes()
  }

  lemma {:induction false} SourcesAligned(sources: seq<SDESSource>)
    ensures SourcesBytes(sources) % 4 == 0
  {
    if sources == [] {
    } else {
      SourcesAligned(sources[..|sources| - 1]);
    }
  }

  lemma {:induction false} SourcesSnoc(sources: seq<SDESSource>, s: SDESSource)
    ensures SourcesBytes(sources + [s]) == SourcesBytes(sources) + s.NeededBytes()
    ensures SourcesBytes([]) == 0 && PacketsFor(1) == 1
  {
    assert (sources + [s])[..|sources|] == sources;
  }

  class SDES {
    var sdessources: seq<SDESSource>
    var sdesit: nat

    ghost predicate Valid()
      reads this, sdessources
    {
      && (forall i, j :: 0 <= i < j < |sdessources| ==> sdessources[i] != sdessources[j])
      && (forall i :: 0 <= i < |sdessources| ==> sdessources[i].Valid())
      && (sdessources != [] ==> sdesit == |sdessources| - 1)
    }

    /** The size of all chunks, and a common header for every 31 of them. */
    ghost function Need(): nat
      reads this, sdessources
    {
      SourcesBytes(sdessources) + PacketsFor(|sdessources|) * COMMON_HEADER
    }

    /** What the builder predicts for one more item of this data length, and for one more source. */
    ghost function WithItem(itemdatalength: nat): nat
      requires Valid()
      reads this, sdessources
    {
      if sdessources == [] then 0
      else
        SourcesBytes(sdessources[..sdesit]) + sdessources[sdesit].NeededBytesWithExtraItem(itemdatalength)
        + PacketsFor(|sdessources|) * COMMON_HEADER
    }

    ghost function WithSource(): nat
      reads this, sdessources
    {
      if sdessources == [] then 0
      else SourcesBytes(sdessources) + 2 * SSRC_SIZE + PacketsFor(|sdessources| + 1) * COMMON_HEADER
    }

    /** Every total is a multiple of 4. */
    lemma {:induction false} NeedIsAligned()
      ensures Need() % 4 == 0
    {
      SourcesAligned(sdessources);
    }

    constructor ()
      ensures Valid() && sdessources == []
    {
      sdessources, sdesit := [], 0;
    }

    method Clear()
      modifies this
      ensures Valid() && sdessources == []
    {
      sdessources := [];
    }

    method AddSSRC(ssrc: nat)
      requires Valid()
      modifies this
      ensures Valid() && |sdessources| == |old(sdessources)| + 1
      ensures sdessources[..|old(sdessources)|] == old(sdessources)
      ensures var s := sdessources[|old(sdessources)|]; fresh(s) && s.ssrc == ssrc && s.items == []
      ensures sdesit == |old(sdessources)|
      ensures old(sdessources) == [] ==> Need() == COMMON_HEADER + 2 * SSRC_SIZE
      ensures Need() == old(WithSource()) <==> old(sdessources) != []
    {
      hide PacketsFor, SourcesBytes;
      ghost var before, n := SourcesBytes(sdessources), |sdessources|;
      ghost var predicted := WithSource();
      var s := new SDESSource(ssrc);
      ghost var was := sdessources;
      assert SourcesBytes(was) == before;
      sdessources := sdessources + [s];
      sdesit := |sdessources|;
      sdesit := sdesit - 1;
      assert s.NeededBytes() == 2 * SSRC_SIZE;
      SourcesSnoc(was, s);
      assert Need() == before + 2 * SSRC_SIZE + PacketsFor(n + 1) * COMMON_HEADER;
    }

    /** The item goes to the current, that is the last, source. */
    method AddItem(buf: seq<Byte>) returns (status: Status)
      requires Valid()
      modifies this, sdessources
      ensures Valid() && sdessources == old(sdessources) && sdesit == old(sdesit)
      ensures status == if sdessources == [] then NoCurrentSource else Ok
      ensures forall i :: 0 <= i < |sdessources| - 1 ==> unchanged(sdessources[i])
      ensures status == Ok ==> sdessources[|sdessources| - 1].items == old(sdessources[|sdessources| - 1].items) + [buf]
      ensures |buf| >= SDES_HEADER ==> Need() == old(WithItem(|buf| - SDES_HEADER))
    {
      if sdessources == [] {
        return NoCurrentSource;
      }
      sdessources[sdesit].AddItem(buf);
      assert forall i :: 0 <= i < sdesit ==> sdessources[..sdesit][i] != sdessources[sdesit];
      assert SourcesBytes(sdessources[..sdesit]) == old(SourcesBytes(sdessources[..sdesit]));
      return Ok;
    }

    /** The bytes of the first n sources, summed as the builder does. */
    method SumSources(n: nat) returns (x: nat)
      requires n <= |sdessources|
      ensures x == SourcesBytes(sdessources[..n])
    {
      x := 0;
      for i := 0 to n
        invariant x == SourcesBytes(sdessources[..i])
      {
        assert sdessources[..i + 1][..i] == sdessources[..i];
        x := x + sdessources[i].NeededBytes();
      }
    }

    method NeededBytes() returns (x: nat)
      requires Valid()
      ensures x == Need()
    {
      if sdessources == [] {
        return 0;
      }
      x := SumSources(|sdessources|);
      assert sdessources[..|sdessources|] == sdessources;
      CeilingIsLayout(|sdessources|);
      x := x + Ceiling31(|sdessources|) * COMMON_HEADER;
    }

    method NeededBytesWithExtraItem(itemdatalength: nat) returns (x: nat)
      requires Valid()
      ensures x == WithItem(itemdatalength)
    {
      if sdessources == [] {
        return 0;
      }
      x := SumSources(sdesit);
      x := x + sdessources[sdesit].NeededBytesWithExtraItem(itemdatalength);
      CeilingIsLayout(|sdessources|);
      x := x + Ceiling31(|sdessources|) * COMMON_HEADER;
    }

    /** Eight bytes for the new source, and perhaps one more packet; but nothing at all when
        there is no source yet. */
    method NeededBytesWithExtraSource() returns (x: nat)
      requires Valid()
      ensures x == WithSource() && (sdessources == [] ==> x == 0)
    {
      if sdessources == [] {
        return 0;
      }
      x := SumSources(|sdessources|);
      assert sdessources[..|sdessources|] == sdessources;
      x := x + SSRC_SIZE * 2;
      CeilingIsLayout(|sdessources| + 1);
      x := x + Ceiling31(|sdessources| + 1) * COMMON_HEADER;
    }
  }
}
