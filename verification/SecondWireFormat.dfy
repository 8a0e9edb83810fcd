/** Shape of what the second sender puts on the wire: its fragments in closed form, and the headers
    over a whole run. */
module SecondWireFormat {
  import opened Bytes
  import opened AnnexB
  import opened Packets
  import opened Receivers
  import opened ByteStreamParser
  import opened SecondPacketizer
  import opened ClientDelivery
  import opened WireFormat

  lemma {:induction false} PiecesFromAt(n: Nal, k: nat, j: nat)
    requires |n| > RTP_PAYLOAD_MAX_SIZE && k < PackNum(|n|)
    ensures |PiecesFrom(n, k)| == PackNum(|n|) - k
    ensures j < PackNum(|n|) - k ==> PiecesFrom(n, k)[j] == Piece(n, k + j)
    decreases PackNum(|n|) - k
  {
    hide PackNum, Piece;
    if k + 1 == PackNum(|n|) {
    } else {
      PiecesFromAt(n, k + 1, if j == 0 then 0 else j - 1);
    }
  }

  /** The fragments of a long NAL unit: as many as its length asks for, cut at the multiples of 1400,
      F, NRI and type those of the unit, S on exactly the first, E and the marker on exactly the last. */
  lemma {:induction false} PieceShape(n: Nal, k: nat)
    requires |n| > RTP_PAYLOAD_MAX_SIZE && k < |Pieces(n)|
    ensures |Pieces(n)| == (|n| + 1399) / 1400
    ensures var p, final, from := Pieces(n)[k], k == |Pieces(n)| - 1, if k == 0 then 1 else 1400 * k;
      && from < |n| && (final <==> |n| <= 1400 * (k + 1))
      && |p.bytes| >= 2 && p.bytes[2..] == (if final then n[from..] else n[from..1400 * (k + 1)])
      && p.bytes[0] & 0x1f == 28 && p.bytes[0] & 0xe0 == n[0] & 0xe0 && p.bytes[1] & 0x1f == n[0] & 0x1f
      && (p.bytes[1] & 0x80 != 0 <==> k == 0)
      && (p.bytes[1] & 0x40 != 0 <==> final)
      && (p.mark <==> final)
  {
    hide PiecesFrom, Indicator, FragmentHeader, PackNum;
    PackArithmetic(|n|);
    Ceiling(|n|);
    PiecesFromAt(n, 0, k);
    PieceBounds(n, k);
    PieceFields(n, k == 0, k == PackNum(|n|) - 1);
  }

  lemma {:induction false} Ceiling(len: nat)
    ensures PackNum(len) == (len + RTP_PAYLOAD_MAX_SIZE - 1) / RTP_PAYLOAD_MAX_SIZE
  {}

  lemma {:induction false} PieceFields(n: Nal, s: bool, e: bool)
    requires n != []
    ensures Indicator(n) & 0x1f == 28 && Indicator(n) & 0xe0 == n[0] & 0xe0
    ensures FragmentHeader(n, s, e) & 0x1f == n[0] & 0x1f
    ensures FragmentHeader(n, s, e) & 0x80 != 0 <==> s
    ensures FragmentHeader(n, s, e) & 0x40 != 0 <==> e
  {}

  /** Only the last fragment of a fragmented NAL unit is marked, in whatever place the unit comes. */
  lemma {:induction false} PieceMarks(n: Nal, k: nat)
    requires k < |Pieces(n)|
    ensures Pieces(n)[k].mark <==> |n| > RTP_PAYLOAD_MAX_SIZE && k == |Pieces(n)| - 1
  {
    if |n| > RTP_PAYLOAD_MAX_SIZE {
      PieceShape(n, k);
    }
  }

  /** The header of any packet of a run, by its place in the run. */
  lemma {:induction false} PieceRunHeader(seqNum: nat, timestamp: nat, ssrc: nat, tick: nat, nals: seq<Nal>, k: nat)
    requires ssrc < 0x1_0000_0000
    requires k < |RunPieces(seqNum, timestamp, ssrc, tick, nals)|
    ensures var pkt := RunPieces(seqNum, timestamp, ssrc, tick, nals)[k];
      && |pkt| >= RTP_OFFSET
      && DecodeHeader(pkt).seqNo == (seqNum + 1 + k) % 0x1_0000
      && DecodeHeader(pkt).ssrc == ssrc
    decreases |nals|
  {
    hide Pieces, DecodeHeader, Packet;
    var t, ps := (timestamp + tick) % 0x1_0000_0000, Pieces(nals[0]);
    if k < |ps| {
      HeaderReadBack(seqNum + 1 + k, t, ssrc, ps[k]);
    } else {
      PieceRunHeader((seqNum + |ps|) % 0x1_0000, t, ssrc, tick, nals[1..], k - |ps|);
      ModShift(seqNum, |ps|, 1 + (k - |ps|));
    }
  }

  /** The packets of a run, NAL unit by NAL unit. */
  function PieceGroups(seqNum: nat, timestamp: nat, ssrc: nat, tick: nat, nals: seq<Nal>): (gs: seq<seq<seq<Byte>>>)
    ensures |gs| == |nals|
    decreases |nals|
  {
    if nals == [] then []
    else
      var t := (timestamp + tick) % 0x1_0000_0000;
      [Stamp(seqNum + 1, t, ssrc, Pieces(nals[0]))]
      + PieceGroups((seqNum + |Pieces(nals[0])|) % 0x1_0000, t, ssrc, tick, nals[1..])
  }

  lemma {:induction false} PieceGroupsAreRun(seqNum: nat, timestamp: nat, ssrc: nat, tick: nat, nals: seq<Nal>)
    ensures Flat(PieceGroups(seqNum, timestamp, ssrc, tick, nals)) == RunPieces(seqNum, timestamp, ssrc, tick, nals)
    decreases |nals|
  {
    hide Pieces, Stamp;
    if nals == [] {
    } else {
      var t, ps := (timestamp + tick) % 0x1_0000_0000, Pieces(nals[0]);
      var groups := PieceGroups((seqNum + |ps|) % 0x1_0000, t, ssrc, tick, nals[1..]);
      PieceGroupsAreRun((seqNum + |ps|) % 0x1_0000, t, ssrc, tick, nals[1..]);
      assert ([Stamp(seqNum + 1, t, ssrc, ps)] + groups)[1..] == groups;
    }
  }

  /** The packets of NAL unit i are those of its pieces; they carry one timestamp, i + 1 ticks after
      the first state, and the marker is on exactly the last fragment of a fragmented unit. */
  lemma {:induction false} PieceGroup(seqNum: nat, timestamp: nat, ssrc: nat, tick: nat, nals: seq<Nal>, i: nat, j: nat)
    requires ssrc < 0x1_0000_0000
    requires i < |nals| && j < |Pieces(nals[i])|
    ensures var group := PieceGroups(seqNum, timestamp, ssrc, tick, nals)[i];
      && |group| == |Pieces(nals[i])|
      && |group[j]| >= RTP_OFFSET && group[j][12..] == Pieces(nals[i])[j].bytes
      && DecodeHeader(group[j]).ts == (timestamp + tick * (i + 1)) % 0x1_0000_0000
      && (group[j][1] & 0x80 != 0 <==> |nals[i]| > RTP_PAYLOAD_MAX_SIZE && j == |group| - 1)
    decreases |nals|
  {
    hide Pieces, DecodeHeader, Packet;
    var t, ps := (timestamp + tick) % 0x1_0000_0000, Pieces(nals[0]);
    if i == 0 {
      HeaderReadBack(seqNum + 1 + j, t, ssrc, ps[j]);
      PayloadBehind(seqNum + 1 + j, t, ssrc, ps[j]);
      PieceMarks(nals[0], j);
    } else {
      PieceGroup((seqNum + |ps|) % 0x1_0000, t, ssrc, tick, nals[1..], i - 1, j);
      TicksShift(timestamp, tick, i);
    }
  }

  /** What is behind their headers: the unit itself, of whatever type, or its fragments. */
  lemma {:induction false} PieceGroupPayloads(seqNum: nat, timestamp: nat, ssrc: nat, tick: nat, nals: seq<Nal>,
                                              i: nat)
    requires i < |nals| && nals[i] != []
    ensures var group := PieceGroups(seqNum, timestamp, ssrc, tick, nals)[i];
      && (|nals[i]| <= 1400 ==> |group| == 1 && |group[0]| >= 12 && group[0][12..] == nals[i])
      && (|nals[i]| > 1400 ==> |group| == (|nals[i]| + 1399) / 1400)
    decreases |nals|
  {
    hide Pieces, Packet;
    var n, t := nals[0], (timestamp + tick) % 0x1_0000_0000;
    if i > 0 {
      PieceGroupPayloads((seqNum + |Pieces(n)|) % 0x1_0000, t, ssrc, tick, nals[1..], i - 1);
    } else if |n| <= 1400 {
      OnePiece(n);
      PayloadBehind(seqNum + 1, t, ssrc, Payload(n, false));
    } else {
      SomePieces(n);
      PieceShape(n, 0);
    }
  }

  lemma {:induction false} OnePiece(n: Nal)
    requires 1 <= |n| <= RTP_PAYLOAD_MAX_SIZE
    ensures Pieces(n) == [Payload(n, false)]
  {}

  lemma {:induction false} SomePieces(n: Nal)
    requires |n| > RTP_PAYLOAD_MAX_SIZE
    ensures Pieces(n) != []
  {
    hide PackNum, Piece;
    PackArithmetic(|n|);
  }

  lemma {:induction false} TicksShift(timestamp: nat, tick: nat, i: nat)
    ensures ((timestamp + tick) % 0x1_0000_0000 + tick * i) % 0x1_0000_0000
         == (timestamp + tick * (i + 1)) % 0x1_0000_0000
  {
    var s, rest := timestamp + tick, tick * i;
    assert timestamp + tick * (i + 1) == s + rest;
    SameResidue(s + rest, s % 0x1_0000_0000 + rest, s / 0x1_0000_0000);
  }

  /** At the clock of 90 kHz the units are 3600 ticks apart, as those of the first sender are. */
  lemma {:induction false} PieceTicks(seqNum: nat, timestamp: nat, ssrc: nat, nals: seq<Nal>, i: nat, j: nat)
    requires ssrc < 0x1_0000_0000
    requires i < |nals| && j < |Pieces(nals[i])|
    ensures var group := PieceGroups(seqNum, timestamp, ssrc, 90000 / FRAME_RATE, nals)[i];
      && |group| == |Pieces(nals[i])| && |group[j]| >= RTP_OFFSET
      && DecodeHeader(group[j]).ts == (timestamp + 3600 * (i + 1)) % 0x1_0000_0000
  {
    hide DecodeHeader, Pieces, PieceGroups;
    PieceGroup(seqNum, timestamp, ssrc, 90000 / FRAME_RATE, nals, i, j);
  }

  // --- a file that start gives up on ---

  function Ones(k: nat): (n: Nal)
    ensures |n| == k
  {
    seq(k, _ => 1)
  }

  /** A file whose first NAL unit is one byte over the limit: its fragments would go through the unset
      pointer. */
  lemma {:induction false} FirstOverLimit()
    ensures var nals := ParsedFrom(JoinWith([true, true], [Ones(1401), Ones(1)]), 0);
      nals == [Ones(1401)] && !PointerSet(nals)
  {
    hide ParsedFrom, JoinWith, Scan;
    var nals := [Ones(1401), Ones(1)];
    OnesPlain(1401);
    OnesPlain(1);
    ParsedJoin([true, true], nals);
    assert nals[..1] == [Ones(1401)];
    assert Ones(1401) in [Ones(1401)];
  }

  lemma {:induction false} OnesPlain(k: nat)
    requires k > 0
    ensures Plain(Ones(k))
  {}
}
