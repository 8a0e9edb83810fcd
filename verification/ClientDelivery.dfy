/** Client.c on the packets of either sender. */
module ClientDelivery {
  import opened Bytes
  import opened AnnexB
  import opened Packets
  import opened Receivers
  import opened Delivery
  import opened PlayerDelivery
  import opened ByteStreamParser
  import opened SecondPacketizer

  lemma {:induction false} PieceBits(n: Nal, s: bool, e: bool)
    requires n != []
    ensures Indicator(n) & 0x1f == 28
    ensures FragmentHeader(n, s, e) >> 7 == 1 <==> s
    ensures (FragmentHeader(n, s, e) >> 6) & 1 == 1 <==> e
    ensures RebuiltHeader(Indicator(n), FragmentHeader(n, s, e)) == n[0]
  {}

  /** Where piece k begins. */
  function PieceStart(k: nat): nat {
    if k == 0 then 1 else RTP_PAYLOAD_MAX_SIZE * k
  }

  function PieceEnd(n: Nal, k: nat): nat {
    if k == PackNum(|n|) - 1 then |n| else RTP_PAYLOAD_MAX_SIZE * (k + 1)
  }

  lemma {:induction false} PieceBounds(n: Nal, k: nat)
    requires |n| > RTP_PAYLOAD_MAX_SIZE && k < PackNum(|n|)
    ensures 1 <= PieceStart(k) < PieceEnd(n, k) <= |n|
    ensures PieceEnd(n, k) - PieceStart(k) <= RTP_PAYLOAD_MAX_SIZE
    ensures k + 1 < PackNum(|n|) ==> PieceEnd(n, k) == PieceStart(k + 1)
    ensures k + 1 == PackNum(|n|) ==> PieceEnd(n, k) == |n|
    ensures k == 0 ==> k + 1 < PackNum(|n|)
  {
    PackArithmetic(|n|);
  }

  lemma {:induction false} ClientPiece(n: Nal, k: nat)
    requires |n| > RTP_PAYLOAD_MAX_SIZE && k < PackNum(|n|)
    ensures 1 <= PieceStart(k) < PieceEnd(n, k) <= |n|
    ensures ClientWrites(Bare(Piece(n, k)))
      == (if k == 0 then START_CODE + [n[0]] else []) + n[PieceStart(k)..PieceEnd(n, k)]
  {
    hide At, Rest, Indicator, FragmentHeader, RebuiltHeader, Bare, PackNum;
    PieceBounds(n, k);
    var s, e, d := k == 0, k == PackNum(|n|) - 1, n[PieceStart(k)..PieceEnd(n, k)];
    assert Piece(n, k).bytes == [Indicator(n), FragmentHeader(n, s, e)] + d;
    BareParts(Piece(n, k));
    TwoThenRest(Indicator(n), FragmentHeader(n, s, e), d);
    PieceBits(n, s, e);
    assert [] + d == d;
  }

  lemma {:induction false} TwoThenRest(a: Byte, b: Byte, d: seq<Byte>)
    ensures At([a, b] + d, 0) == a && At([a, b] + d, 1) == b && Rest([a, b] + d, 2) == d
  {}

  lemma {:induction false} ClientPieces(n: Nal, k: nat)
    requires |n| > RTP_PAYLOAD_MAX_SIZE && k < PackNum(|n|)
    ensures PieceStart(k) <= |n|
    ensures OfPayloads(ClientWrites, PiecesFrom(n, k))
      == (if k == 0 then START_CODE + [n[0]] else []) + n[PieceStart(k)..]
    decreases PackNum(|n|) - k
  {
    hide ClientWrites, Piece, PackNum, PieceEnd, PieceStart;
    ClientPiece(n, k);
    PieceBounds(n, k);
    OfPayloadsOne(ClientWrites, Piece(n, k));
    var start := if k == 0 then START_CODE + [n[0]] else [];
    if k + 1 < PackNum(|n|) {
      ClientPieces(n, k + 1);
      OfPayloadsConcat(ClientWrites, [Piece(n, k)], PiecesFrom(n, k + 1));
      CutOne(n, start, PieceStart(k), PieceEnd(n, k));
      assert [] + n[PieceStart(k + 1)..] == n[PieceStart(k + 1)..];
    } else {
      assert PiecesFrom(n, k) == [Piece(n, k)];
      assert n[PieceStart(k)..PieceEnd(n, k)] == n[PieceStart(k)..];
    }
  }

  /** Sent unfragmented, type 28 would be taken for a fragment. */
  predicate ClientKeeps(n: Nal) {
    n != [] && (|n| <= RTP_PAYLOAD_MAX_SIZE ==> n[0] & 0x1f != 28)
  }

  lemma {:induction false} ClientSingle(n: Nal)
    requires n != [] && WellDefined(n)
    ensures |ClientWrites(Bare(Payload(n, false)))| <= |START_CODE + n|
    ensures ClientWrites(Bare(Payload(n, false))) == START_CODE + n <==> n[0] & 0x1f != 28
  {
    hide Bare;
    BareParts(Payload(n, false));
    assert RebuiltHeader(n[0], n[0]) == n[0];
    assert n == [n[0]] + n[1..];
    if n[0] & 0x1f != 28 {
      assert START_CODE + [n[0]] + n[1..] == START_CODE + n;
    } else {
      assert |ClientWrites(Bare(Payload(n, false)))| < |n| + 4;
    }
  }

  /** The second scheme and the client restore a NAL unit, F, NRI and type included, for every
      length; only an unfragmented NAL unit of type 28 does not survive. */
  lemma {:induction false} ClientRestores(n: Nal)
    requires n != [] && WellDefined(n)
    ensures |OfPayloads(ClientWrites, Pieces(n))| <= |START_CODE + n|
    ensures OfPayloads(ClientWrites, Pieces(n)) == START_CODE + n <==> ClientKeeps(n)
  {
    hide ClientWrites, PiecesFrom;
    if |n| <= RTP_PAYLOAD_MAX_SIZE {
      OfPayloadsOne(ClientWrites, Payload(n, false));
      ClientSingle(n);
    } else {
      PackArithmetic(|n|);
      ClientPieces(n, 0);
      assert START_CODE + [n[0]] + n[1..] == START_CODE + n;
    }
  }

  /** The two schemes, read by the same client, agree exactly when a fragmented NAL unit has F
      clear: the first scheme never carries that bit. */
  lemma {:induction false} SchemesAgreeExactly(m: Mux, n: Nal, last: bool)
    requires !m.aggregation && m.held == [] && n != []
    ensures OfPayloads(ClientWrites, NalPayloads(m, n, last)) == OfPayloads(ClientWrites, Pieces(n))
       <==> (|n| > RTP_PAYLOAD_MAX ==> n[0] & 0x80 == 0)
  {
    hide ClientWrites, PiecesFrom, FuFrom;
    if |n| <= RTP_PAYLOAD_MAX {
      OfPayloadsOne(ClientWrites, Payload(n, last));
      OfPayloadsOne(ClientWrites, Payload(n, false));
    } else {
      PackArithmetic(|n|);
      ClientPieces(n, 0);
      ClientFu(n, 1, last);
      assert Flush([]) + FuFrom(n, 1, last) == FuFrom(n, 1, last);
      FuKept(n);
      assert START_CODE + [n[0]] + n[1..] == Code(true) + n;
    }
  }

  lemma {:induction false} RunPiecesStep(seqNo: nat, timestamp: nat, ssrc: nat, tick: nat, nals: seq<Nal>)
    requires nals != []
    ensures Writes(ClientWrites, RunPieces(seqNo, timestamp, ssrc, tick, nals))
      == OfPayloads(ClientWrites, Pieces(nals[0]))
         + Writes(ClientWrites, RunPieces((seqNo + |Pieces(nals[0])|) % 0x1_0000, (timestamp + tick) % 0x1_0000_0000,
                                          ssrc, tick, nals[1..]))
  {
    hide ClientWrites, Pieces, Stamp, Writes, OfPayloads;
    var t, ps := (timestamp + tick) % 0x1_0000_0000, Pieces(nals[0]);
    ReceiversAreHeaderBlind();
    StampWrites(ClientWrites, seqNo + 1, t, ssrc, ps);
    WritesConcat(ClientWrites, Stamp(seqNo + 1, t, ssrc, ps),
                 RunPieces((seqNo + |ps|) % 0x1_0000, t, ssrc, tick, nals[1..]));
  }

  lemma {:induction false} JoinCons(nals: seq<Nal>)
    requires nals != []
    ensures Join(nals) == START_CODE + nals[0] + Join(nals[1..])
  {}

  lemma {:induction false} NothingToJoin(seqNo: nat, timestamp: nat, ssrc: nat, tick: nat)
    ensures Writes(ClientWrites, RunPieces(seqNo, timestamp, ssrc, tick, [])) == Join([])
  {}

  predicate Readable(nals: seq<Nal>) {
    forall n :: n in nals ==> n != [] && WellDefined(n)
  }

  /** The client's file is the joined stream exactly when every NAL unit is kept. */
  lemma {:induction false} ClientRun(seqNo: nat, timestamp: nat, ssrc: nat, tick: nat, nals: seq<Nal>)
    requires Readable(nals)
    ensures |Writes(ClientWrites, RunPieces(seqNo, timestamp, ssrc, tick, nals))| <= |Join(nals)|
    ensures Writes(ClientWrites, RunPieces(seqNo, timestamp, ssrc, tick, nals)) == Join(nals)
       <==> forall n :: n in nals ==> ClientKeeps(n)
    decreases |nals|
  {
    hide ClientWrites, Pieces, ClientKeeps, WellDefined, Writes, RunPieces, OfPayloads, Join;
    if nals == [] {
      NothingToJoin(seqNo, timestamp, ssrc, tick);
    } else {
      assert nals[0] in nals;
      ClientRestores(nals[0]);
      RunPiecesStep(seqNo, timestamp, ssrc, tick, nals);
      JoinCons(nals);
      var seqNo', timestamp' := (seqNo + |Pieces(nals[0])|) % 0x1_0000, (timestamp + tick) % 0x1_0000_0000;
      ClientRun(seqNo', timestamp', ssrc, tick, nals[1..]);
      SameConcat(OfPayloads(ClientWrites, Pieces(nals[0])),
                 Writes(ClientWrites, RunPieces(seqNo', timestamp', ssrc, tick, nals[1..])),
                 START_CODE + nals[0], Join(nals[1..]));
      assert forall n :: n in nals <==> n == nals[0] || n in nals[1..];
    }
  }

  /** Parser, second packetizer and client in a row, where the packetizer's pointer is set in time:
      whatever mix of start codes the file uses, the client's file holds every NAL unit but the
      last, each behind 00 00 00 01, exactly when all of those are kept. Nothing is asked of the
      last one but that the parser finds nothing in it. */
  lemma {:induction false} SecondSenderEndToEnd(seqNo: nat, timestamp: nat, ssrc: nat, tick: nat, long: seq<bool>,
                                                nals: seq<Nal>)
    requires |long| == |nals| > 0 && PlainButLast(nals) && Scan(nals[|nals| - 1], 0, 0, []).0.None?
    requires PointerSet(ParsedFrom(JoinWith(long, nals), 0))
    requires forall n :: n in nals[..|nals| - 1] ==> WellDefined(n)
    ensures ParsedFrom(JoinWith(long, nals), 0) == nals[..|nals| - 1]
    ensures Writes(ClientWrites, RunPieces(seqNo, timestamp, ssrc, tick, ParsedFrom(JoinWith(long, nals), 0)))
         == Join(nals[..|nals| - 1])
       <==> forall n :: n in nals[..|nals| - 1] ==> ClientKeeps(n)
  {
    hide ClientWrites, ClientKeeps, WellDefined, Plain, JoinWith, Join, ParsedFrom, RunPieces, Scan, PointerSet;
    var front := nals[..|nals| - 1];
    ParsedJoinExactly(long, nals);
    forall n | n in front ensures n != [] {
      var i :| 0 <= i < |front| && front[i] == n;
      PlainNonEmpty(nals[i]);
    }
    ClientRun(seqNo, timestamp, ssrc, tick, front);
  }
}
