/** Sender and receivers together: packets delivered in order and without loss. */
module Delivery {
  import opened Bytes
  import opened Packets
  import opened Receivers

  // --- what a receiver writes for a run of packets ---

  /** All that a receiver, given by what it writes for one packet, writes for these packets. */
  function Writes<T>(f: seq<Byte> -> seq<T>, pkts: seq<seq<Byte>>): seq<T> {
    if pkts == [] then [] else f(pkts[0]) + Writes(f, pkts[1..])
  }

  lemma {:induction false} WritesConcat<T>(f: seq<Byte> -> seq<T>, a: seq<seq<Byte>>, b: seq<seq<Byte>>)
    ensures Writes(f, a + b) == Writes(f, a) + Writes(f, b)
  {
    if a == [] {
      assert a + b == b;
    } else {
      WritesConcat(f, a[1..], b);
      HeadOfConcat(a, b);
      Assoc(f(a[0]), Writes(f, a[1..]), Writes(f, b));
    }
  }

  /** The same for payloads, whatever their RTP headers. */
  function OfPayloads<T>(f: seq<Byte> -> seq<T>, ps: seq<Payload>): seq<T> {
    if ps == [] then [] else f(Bare(ps[0])) + OfPayloads(f, ps[1..])
  }

  function Bare(p: Payload): seq<Byte> {
    Packet(0, 0, 0, Payload(p.bytes, false))
  }

  lemma {:induction false} OfPayloadsConcat<T>(f: seq<Byte> -> seq<T>, a: seq<Payload>, b: seq<Payload>)
    ensures OfPayloads(f, a + b) == OfPayloads(f, a) + OfPayloads(f, b)
  {
    if a == [] {
      assert a + b == b;
    } else {
      OfPayloadsConcat(f, a[1..], b);
      HeadOfConcat(a, b);
      Assoc(f(Bare(a[0])), OfPayloads(f, a[1..]), OfPayloads(f, b));
    }
  }

  lemma {:induction false} OfPayloadsOne<T>(f: seq<Byte> -> seq<T>, p: Payload)
    ensures OfPayloads(f, [p]) == f(Bare(p))
  {
    assert [p][1..] == [];
  }

  /** The receiver looks only at what follows the RTP header. */
  ghost predicate HeaderBlind<T>(f: seq<Byte> -> seq<T>) {
    forall h: seq<Byte>, b: seq<Byte> :: |h| == RTP_OFFSET ==> f(h + b) == f(Header(0, 0, 0, false) + b)
  }

  lemma {:induction false} RestAt(h: seq<Byte>, b: seq<Byte>, i: nat)
    ensures At(h + b, |h| + i) == At(b, i) && Rest(h + b, |h| + i) == Rest(b, i)
  {
    if i <= |b| {
      assert (h + b)[|h| + i..] == b[i..];
    }
  }

  ghost predicate SameBehindHeader(p: seq<Byte>, q: seq<Byte>) {
    && At(p, RTP_OFFSET) == At(q, RTP_OFFSET) && At(p, RTP_OFFSET + 1) == At(q, RTP_OFFSET + 1)
    && Rest(p, RTP_OFFSET) == Rest(q, RTP_OFFSET) && Rest(p, RTP_OFFSET + 1) == Rest(q, RTP_OFFSET + 1)
    && Rest(p, FU_OFFSET) == Rest(q, FU_OFFSET)
  }

  lemma {:induction false} BehindHeader(h: seq<Byte>, b: seq<Byte>)
    requires |h| == RTP_OFFSET
    ensures SameBehindHeader(h + b, Header(0, 0, 0, false) + b)
  {
    hide At, Rest, Header;
    var h0 := Header(0, 0, 0, false);
    RestAt(h, b, 0);
    RestAt(h, b, 1);
    RestAt(h, b, 2);
    RestAt(h0, b, 0);
    RestAt(h0, b, 1);
    RestAt(h0, b, 2);
  }

  lemma {:induction false} SameWrites(p: seq<Byte>, q: seq<Byte>)
    requires SameBehindHeader(p, q)
    ensures PlayerWrites(p) == PlayerWrites(q) && ClientWrites(p) == ClientWrites(q) && ParseWrites(p) == ParseWrites(q)
  {
    hide RebuiltHeader, Walk, Rest, At;
  }

  lemma {:induction false} ReceiversAreHeaderBlind()
    ensures HeaderBlind(PlayerWrites) && HeaderBlind(ClientWrites) && HeaderBlind(ParseWrites)
  {
    hide PlayerWrites, ClientWrites, ParseWrites, Header;
    forall h: seq<Byte>, b: seq<Byte> | |h| == RTP_OFFSET
      ensures PlayerWrites(h + b) == PlayerWrites(Header(0, 0, 0, false) + b)
      ensures ClientWrites(h + b) == ClientWrites(Header(0, 0, 0, false) + b)
      ensures ParseWrites(h + b) == ParseWrites(Header(0, 0, 0, false) + b)
    {
      BehindHeader(h, b);
      SameWrites(h + b, Header(0, 0, 0, false) + b);
    }
  }

  lemma {:induction false} StampWrites<T>(f: seq<Byte> -> seq<T>, seqNo: nat, timestamp: nat, ssrc: nat,
                                          ps: seq<Payload>)
    requires HeaderBlind(f)
    ensures Writes(f, Stamp(seqNo, timestamp, ssrc, ps)) == OfPayloads(f, ps)
    decreases |ps|
  {
    hide Stamp, Header;
    if ps == [] {
    } else {
      var h := Header(seqNo, timestamp, ssrc, ps[0].mark);
      StampCons(seqNo, timestamp, ssrc, ps);
      StampWrites(f, seqNo + 1, timestamp, ssrc, ps[1..]);
      assert f(h + ps[0].bytes) == f(Bare(ps[0]));
    }
  }

  /** What a receiver writes for a whole run, NAL unit by NAL unit. */
  lemma {:induction false} RunWritesStep<T>(f: seq<Byte> -> seq<T>, m: Mux, nals: seq<Nal>)
    requires HeaderBlind(f) && nals != []
    ensures var last := |nals| == 1;
      Writes(f, RunPackets(m, nals))
      == OfPayloads(f, NalPayloads(m, nals[0], last)) + Writes(f, RunPackets(AfterNal(m, nals[0], last), nals[1..]))
  {
    hide NalPayloads, AfterNal, Stamp;
    var last := |nals| == 1;
    WritesConcat(f, NalPackets(m, nals[0], last), RunPackets(AfterNal(m, nals[0], last), nals[1..]));
    StampWrites(f, m.seqNo, m.timestamp, m.ssrc, NalPayloads(m, nals[0], last));
  }
}
