/** The three receivers side by side, on any packet: which packets each of them drops, and where the
    player and the client agree. */
module ReceiversApart {
  import opened Bytes
  import opened Receivers

  /** The NAL unit type of a packet's payload. */
  function TypeAt(pkt: seq<Byte>): Byte {
    At(pkt, 12) & 0x1f
  }

  predicate Starts(pkt: seq<Byte>) {
    At(pkt, 13) & 0x80 != 0
  }

  predicate Ends(pkt: seq<Byte>) {
    At(pkt, 13) & 0x40 != 0
  }

  lemma {:induction false} FragmentFlags(pkt: seq<Byte>)
    ensures At(pkt, 13) >> 7 == 1 <==> Starts(pkt)
    ensures (At(pkt, 13) >> 6) & 1 == 1 <==> Ends(pkt)
  {
    hide At;
    FlagBits(At(pkt, 13));
  }

  lemma {:induction false} FlagBits(b: Byte)
    ensures (b >> 7 == 1 <==> b & 0x80 != 0) && ((b >> 6) & 1 == 1 <==> b & 0x40 != 0)
  {}

  /** The player writes nothing for aggregates, interleaved packets, FU-B and the undefined types above
      them, and for an empty fragment that does not start a unit. */
  lemma {:induction false} PlayerDropsExactly(pkt: seq<Byte>)
    requires Receivable(pkt)
    ensures PlayerWrites(pkt) == [] <==>
      TypeAt(pkt) in {24, 25, 26, 27, 29, 30, 31} || (TypeAt(pkt) == 28 && !Starts(pkt) && |pkt| == 14)
  {
    hide RebuiltHeader;
    FragmentFlags(pkt);
  }

  /** The client writes something for every packet but an empty fragment that ends or goes on. */
  lemma {:induction false} ClientDropsExactly(pkt: seq<Byte>)
    requires Receivable(pkt)
    ensures ClientWrites(pkt) == [] <==> TypeAt(pkt) == 28 && |pkt| == 14 && (Ends(pkt) || !Starts(pkt))
  {
    hide RebuiltHeader;
    FragmentFlags(pkt);
  }

  /** rtp_parse writes nothing for type 0, for the types between and above those it knows, and for an
      aggregate without a byte behind its header. */
  lemma {:induction false} ParserDropsExactly(pkt: seq<Byte>)
    requires Receivable(pkt)
    ensures ParseWrites(pkt) == [] <==>
      TypeAt(pkt) in {0, 25, 26, 27, 29, 30, 31} || (TypeAt(pkt) == 24 && |pkt| == 13)
  {
    hide Padded;
    var payload := Rest(pkt, 12);
    assert At(payload, 0) == At(pkt, 12);
  }

  /** The player and the client write the same for exactly the packets of a type below 24 and the
      fragments that do not both start and end a unit. */
  lemma {:induction false} PlayerAndClientAgreeExactly(pkt: seq<Byte>)
    requires Receivable(pkt) && |pkt| > 12
    ensures PlayerWrites(pkt) == ClientWrites(pkt) <==>
      TypeAt(pkt) < 24 || (TypeAt(pkt) == 28 && !(Starts(pkt) && Ends(pkt)))
    ensures TypeAt(pkt) != 28 ==> ClientWrites(pkt) == [0, 0, 0, 1] + pkt[12..]
    ensures TypeAt(pkt) == 28 && Ends(pkt) ==> ClientWrites(pkt) == pkt[14..]
  {
    hide RebuiltHeader, At, Rest;
    FragmentFlags(pkt);
    SameHeader(pkt[12]);
    Behind(pkt);
    Lengths(RebuiltHeader(At(pkt, 12), At(pkt, 13)), pkt[12..], Rest(pkt, 14));
  }

  lemma {:induction false} Behind(pkt: seq<Byte>)
    requires |pkt| > 12
    ensures At(pkt, 12) == pkt[12] && Rest(pkt, 12) == pkt[12..] && Rest(pkt, 13) == pkt[13..]
    ensures START_CODE + [pkt[12]] + pkt[13..] == START_CODE + pkt[12..]
    ensures |pkt| >= 14 ==> Rest(pkt, 14) == pkt[14..]
  {
    assert pkt[12..] == [pkt[12]] + pkt[13..];
  }

  /** A start code more, or less, is noticed. */
  lemma {:induction false} Lengths(h: Byte, x: seq<Byte>, y: seq<Byte>)
    ensures START_CODE + [h] + y != y && START_CODE + x != []
  {
    assert |START_CODE + [h] + y| == 5 + |y| && |START_CODE + x| == 4 + |x|;
  }

  lemma {:induction false} SameHeader(b: Byte)
    ensures RebuiltHeader(b, b) == b
  {}
}
