/** rtp_parse on a run sent with aggregation: exactly when the data it writes are the NAL units, in
    order. What the bytes on its pipe are is a matter for PipeDelivery. */
module StapDelivery {
  import opened Bytes
  import opened AnnexB
  import opened Packets
  import opened Receivers
  import opened Delivery
  import opened PlayerDelivery
  import opened StapWalk

  // --- FU-A fragments ---

  /** The NAL units after the fragments from off on: a new one, or the last one extended. */
  function Extended(acc: seq<Nal>, n: Nal, off: nat, d: seq<Byte>): seq<Nal>
    requires n != [] && (off == 1 || acc != [])
  {
    if off == 1 then acc + [[n[0] & 0x7f] + d] else acc[..|acc| - 1] + [acc[|acc| - 1] + d]
  }

  lemma {:induction false} CollectData(acc: seq<Nal>, d: seq<Byte>)
    ensures Collect(acc, [Data(d)]) == CollectOne(acc, Data(d))
  {
    assert [Data(d)][1..] == [];
  }

  lemma {:induction false} CollectOpened(acc: seq<Nal>, key: Byte, d: seq<Byte>)
    ensures Collect(acc, [StartCode, Data([key])] + [Data(d)]) == acc + [[key] + d]
  {
    var es := [StartCode, Data([key])] + [Data(d)];
    var a1, a2 := acc + [[]], acc + [[key]];
    assert es[1..][1..][1..] == [];
    assert Collect(acc, es) == Collect(a1, es[1..]);
    assert a1[..|a1| - 1] == acc && [] + [key] == [key];
    assert es[1..][0] == Data([key]) && CollectOne(a1, Data([key])) == a2;
    assert Collect(a1, es[1..]) == Collect(a2, es[1..][1..]);
    assert a2[..|a2| - 1] == acc && a2[|a2| - 1] == [key];
    assert es[1..][1..][0] == Data(d) && CollectOne(a2, Data(d)) == acc + [[key] + d];
    assert Collect(a2, es[1..][1..]) == Collect(CollectOne(a2, Data(d)), es[1..][1..][1..]);
  }

  lemma {:induction false} ParserFragment(acc: seq<Nal>, n: Nal, off: nat, last: bool)
    requires 1 <= off <= |n| && (off == 1 || acc != [])
    ensures Collect(acc, ParseWrites(Bare(Fragment(n, off, last))))
         == Extended(acc, n, off, n[off..off + FuSize(n, off)])
  {
    hide At, FuIndicator, FuHeader, Bare, Fragment, Collect, Walk;
    var d, end := n[off..off + FuSize(n, off)], off + FuSize(n, off) == |n|;
    FragmentParts(n, off, last);
    FuBits(n, off == 1, end);
    var payload := Rest(Bare(Fragment(n, off, last)), RTP_OFFSET);
    PayloadParts(FuIndicator(n), FuHeader(n, off == 1, end), d);
    if off == 1 {
      CollectOpened(acc, n[0] & 0x7f, d);
    } else {
      CollectData(acc, d);
      assert [] + [Data(d)] == [Data(d)];
    }
  }

  lemma {:induction false} PayloadParts(a: Byte, b: Byte, d: seq<Byte>)
    ensures At([a, b] + d, 0) == a && At([a, b] + d, 1) == b && Rest([a, b] + d, 2) == d
  {}

  lemma {:induction false} ParserFu(acc: seq<Nal>, n: Nal, off: nat, last: bool)
    requires 1 <= off <= |n| && (off == 1 || acc != [])
    ensures Collect(acc, OfPayloads(ParseWrites, FuFrom(n, off, last))) == Extended(acc, n, off, n[off..])
    decreases |n| - off
  {
    hide ParseWrites, Fragment, Collect;
    var mid := off + FuSize(n, off);
    ParserFragment(acc, n, off, last);
    OfPayloadsOne(ParseWrites, Fragment(n, off, last));
    if mid == |n| {
      assert FuFrom(n, off, last) == [Fragment(n, off, last)] && n[off..mid] == n[off..];
    } else {
      var acc' := Extended(acc, n, off, n[off..mid]);
      OfPayloadsConcat(ParseWrites, [Fragment(n, off, last)], FuFrom(n, mid, last));
      CollectConcat(acc, ParseWrites(Bare(Fragment(n, off, last))), OfPayloads(ParseWrites, FuFrom(n, mid, last)));
      ParserFu(acc', n, mid, last);
      ExtendedTwice(acc, n, off, mid);
    }
  }

  lemma {:induction false} ExtendedTwice(acc: seq<Nal>, n: Nal, off: nat, mid: nat)
    requires 1 <= off < mid <= |n| && (off == 1 || acc != [])
    ensures Extended(Extended(acc, n, off, n[off..mid]), n, mid, n[mid..]) == Extended(acc, n, off, n[off..])
  {
    var open := if off == 1 then [n[0] & 0x7f] else acc[|acc| - 1];
    CutOne(n, open, off, mid);
  }

  // --- a whole run ---

  /** What travels together: the NAL units of one aggregate, or one unit in fragments. */
  datatype Shipment = Together(units: seq<Nal>) | InPieces(unit: Nal)

  /** The shipments for one NAL unit. */
  function NalShipments(m: Mux, n: Nal, last: bool): seq<Shipment> {
    if |n| > RTP_PAYLOAD_MAX then
      Flushed(m.held) + [InPieces(n)]
    else
      (if Full(m.held, n) then Flushed(m.held) else []) + (if last then [Together(Aggregate(m.held, n))] else [])
  }

  function Flushed(held: seq<Nal>): seq<Shipment> {
    if held == [] then [] else [Together(held)]
  }

  /** The shipments of a whole run. */
  function Shipments(m: Mux, nals: seq<Nal>): seq<Shipment>
    decreases |nals|
  {
    if nals == [] then []
    else
      var last := |nals| == 1;
      NalShipments(m, nals[0], last) + Shipments(AfterNal(m, nals[0], last), nals[1..])
  }

  /** The NAL units shipped, if need be with F cleared in those that travel in fragments. */
  function Sent(ss: seq<Shipment>, clearF: bool): seq<Nal> {
    if ss == [] then [] else SentUnits(ss[0], clearF) + Sent(ss[1..], clearF)
  }

  function SentUnits(s: Shipment, clearF: bool): seq<Nal> {
    if s.Together? then s.units else [if clearF then Received(s.unit) else s.unit]
  }

  /** The NAL units in the data writes for a run of shipments. */
  function Got(ss: seq<Shipment>): seq<Nal> {
    if ss == [] then [] else GotUnits(ss[0]) + Got(ss[1..])
  }

  function GotUnits(s: Shipment): seq<Nal> {
    if s.Together? then WalkUnits(Stap(s.units), 0) else [Received(s.unit)]
  }

  /** A NAL unit as it arrives in fragments: without the F bit. */
  function Received(n: Nal): Nal {
    if n == [] then [] else [n[0] & 0x7f] + n[1..]
  }

  /** The shipments that arrive as they were sent, or but for F. */
  predicate Whole(s: Shipment, clearF: bool) {
    if s.Together? then Upright(s.units) else clearF || (s.unit != [] ==> s.unit[0] & 0x80 == 0)
  }

  predicate AllWhole(ss: seq<Shipment>, clearF: bool) {
    forall i :: 0 <= i < |ss| ==> Whole(ss[i], clearF)
  }

  /** The runs in which every aggregate is upright. */
  predicate UprightRun(m: Mux, nals: seq<Nal>) {
    AllWhole(Shipments(m, nals), true)
  }

  /** The NAL units of a run, if need be with F cleared in those that are fragmented. */
  function Cleared(nals: seq<Nal>, clearF: bool): seq<Nal> {
    if nals == [] then [] else [ClearedOne(nals[0], clearF)] + Cleared(nals[1..], clearF)
  }

  function ClearedOne(n: Nal, clearF: bool): Nal {
    if clearF && |n| > RTP_PAYLOAD_MAX then Received(n) else n
  }

  lemma {:induction false} NothingCleared(nals: seq<Nal>)
    ensures Cleared(nals, false) == nals
  {
    if nals == [] {
    } else {
      NothingCleared(nals[1..]);
    }
  }

  /** What the sender packs: short units together, long ones in fragments. */
  predicate Proper(s: Shipment) {
    if s.Together? then s.units != [] && AllShort(s.units) else |s.unit| > RTP_PAYLOAD_MAX
  }

  predicate AllShort(hs: seq<Nal>) {
    forall i :: 0 <= i < |hs| ==> |hs[i]| <= RTP_PAYLOAD_MAX
  }

  predicate AllProper(ss: seq<Shipment>) {
    forall i :: 0 <= i < |ss| ==> Proper(ss[i])
  }

  // --- the shipments make up the run ---

  lemma {:induction false} SentBoth(a: seq<Shipment>, b: seq<Shipment>, clearF: bool)
    ensures Sent(a + b, clearF) == Sent(a, clearF) + Sent(b, clearF)
  {
    if a == [] {
      assert a + b == b;
    } else {
      HeadOfConcat(a, b);
      SentBoth(a[1..], b, clearF);
      Assoc(SentUnits(a[0], clearF), Sent(a[1..], clearF), Sent(b, clearF));
    }
  }

  lemma {:induction false} SentOne(s: Shipment, clearF: bool)
    ensures Sent([s], clearF) == SentUnits(s, clearF)
  {
    assert [s][1..] == [] && SentUnits(s, clearF) + [] == SentUnits(s, clearF);
  }

  lemma {:induction false} SentFlushed(held: seq<Nal>, clearF: bool)
    ensures Sent(Flushed(held), clearF) == held
  {
    if held == [] {
    } else {
      SentOne(Together(held), clearF);
    }
  }

  lemma {:induction false} SentNothing(clearF: bool)
    ensures Sent([], clearF) == []
  {}

  /** One step: what is shipped and what is still held are what was held and the next unit. */
  lemma {:induction false} NalShipped(m: Mux, n: Nal, last: bool, clearF: bool)
    requires m.aggregation
    ensures Sent(NalShipments(m, n, last), clearF) + NalHeld(m, n, last) == m.held + [ClearedOne(n, clearF)]
  {
    hide Full, Sent, Flushed;
    SentFlushed(m.held, clearF);
    SentNothing(clearF);
    if |n| > RTP_PAYLOAD_MAX {
      SentBoth(Flushed(m.held), [InPieces(n)], clearF);
      SentOne(InPieces(n), clearF);
    } else {
      var flushed := if Full(m.held, n) then Flushed(m.held) else [];
      var hs := Aggregate(m.held, n);
      SentBoth(flushed, if last then [Together(hs)] else [], clearF);
      SentOne(Together(hs), clearF);
      assert Sent(flushed, clearF) + hs == m.held + [n];
    }
  }

  /** A run ships the units held before it and its own, in order, and holds none back. */
  lemma {:induction false} RunShipped(m: Mux, nals: seq<Nal>, clearF: bool)
    requires m.aggregation && (nals == [] ==> m.held == [])
    ensures Sent(Shipments(m, nals), clearF) == m.held + Cleared(nals, clearF)
    ensures AfterRun(m, nals).held == []
    decreases |nals|
  {
    hide NalShipments, NalPayloads, Aggregate, Sent, ClearedOne;
    if nals == [] {
      SentNothing(clearF);
    } else {
      var last, n := |nals| == 1, nals[0];
      var m' := AfterNal(m, n, last);
      SentBoth(NalShipments(m, n, last), Shipments(m', nals[1..]), clearF);
      NalShipped(m, n, last, clearF);
      RunShipped(m', nals[1..], clearF);
      Assoc(Sent(NalShipments(m, n, last), clearF), m'.held, Cleared(nals[1..], clearF));
      Assoc(m.held, [ClearedOne(n, clearF)], Cleared(nals[1..], clearF));
    }
  }

  // --- what is read from them ---

  lemma {:induction false} GotBoth(a: seq<Shipment>, b: seq<Shipment>)
    ensures Got(a + b) == Got(a) + Got(b)
  {
    hide GotUnits;
    if a == [] {
      assert a + b == b;
    } else {
      HeadOfConcat(a, b);
      GotBoth(a[1..], b);
      Assoc(GotUnits(a[0]), Got(a[1..]), Got(b));
    }
  }

  lemma {:induction false} GotOne(s: Shipment)
    ensures Got([s]) == GotUnits(s)
  {
    hide GotUnits;
    assert [s][1..] == [] && GotUnits(s) + [] == GotUnits(s);
  }

  lemma {:induction false} TogetherRead(acc: seq<Nal>, hs: seq<Nal>, mark: bool)
    requires hs != []
    ensures Collect(acc, OfPayloads(ParseWrites, [Payload(Stap(hs), mark)])) == acc + Got([Together(hs)])
  {
    hide ParseWrites, Stap, Bare, Collect, Got, WalkUnits;
    OfPayloadsOne(ParseWrites, Payload(Stap(hs), mark));
    StapRead(hs, mark, acc);
    GotOne(Together(hs));
  }

  lemma {:induction false} GotNothing()
    ensures Got([]) == []
  {}

  lemma {:induction false} NothingRead(acc: seq<Nal>)
    ensures Collect(acc, OfPayloads(ParseWrites, [])) == acc + Got([])
  {
    assert acc + [] == acc;
  }

  lemma {:induction false} FlushRead(acc: seq<Nal>, held: seq<Nal>)
    ensures Collect(acc, OfPayloads(ParseWrites, Flush(held))) == acc + Got(Flushed(held))
  {
    hide ParseWrites, Stap, Collect, OfPayloads, Got;
    if held == [] {
      NothingRead(acc);
    } else {
      TogetherRead(acc, held, false);
    }
  }

  lemma {:induction false} PiecesRead(acc: seq<Nal>, n: Nal, last: bool)
    requires n != []
    ensures Collect(acc, OfPayloads(ParseWrites, FuFrom(n, 1, last))) == acc + Got([InPieces(n)])
  {
    hide ParseWrites, Collect, OfPayloads, Got, FuFrom;
    ParserFu(acc, n, 1, last);
    GotOne(InPieces(n));
  }

  /** Two groups of payloads, one behind the other. */
  lemma {:induction false} ReadBoth(acc: seq<Nal>, ps: seq<Payload>, qs: seq<Payload>, a: seq<Shipment>,
                                    b: seq<Shipment>)
    requires Collect(acc, OfPayloads(ParseWrites, ps)) == acc + Got(a)
    requires Collect(acc + Got(a), OfPayloads(ParseWrites, qs)) == acc + Got(a) + Got(b)
    ensures Collect(acc, OfPayloads(ParseWrites, ps + qs)) == acc + Got(a + b)
  {
    hide ParseWrites, Collect, OfPayloads, Got;
    OfPayloadsConcat(ParseWrites, ps, qs);
    CollectConcat(acc, OfPayloads(ParseWrites, ps), OfPayloads(ParseWrites, qs));
    GotBoth(a, b);
    Assoc(acc, Got(a), Got(b));
  }

  /** The data writes for one NAL unit, from any state. */
  lemma {:induction false} NalRead(m: Mux, n: Nal, last: bool, acc: seq<Nal>)
    requires m.aggregation
    ensures Collect(acc, OfPayloads(ParseWrites, NalPayloads(m, n, last))) == acc + Got(NalShipments(m, n, last))
  {
    hide ParseWrites, Stap, FuFrom, Collect, OfPayloads, Got, Full, Flush, Flushed;
    FlushRead(acc, m.held);
    NothingRead(acc);
    if |n| > RTP_PAYLOAD_MAX {
      PiecesRead(acc + Got(Flushed(m.held)), n, last);
      ReadBoth(acc, Flush(m.held), FuFrom(n, 1, last), Flushed(m.held), [InPieces(n)]);
    } else {
      var ps, a := if Full(m.held, n) then Flush(m.held) else [], if Full(m.held, n) then Flushed(m.held) else [];
      var hs := Aggregate(m.held, n);
      TogetherRead(acc + Got(a), hs, true);
      NothingRead(acc + Got(a));
      if last {
        ReadBoth(acc, ps, [Payload(Stap(hs), true)], a, [Together(hs)]);
      } else {
        ReadBoth(acc, ps, [], a, []);
      }
    }
  }

  /** Aggregating mode, end to end: the walk and the reassembly over all packets of any run, fed in
      order. */
  lemma {:induction false} AggregatedRun(m: Mux, nals: seq<Nal>, acc: seq<Nal>)
    requires m.aggregation
    ensures Collect(acc, Writes(ParseWrites, RunPackets(m, nals))) == acc + Got(Shipments(m, nals))
    decreases |nals|
  {
    hide ParseWrites, Collect, NalPayloads, OfPayloads, NalShipments, Got;
    if nals == [] {
      GotNothing();
      NothingCollected(acc);
      assert acc + [] == acc;
    } else {
      var last, n := |nals| == 1, nals[0];
      var m' := AfterNal(m, n, last);
      ReceiversAreHeaderBlind();
      RunWritesStep(ParseWrites, m, nals);
      var es := OfPayloads(ParseWrites, NalPayloads(m, n, last));
      CollectConcat(acc, es, Writes(ParseWrites, RunPackets(m', nals[1..])));
      NalRead(m, n, last, acc);
      AggregatedRun(m', nals[1..], Collect(acc, es));
      GotBoth(NalShipments(m, n, last), Shipments(m', nals[1..]));
      Assoc(acc, Got(NalShipments(m, n, last)), Got(Shipments(m', nals[1..])));
    }
  }

  // --- exactly when it is what was sent ---

  lemma {:induction false} ReceivedOne(n: Nal)
    ensures Received(n) == n <==> Whole(InPieces(n), false)
  {
    if n != [] {
      assert n == [n[0]] + n[1..];
      assert Received(n)[0] == n[0] & 0x7f;
      assert n[0] & 0x7f == n[0] <==> n[0] & 0x80 == 0;
    }
  }

  /** Of two ways to cut one sequence in two, the shorter head begins the longer one. */
  lemma {:induction false} TwoCuts<T>(x: seq<T>, x': seq<T>, y: seq<T>, y': seq<T>)
    requires x + x' == y + y'
    ensures |x| >= |y| ==> y <= x
    ensures |x| < |y| ==> x <= y && x' == y[|x|..] + y'
  {
    if |x| >= |y| {
      assert (x + x')[..|y|] == x[..|y|] && (y + y')[..|y|] == y;
    } else {
      assert (x + x')[..|x|] == x && (y + y')[..|x|] == y[..|x|];
      assert (x + x')[|x|..] == x' && (y + y')[|x|..] == y[|x|..] + y';
    }
  }

  /** Once the units read are behind those sent, they stay behind. */
  lemma {:induction false} StaysBehind(missing: seq<Nal>, ss: seq<Shipment>, clearF: bool)
    requires missing != [] && AllProper(ss)
    ensures Got(ss) != missing + Sent(ss, clearF)
    decreases |ss|
  {
    hide GotUnits, Proper;
    if ss == [] {
    } else if Got(ss) == missing + Sent(ss, clearF) {
      var g, h := GotUnits(ss[0]), missing + SentUnits(ss[0], clearF);
      Assoc(missing, SentUnits(ss[0], clearF), Sent(ss[1..], clearF));
      TwoCuts(g, Got(ss[1..]), h, Sent(ss[1..], clearF));
      ShipmentBehind(missing, ss[0], clearF);
      StaysBehind(h[|g|..], ss[1..], clearF);
    }
  }

  lemma {:induction false} ShipmentBehind(missing: seq<Nal>, s: Shipment, clearF: bool)
    requires missing != [] && Proper(s)
    ensures !(missing + SentUnits(s, clearF) <= GotUnits(s))
  {
    hide WalkUnits, Stap;
    if s.Together? {
      NeverAfterOthers(s.units, missing);
    }
  }

  lemma {:induction false} ShipmentExactly(s: Shipment, clearF: bool)
    requires Proper(s)
    ensures GotUnits(s) == SentUnits(s, clearF) <==> Whole(s, clearF)
    ensures SentUnits(s, clearF) <= GotUnits(s) ==> Whole(s, clearF)
  {
    hide WalkUnits, Stap, Upright, Aligned;
    if s.Together? {
      StapAligned(s.units);
      WalkExactly(Stap(s.units), 0, s.units);
    } else {
      ReceivedOne(s.unit);
      var g, h := GotUnits(s), SentUnits(s, clearF);
      assert g == h <==> g[0] == h[0];
      assert h <= g ==> h[0] == g[0];
    }
  }

  /** A run of shipments is read as it was sent exactly when each of them is: what one of them loses
      no later one makes up for. */
  lemma {:induction false} ShipmentsExactly(ss: seq<Shipment>, clearF: bool)
    requires AllProper(ss)
    ensures Got(ss) == Sent(ss, clearF) <==> AllWhole(ss, clearF)
    decreases |ss|
  {
    hide GotUnits, SentUnits, Proper, Whole;
    if ss == [] {
    } else {
      var s, g, h := ss[0], GotUnits(ss[0]), SentUnits(ss[0], clearF);
      assert AllProper(ss[1..]);
      ShipmentExactly(s, clearF);
      ShipmentsExactly(ss[1..], clearF);
      AllWholeStep(ss, clearF);
      if Got(ss) == Sent(ss, clearF) {
        TwoCuts(g, Got(ss[1..]), h, Sent(ss[1..], clearF));
        if |g| < |h| {
          StaysBehind(h[|g|..], ss[1..], clearF);
          assert false;
        }
        assert h + Got(ss[1..]) == h + Sent(ss[1..], clearF);
        assert (h + Got(ss[1..]))[|h|..] == (h + Sent(ss[1..], clearF))[|h|..];
      }
    }
  }

  lemma {:induction false} NalProper(m: Mux, n: Nal, last: bool)
    requires AllShort(m.held)
    ensures AllProper(NalShipments(m, n, last)) && AllShort(NalHeld(m, n, last))
  {
    hide Full;
    assert |n| <= RTP_PAYLOAD_MAX ==> AllShort(Aggregate(m.held, n));
  }

  lemma {:induction false} RunProper(m: Mux, nals: seq<Nal>)
    requires AllShort(m.held)
    ensures AllProper(Shipments(m, nals))
    decreases |nals|
  {
    hide NalShipments, NalPayloads, NalHeld, AllShort, Proper;
    if nals == [] {
    } else {
      NalProper(m, nals[0], |nals| == 1);
      RunProper(AfterNal(m, nals[0], |nals| == 1), nals[1..]);
    }
  }

  /** The shipments of a run that starts with nothing held. */
  lemma {:induction false} RunMadeUp(m: Mux, nals: seq<Nal>)
    requires m.aggregation && m.held == []
    ensures AllProper(Shipments(m, nals)) && Sent(Shipments(m, nals), false) == nals
    ensures AfterRun(m, nals).held == []
  {
    hide Shipments, Sent, AllProper, Cleared, AfterRun;
    RunProper(m, nals);
    RunShipped(m, nals, false);
    NothingCleared(nals);
    assert [] + nals == nals;
  }

  /** Every fragmented NAL unit has F clear. */
  predicate ClearF(nals: seq<Nal>) {
    forall n: Nal :: n in nals && |n| > RTP_PAYLOAD_MAX ==> n[0] & 0x80 == 0
  }

  lemma {:induction false} ClearFBoth(a: seq<Nal>, b: seq<Nal>)
    ensures ClearF(a + b) <==> ClearF(a) && ClearF(b)
  {
    if ClearF(a + b) {
      forall n: Nal | n in a && |n| > RTP_PAYLOAD_MAX ensures n[0] & 0x80 == 0 {
        assert n in a + b;
      }
      forall n: Nal | n in b && |n| > RTP_PAYLOAD_MAX ensures n[0] & 0x80 == 0 {
        assert n in a + b;
      }
    }
  }

  lemma {:induction false} WholeOrClearF(ss: seq<Shipment>)
    requires AllProper(ss)
    ensures AllWhole(ss, false) <==> AllWhole(ss, true) && ClearF(Sent(ss, false))
    decreases |ss|
  {
    hide Upright, ClearF;
    if ss == [] {
      assert ClearF([]) by {
        NoneToClear();
      }
    } else {
      WholeOrClearF(ss[1..]);
      ShipmentClearF(ss[0]);
      ClearFBoth(SentUnits(ss[0], false), Sent(ss[1..], false));
      AllWholeStep(ss, false);
      AllWholeStep(ss, true);
    }
  }

  lemma {:induction false} NoneToClear()
    ensures ClearF([])
  {}

  lemma {:induction false} ShipmentClearF(s: Shipment)
    requires Proper(s)
    ensures Whole(s, false) <==> Whole(s, true) && ClearF(SentUnits(s, false))
  {
    hide Upright;
    if s.InPieces? {
      assert s.unit in [s.unit];
    }
  }

  lemma {:induction false} AllWholeStep(ss: seq<Shipment>, clearF: bool)
    requires ss != []
    ensures AllWhole(ss, clearF) <==> Whole(ss[0], clearF) && AllWhole(ss[1..], clearF)
  {
    hide Whole;
    if Whole(ss[0], clearF) && AllWhole(ss[1..], clearF) {
      forall i | 0 <= i < |ss| ensures Whole(ss[i], clearF) {
        assert i > 0 ==> ss[i] == ss[1..][i - 1];
      }
    }
  }

  /** The NAL units come back, but for F where that is cleared, exactly when every aggregate is
      upright; and unchanged exactly when every fragmented unit has F clear as well. */
  lemma {:induction false} AggregatedEndToEnd(m: Mux, nals: seq<Nal>)
    requires m.aggregation && m.held == []
    ensures Collect([], Writes(ParseWrites, RunPackets(m, nals))) == Cleared(nals, true) <==> UprightRun(m, nals)
    ensures Collect([], Writes(ParseWrites, RunPackets(m, nals))) == nals <==> UprightRun(m, nals) && ClearF(nals)
  {
    hide ParseWrites, Collect, RunPackets, Shipments, Got, Sent, AllWhole, AllProper, Cleared, ClearF;
    var ss := Shipments(m, nals);
    AggregatedRun(m, nals, []);
    assert [] + Got(ss) == Got(ss);
    RunMadeUp(m, nals);
    RunShipped(m, nals, true);
    assert [] + Cleared(nals, true) == Cleared(nals, true);
    ShipmentsExactly(ss, true);
    ShipmentsExactly(ss, false);
    WholeOrClearF(ss);
  }

  /** The same from the stream on: joined with start codes of either length, split by the sender,
      sent, unpacked. */
  lemma {:induction false} AggregatedStreamEndToEnd(m: Mux, long: seq<bool>, nals: seq<Nal>)
    requires m.aggregation && m.held == []
    requires |long| == |nals| && Splittable(long, nals)
    ensures Collect([], Writes(ParseWrites, RunPackets(m, Split(JoinWith(long, nals))))) == nals
       <==> UprightRun(m, nals) && ClearF(nals)
    ensures AfterRun(m, Split(JoinWith(long, nals))).held == []
  {
    hide Splittable, Split, JoinWith, Collect, Writes, RunPackets, AfterRun, ParseWrites, UprightRun, Shipments, Sent,
      ClearF;
    SplitJoinWith(long, nals);
    AggregatedEndToEnd(m, nals);
    RunMadeUp(m, nals);
  }

  // --- which runs those are ---

  predicate Filled(hs: seq<Nal>) {
    forall i :: 0 <= i < |hs| ==> hs[i] != []
  }

  lemma {:induction false} FilledNal(m: Mux, n: Nal, last: bool)
    requires Filled(m.held) && (last || n != [])
    ensures AllWhole(NalShipments(m, n, last), true) && Filled(NalHeld(m, n, last))
  {
    hide Full;
  }

  /** A run of which at most the last unit is empty is upright. */
  lemma {:induction false} FilledIsUpright(m: Mux, nals: seq<Nal>)
    requires Filled(m.held) && forall i :: 0 <= i < |nals| - 1 ==> nals[i] != []
    ensures UprightRun(m, nals)
    decreases |nals|
  {
    hide NalShipments, NalPayloads, NalHeld, Whole;
    if nals == [] {
    } else {
      FilledNal(m, nals[0], |nals| == 1);
      FilledIsUpright(AfterNal(m, nals[0], |nals| == 1), nals[1..]);
    }
  }

  /** A fragmented unit flushes the empty one in front of it: the run comes back. */
  lemma {:induction false} EmptyThenFragmented(m: Mux, n: Nal)
    requires m.aggregation && m.held == [] && |n| > RTP_PAYLOAD_MAX && n[0] & 0x80 == 0
    ensures Collect([], Writes(ParseWrites, RunPackets(m, [[], n]))) == [[], n]
  {
    hide ParseWrites, Collect, RunPackets, Writes;
    var nals := [[], n];
    var m' := AfterNal(m, [], false);
    assert nals[1..] == [n] && [n][1..] == [];
    assert !Full([], []) && NalShipments(m, [], false) == [] && m'.held == [[]];
    assert NalShipments(m', n, true) == [Together([[]]), InPieces(n)];
    assert Shipments(m', [n]) == NalShipments(m', n, true) + [];
    assert Shipments(m, nals) == [Together([[]]), InPieces(n)];
    AggregatedEndToEnd(m, nals);
  }

  /** A stream with two adjacent start codes, whose units do not come back: the empty one between
      them and the one-byte unit behind it travel together. */
  lemma {:induction false} StumbleStream(m: Mux, x: Byte)
    requires m.aggregation && m.held == []
    ensures var nals := Split([0, 0, 1, 0, 0, 1, x]);
      nals == [[], [x]] && Collect([], Writes(ParseWrites, RunPackets(m, nals))) != nals
  {
    hide ParseWrites, Collect, RunPackets, Writes, Split;
    var nals: seq<Nal> := [[], [x]];
    assert nals[1..] == [[x]] && [[x]][1..] == [];
    TwoCodes(x);
    var m' := AfterNal(m, [], false);
    assert !Full([], []) && NalShipments(m, [], false) == [] && m'.held == [[]];
    assert StapBody([[]]) == Be16(0) + [] + [] && !Full([[]], [x]);
    assert m'.held + [[x]] == nals && Aggregate(m'.held, [x]) == nals;
    assert NalShipments(m', [x], true) == [] + [Together(nals)] == [Together(nals)];
    assert Shipments(m', [[x]]) == NalShipments(m', [x], true) + [];
    assert Shipments(m, nals) == [Together(nals)];
    assert nals[0] == [] && !Upright(nals);
    assert !Whole(Shipments(m, nals)[0], true);
    AggregatedEndToEnd(m, nals);
  }

  lemma {:induction false} TwoCodes(x: Byte)
    ensures Split([0, 0, 1, 0, 0, 1, x]) == [[], [x]]
  {
    hide Split;
    var long, nals: seq<Nal> := [false, false], [[], [x]];
    assert nals[1..] == [[x]] && long[1..] == [false] && long[1..][1..] == [] && nals[1..][1..] == [];
    assert JoinWith([], []) == [];
    assert JoinWith(long[1..], nals[1..]) == [0, 0, 1, x];
    assert JoinWith(long, nals) == [0, 0, 1, 0, 0, 1, x];
    assert Splittable(long, nals);
    SplitJoinWith(long, nals);
  }
}
