/** The bytes that rtp_parse sends down its pipe. The reader behind the pipe sees no more than
    these: the size byte in front of an aggregated NAL unit is one of them. */
module PipeDelivery {
  import opened Bytes
  import opened AnnexB
  import opened Packets
  import opened Receivers
  import opened Delivery
  import opened PlayerDelivery
  import opened StapDelivery
  import opened StapWalk
  import opened SecondPacketizer
  import opened ClientDelivery

  function EventBytes(e: Event): seq<Byte> {
    match e
    case StartCode => START_CODE
    case SizeByte(low) => [low]
    case Data(d) => d
  }

  function PipeBytes(es: seq<Event>): seq<Byte> {
    if es == [] then [] else EventBytes(es[0]) + PipeBytes(es[1..])
  }

  lemma {:induction false} PipeConcat(a: seq<Event>, b: seq<Event>)
    ensures PipeBytes(a + b) == PipeBytes(a) + PipeBytes(b)
  {
    hide EventBytes;
    if a == [] {
      assert a + b == b;
    } else {
      HeadOfConcat(a, b);
      PipeConcat(a[1..], b);
      Assoc(EventBytes(a[0]), PipeBytes(a[1..]), PipeBytes(b));
    }
  }

  lemma {:induction false} PipeOne(e: Event)
    ensures PipeBytes([e]) == EventBytes(e)
  {
    hide EventBytes;
    assert [e][1..] == [] && EventBytes(e) + [] == EventBytes(e);
  }

  // --- aggregates ---

  /** An aggregated NAL unit on the pipe: behind the start code the low byte of its size. */
  function UnitBytes(h: Nal): seq<Byte> {
    START_CODE + [Be16(|h|)[1]] + h
  }

  function UnitsBytes(hs: seq<Nal>): seq<Byte> {
    if hs == [] then [] else UnitBytes(hs[0]) + UnitsBytes(hs[1..])
  }

  lemma {:induction false} UnitsConcat(a: seq<Nal>, b: seq<Nal>)
    ensures UnitsBytes(a + b) == UnitsBytes(a) + UnitsBytes(b)
  {
    hide UnitBytes;
    if a == [] {
      assert a + b == b;
    } else {
      HeadOfConcat(a, b);
      UnitsConcat(a[1..], b);
      Assoc(UnitBytes(a[0]), UnitsBytes(a[1..]), UnitsBytes(b));
    }
  }

  lemma {:induction false} UnitsOne(h: Nal)
    ensures UnitsBytes([h]) == UnitBytes(h)
  {
    hide UnitBytes;
    assert [h][1..] == [] && UnitBytes(h) + [] == UnitBytes(h);
  }

  /** One round of the walk on the pipe. */
  lemma {:induction false} RoundBytes(payload: seq<Byte>, nidx: nat, unit: Nal, es: seq<Event>)
    requires |unit| == ReadSize(payload, nidx)
    ensures var head := [StartCode] + [SizeByte(At(payload, nidx + 2))];
      && PipeBytes(head + [Data(unit)] + es) == UnitBytes(unit) + PipeBytes(es)
      && (unit == [] ==> PipeBytes(head + es) == UnitBytes(unit) + PipeBytes(es))
  {
    hide PipeBytes, Be16, At, ReadSize;
    var low := At(payload, nidx + 2);
    var head := [StartCode] + [SizeByte(low)];
    SizeLow(payload, nidx, |unit|);
    PipeConcat([StartCode], [SizeByte(low)]);
    PipeConcat(head, [Data(unit)]);
    PipeConcat(head + [Data(unit)], es);
    PipeConcat(head, es);
    PipeOne(StartCode);
    PipeOne(SizeByte(low));
    PipeOne(Data(unit));
    assert START_CODE + [low] + [] == START_CODE + [low];
  }

  /** The size byte is the low byte of the size read. */
  lemma {:induction false} SizeLow(payload: seq<Byte>, nidx: nat, size: nat)
    requires size == ReadSize(payload, nidx)
    ensures At(payload, nidx + 2) == Be16(size)[1]
  {
    hide At, Get16, Padded, Val, ToByte;
    var hi, lo := At(payload, nidx + 1), At(payload, nidx + 2);
    ValRange(hi);
    ValRange(lo);
    LowPart(Val(hi), Val(lo));
    ValInjective(lo, Be16(size)[1]);
  }

  lemma {:induction false} LowPart(hi: nat, lo: nat)
    requires lo < 256
    ensures (256 * hi + lo) % 256 == lo
  {
  }

  /** The bytes of the walk are those of the units it reads, rightly placed or not. */
  lemma {:induction false} WalkBytes(payload: seq<Byte>, nidx: nat)
    ensures PipeBytes(Walk(payload, nidx)) == UnitsBytes(WalkUnits(payload, nidx))
    decreases |payload| - nidx
  {
    hide Walk, WalkUnits, PipeBytes, UnitsBytes, UnitBytes, ReadSize, Padded, At;
    if nidx >= |payload| - 1 {
      WalkAtEnd(payload, nidx);
    } else {
      var size := ReadSize(payload, nidx);
      var unit, next := Padded(payload, nidx + 3, size), nidx + if size == 0 then 3 else 2 + size;
      WalkRound(payload, nidx);
      UnitsRound(payload, nidx);
      RoundBytes(payload, nidx, unit, Walk(payload, next));
      assert size == 0 ==> unit == [];
      WalkBytes(payload, next);
      UnitsConcat([unit], WalkUnits(payload, next));
      UnitsOne(unit);
    }
  }

  lemma {:induction false} WalkAtEnd(payload: seq<Byte>, nidx: nat)
    requires nidx >= |payload| - 1
    ensures PipeBytes(Walk(payload, nidx)) == [] && UnitsBytes(WalkUnits(payload, nidx)) == []
  {}

  /** Any aggregate on the pipe. */
  lemma {:induction false} StapBytes(hs: seq<Nal>, mark: bool)
    requires hs != []
    ensures PipeBytes(ParseWrites(Bare(Payload(Stap(hs), mark)))) == UnitsBytes(WalkUnits(Stap(hs), 0))
  {
    hide Walk, WalkUnits, PipeBytes, UnitsBytes, ParseWrites, Stap, Bare;
    StapWalked(hs, mark);
    WalkBytes(Stap(hs), 0);
  }

  // --- fragments ---

  /** The writes for a fragment: the first opens a NAL unit with the NRI of the indicator and the
      type of the FU header, so F is gone whatever the indicator holds. */
  function FuWrites(indicator: Byte, fuHeader: Byte, d: seq<Byte>): seq<Event> {
    (if fuHeader & 0x80 != 0 then [StartCode, Data([(((indicator & 0x60) >> 5) << 5) | (fuHeader & 0x1f)])] else [])
    + [Data(d)]
  }

  lemma {:induction false} FuParsed(p: Payload, indicator: Byte, fuHeader: Byte, d: seq<Byte>)
    requires p.bytes == [indicator, fuHeader] + d && indicator & 0x1f == 28
    ensures ParseWrites(Bare(p)) == FuWrites(indicator, fuHeader, d)
  {
    hide At, Bare, Walk;
    BareParts(p);
    PayloadParts(indicator, fuHeader, d);
  }

  /** What opens a NAL unit on the pipe: nothing behind the first fragment. */
  function Opening(n: Nal, isFirst: bool): seq<Byte>
    requires n != []
  {
    if isFirst then START_CODE + [n[0] & 0x7f] else []
  }

  lemma {:induction false} FuWritesBytes(n: Nal, indicator: Byte, fuHeader: Byte, isFirst: bool, d: seq<Byte>)
    requires n != [] && (fuHeader & 0x80 != 0 <==> isFirst)
    requires (((indicator & 0x60) >> 5) << 5) | (fuHeader & 0x1f) == n[0] & 0x7f
    ensures PipeBytes(FuWrites(indicator, fuHeader, d)) == Opening(n, isFirst) + d
  {
    hide PipeBytes;
    var open := [StartCode] + [Data([n[0] & 0x7f])];
    PipeConcat([StartCode], [Data([n[0] & 0x7f])]);
    PipeOne(StartCode);
    PipeOne(Data([n[0] & 0x7f]));
    PipeOne(Data(d));
    PipeConcat(open, [Data(d)]);
    assert [StartCode, Data([n[0] & 0x7f])] == open;
    assert [] + [Data(d)] == [Data(d)] && [] + d == d;
  }

  lemma {:induction false} FragmentBytes(n: Nal, off: nat, last: bool)
    requires 1 <= off <= |n|
    ensures PipeBytes(ParseWrites(Bare(Fragment(n, off, last)))) == Opening(n, off == 1) + n[off..off + FuSize(n, off)]
  {
    hide PipeBytes, FuIndicator, FuHeader, FuWrites, ParseWrites, Opening, Bare;
    var end := off + FuSize(n, off) == |n|;
    var d := n[off..off + FuSize(n, off)];
    FuBits(n, off == 1, end);
    FuParsed(Fragment(n, off, last), FuIndicator(n), FuHeader(n, off == 1, end), d);
    FuWritesBytes(n, FuIndicator(n), FuHeader(n, off == 1, end), off == 1, d);
  }

  lemma {:induction false} FuBytes(n: Nal, off: nat, last: bool)
    requires 1 <= off <= |n|
    ensures PipeBytes(OfPayloads(ParseWrites, FuFrom(n, off, last))) == Opening(n, off == 1) + n[off..]
    decreases |n| - off
  {
    hide ParseWrites, Fragment, PipeBytes, OfPayloads, Opening, Bare;
    var mid := off + FuSize(n, off);
    FragmentBytes(n, off, last);
    OfPayloadsOne(ParseWrites, Fragment(n, off, last));
    if mid == |n| {
      assert FuFrom(n, off, last) == [Fragment(n, off, last)] && n[off..mid] == n[off..];
    } else {
      OfPayloadsConcat(ParseWrites, [Fragment(n, off, last)], FuFrom(n, mid, last));
      PipeConcat(ParseWrites(Bare(Fragment(n, off, last))), OfPayloads(ParseWrites, FuFrom(n, mid, last)));
      FuBytes(n, mid, last);
      NotOpening(n, mid);
      CutOne(n, Opening(n, off == 1), off, mid);
    }
  }

  lemma {:induction false} NotOpening(n: Nal, off: nat)
    requires 1 < off <= |n|
    ensures Opening(n, off == 1) + n[off..] == n[off..]
  {}

  // --- a whole run ---

  /** The bytes on the pipe for a run of shipments. */
  function GotBytes(ss: seq<Shipment>): seq<Byte> {
    if ss == [] then [] else ShipmentBytes(ss[0]) + GotBytes(ss[1..])
  }

  function ShipmentBytes(s: Shipment): seq<Byte> {
    if s.Together? then UnitsBytes(WalkUnits(Stap(s.units), 0)) else START_CODE + Received(s.unit)
  }

  lemma {:induction false} GotBytesBoth(a: seq<Shipment>, b: seq<Shipment>)
    ensures GotBytes(a + b) == GotBytes(a) + GotBytes(b)
  {
    hide ShipmentBytes;
    if a == [] {
      assert a + b == b;
    } else {
      HeadOfConcat(a, b);
      GotBytesBoth(a[1..], b);
      Assoc(ShipmentBytes(a[0]), GotBytes(a[1..]), GotBytes(b));
    }
  }

  lemma {:induction false} GotBytesOne(s: Shipment)
    ensures GotBytes([s]) == ShipmentBytes(s)
  {
    hide ShipmentBytes;
    assert [s][1..] == [] && ShipmentBytes(s) + [] == ShipmentBytes(s);
  }

  lemma {:induction false} NothingOnPipe()
    ensures PipeBytes(OfPayloads(ParseWrites, [])) == [] && PipeBytes([]) == [] && GotBytes([]) == []
  {}

  lemma {:induction false} TogetherBytes(hs: seq<Nal>, mark: bool)
    requires hs != []
    ensures PipeBytes(OfPayloads(ParseWrites, [Payload(Stap(hs), mark)])) == GotBytes([Together(hs)])
  {
    hide ParseWrites, Stap, Bare, PipeBytes, OfPayloads, UnitsBytes, WalkUnits, GotBytes;
    OfPayloadsOne(ParseWrites, Payload(Stap(hs), mark));
    StapBytes(hs, mark);
    GotBytesOne(Together(hs));
  }

  lemma {:induction false} FlushBytes(held: seq<Nal>)
    ensures PipeBytes(OfPayloads(ParseWrites, Flush(held))) == GotBytes(Flushed(held))
  {
    hide ParseWrites, Stap, PipeBytes, OfPayloads, GotBytes;
    if held == [] {
      NothingOnPipe();
    } else {
      TogetherBytes(held, false);
    }
  }

  lemma {:induction false} PiecesBytes(n: Nal, last: bool)
    requires n != []
    ensures PipeBytes(OfPayloads(ParseWrites, FuFrom(n, 1, last))) == GotBytes([InPieces(n)])
  {
    hide ParseWrites, PipeBytes, OfPayloads, FuFrom, GotBytes;
    FuBytes(n, 1, last);
    GotBytesOne(InPieces(n));
  }

  lemma {:induction false} BytesBoth(ps: seq<Payload>, qs: seq<Payload>)
    ensures PipeBytes(OfPayloads(ParseWrites, ps + qs))
         == PipeBytes(OfPayloads(ParseWrites, ps)) + PipeBytes(OfPayloads(ParseWrites, qs))
  {
    hide ParseWrites, PipeBytes, OfPayloads;
    OfPayloadsConcat(ParseWrites, ps, qs);
    PipeConcat(OfPayloads(ParseWrites, ps), OfPayloads(ParseWrites, qs));
  }

  /** The bytes for one NAL unit, from any state. */
  lemma {:induction false} NalBytes(m: Mux, n: Nal, last: bool)
    requires m.aggregation
    ensures PipeBytes(OfPayloads(ParseWrites, NalPayloads(m, n, last))) == GotBytes(NalShipments(m, n, last))
  {
    hide ParseWrites, Stap, FuFrom, PipeBytes, OfPayloads, Full, Flush, Flushed, GotBytes;
    FlushBytes(m.held);
    NothingOnPipe();
    if |n| > RTP_PAYLOAD_MAX {
      PiecesBytes(n, last);
      BytesBoth(Flush(m.held), FuFrom(n, 1, last));
      GotBytesBoth(Flushed(m.held), [InPieces(n)]);
    } else {
      var ps, a := if Full(m.held, n) then Flush(m.held) else [], if Full(m.held, n) then Flushed(m.held) else [];
      var hs := Aggregate(m.held, n);
      TogetherBytes(hs, true);
      BytesBoth(ps, if last then [Payload(Stap(hs), true)] else []);
      GotBytesBoth(a, if last then [Together(hs)] else []);
    }
  }

  /** The bytes of any run, from any state. */
  lemma {:induction false} PipeRun(m: Mux, nals: seq<Nal>)
    requires m.aggregation
    ensures PipeBytes(Writes(ParseWrites, RunPackets(m, nals))) == GotBytes(Shipments(m, nals))
    decreases |nals|
  {
    hide ParseWrites, PipeBytes, NalPayloads, OfPayloads, NalShipments, GotBytes;
    if nals == [] {
      NothingOnPipe();
    } else {
      var last, n := |nals| == 1, nals[0];
      var m' := AfterNal(m, n, last);
      ReceiversAreHeaderBlind();
      RunWritesStep(ParseWrites, m, nals);
      PipeConcat(OfPayloads(ParseWrites, NalPayloads(m, n, last)), Writes(ParseWrites, RunPackets(m', nals[1..])));
      NalBytes(m, n, last);
      PipeRun(m', nals[1..]);
      GotBytesBoth(NalShipments(m, n, last), Shipments(m', nals[1..]));
    }
  }

  // --- upright runs in closed form ---

  /** A NAL unit on the pipe when all goes well. */
  function Arrived(n: Nal): seq<Byte> {
    if |n| > RTP_PAYLOAD_MAX then START_CODE + [n[0] & 0x7f] + n[1..] else UnitBytes(n)
  }

  function ArrivedAll(nals: seq<Nal>): seq<Byte> {
    if nals == [] then [] else Arrived(nals[0]) + ArrivedAll(nals[1..])
  }

  lemma {:induction false} ArrivedBoth(a: seq<Nal>, b: seq<Nal>)
    ensures ArrivedAll(a + b) == ArrivedAll(a) + ArrivedAll(b)
  {
    hide Arrived;
    if a == [] {
      assert a + b == b;
    } else {
      HeadOfConcat(a, b);
      ArrivedBoth(a[1..], b);
      Assoc(Arrived(a[0]), ArrivedAll(a[1..]), ArrivedAll(b));
    }
  }

  lemma {:induction false} ShortArrived(hs: seq<Nal>)
    requires AllShort(hs)
    ensures ArrivedAll(hs) == UnitsBytes(hs)
  {
    hide UnitBytes;
    if hs == [] {
    } else {
      ShortArrived(hs[1..]);
    }
  }

  lemma {:induction false} UprightBytes(s: Shipment)
    requires Proper(s) && Whole(s, true)
    ensures ShipmentBytes(s) == ArrivedAll(SentUnits(s, false))
  {
    hide WalkUnits, Stap, Upright, UnitsBytes, UnitBytes, Aligned, ArrivedAll;
    if s.Together? {
      ShortArrived(s.units);
      StapAligned(s.units);
      WalkExactly(Stap(s.units), 0, s.units);
    } else {
      ArrivedOne(s.unit);
      Assoc(START_CODE, [s.unit[0] & 0x7f], s.unit[1..]);
    }
  }

  lemma {:induction false} ArrivedOne(n: Nal)
    ensures ArrivedAll([n]) == Arrived(n)
  {
    hide Arrived;
    assert [n][1..] == [] && Arrived(n) + [] == Arrived(n);
  }

  lemma {:induction false} UprightRunBytes(ss: seq<Shipment>)
    requires AllProper(ss) && AllWhole(ss, true)
    ensures GotBytes(ss) == ArrivedAll(Sent(ss, false))
  {
    hide Proper, Whole, ShipmentBytes, SentUnits, ArrivedAll;
    if ss == [] {
      NothingArrived();
    } else {
      UprightBytes(ss[0]);
      UprightRunBytes(ss[1..]);
      ArrivedBoth(SentUnits(ss[0], false), Sent(ss[1..], false));
    }
  }

  lemma {:induction false} NothingArrived()
    ensures ArrivedAll([]) == []
  {}

  /** An upright run: every aggregated unit brings a byte that is not its own. */
  lemma {:induction false} UprightPipeRun(m: Mux, nals: seq<Nal>)
    requires m.aggregation && m.held == [] && UprightRun(m, nals)
    ensures PipeBytes(Writes(ParseWrites, RunPackets(m, nals))) == ArrivedAll(nals)
  {
    hide ParseWrites, PipeBytes, RunPackets, Writes, Shipments, GotBytes, ArrivedAll, Sent, AllWhole, AllProper;
    PipeRun(m, nals);
    RunMadeUp(m, nals);
    UprightRunBytes(Shipments(m, nals));
  }

  // --- exactly when it is the joined stream ---

  lemma {:induction false} JoinBoth(a: seq<Nal>, b: seq<Nal>)
    ensures Join(a + b) == Join(a) + Join(b)
  {
    hide Code;
    if a == [] {
      assert a + b == b;
    } else {
      HeadOfConcat(a, b);
      JoinBoth(a[1..], b);
      Assoc(Code(true) + a[0], Join(a[1..]), Join(b));
    }
  }

  /** Nothing, or something that begins with a start code. */
  predicate Coded(s: seq<Byte>) {
    s == [] || START_CODE <= s
  }

  lemma {:induction false} CodedBoth(a: seq<Byte>, b: seq<Byte>)
    requires Coded(a) && Coded(b)
    ensures Coded(a + b)
  {
    if a == [] {
      assert a + b == b;
    }
  }

  lemma {:induction false} UnitsCoded(hs: seq<Nal>)
    ensures Coded(UnitsBytes(hs)) && Coded(Join(hs))
  {}

  lemma {:induction false} GotBytesCoded(ss: seq<Shipment>)
    ensures Coded(GotBytes(ss))
  {
    hide UnitsBytes, WalkUnits, Coded, Received;
    if ss == [] {
      assert Coded([]) by {
        UnitsCoded([]);
        NothingToCode();
      }
    } else {
      var s := ss[0];
      if s.Together? {
        UnitsCoded(WalkUnits(Stap(s.units), 0));
      } else {
        CodeIsCoded(Received(s.unit));
      }
      GotBytesCoded(ss[1..]);
      CodedBoth(ShipmentBytes(s), GotBytes(ss[1..]));
    }
  }

  lemma {:induction false} NothingToCode()
    ensures Coded([])
  {}

  lemma {:induction false} CodeIsCoded(d: seq<Byte>)
    ensures Coded(START_CODE + d)
  {}

  /** A byte in front of a unit cannot be made up for behind it. */
  lemma {:induction false} ByteInFront(low: Byte, n: Nal, x: seq<Byte>, y: seq<Byte>)
    requires Coded(x) && Coded(y)
    ensures [low] + n + x != n + y
  {
    hide Coded;
    NotOneMore(low, x, y);
    if [low] + n + x == n + y {
      SameByteBehind(low, n, x, y);
    }
  }

  lemma {:induction false} NotOneMore(low: Byte, x: seq<Byte>, y: seq<Byte>)
    requires Coded(x) && Coded(y)
    ensures y != [low] + x
  {
    var z := [low] + x;
    assert z[0] == low && forall i :: 0 <= i < |x| ==> z[i + 1] == x[i];
    assert x != [] ==> z[3] == x[2] == 0;
    assert y != [] ==> y[3] == 1;
  }

  lemma {:induction false} SameByteBehind(low: Byte, n: Nal, x: seq<Byte>, y: seq<Byte>)
    requires [low] + n + x == n + y
    ensures y == [low] + x
  {
    AllAlike(low, n, x, y, |n|);
    var l, r := [low] + n + x, n + y;
    assert l == [low] + n[..] + x && l[|n|] == low;
    assert l[|n|..] == [low] + x && r[|n|..] == y;
  }

  lemma {:induction false} AllAlike(low: Byte, n: Nal, x: seq<Byte>, y: seq<Byte>, i: nat)
    requires [low] + n + x == n + y && i <= |n|
    ensures ([low] + n)[i] == low
  {
    if i == 0 {
    } else {
      AllAlike(low, n, x, y, i - 1);
      assert ([low] + n + x)[i - 1] == ([low] + n)[i - 1] && (n + y)[i - 1] == n[i - 1];
    }
  }

  /** The first unit of an aggregate is always read right, but brings its size byte. */
  lemma {:induction false} TogetherHead(hs: seq<Nal>) returns (us: seq<Nal>)
    requires hs != [] && AllShort(hs)
    ensures UnitsBytes(WalkUnits(Stap(hs), 0)) == START_CODE + ([Be16(|hs[0]|)[1]] + hs[0] + UnitsBytes(us))
  {
    hide WalkUnits, Stap, Aligned, UnitsBytes, Be16, ReadSize, Padded, At;
    var h := hs[0];
    StapAligned(hs);
    AlignedStep(Stap(hs), 0, hs);
    UnitsRound(Stap(hs), 0);
    us := WalkUnits(Stap(hs), if h == [] then 3 else 2 + |h|);
    assert WalkUnits(Stap(hs), 0) == [h] + us;
    UnitsConcat([h], us);
    UnitsOne(h);
    Regroup(START_CODE, [Be16(|h|)[1]], h, UnitsBytes(us));
  }

  lemma {:induction false} Regroup<T>(a: seq<T>, b: seq<T>, c: seq<T>, d: seq<T>)
    ensures a + b + c + d == a + (b + c + d)
  {}

  lemma {:induction false} TogetherNeverJoins(hs: seq<Nal>, x: seq<Byte>, y: seq<Byte>)
    requires hs != [] && AllShort(hs) && Coded(x) && Coded(y)
    ensures UnitsBytes(WalkUnits(Stap(hs), 0)) + x != Join(hs) + y
  {
    hide WalkUnits, Stap, Coded, Join, UnitsBytes, Be16, AllShort;
    var h, low := hs[0], Be16(|hs[0]|)[1];
    var us := TogetherHead(hs);
    UnitsCoded(us);
    UnitsCoded(hs[1..]);
    CodedBoth(UnitsBytes(us), x);
    CodedBoth(Join(hs[1..]), y);
    JoinHead(hs);
    OneByteMore(low, h, UnitsBytes(us), x, Join(hs[1..]), y);
  }

  lemma {:induction false} OneByteMore(low: Byte, h: Nal, a: seq<Byte>, x: seq<Byte>, b: seq<Byte>, y: seq<Byte>)
    requires Coded(a + x) && Coded(b + y)
    ensures START_CODE + ([low] + h + a) + x != START_CODE + h + b + y
  {
    hide Coded;
    ByteInFront(low, h, a + x, b + y);
    SameBehind(START_CODE, [low] + h + (a + x), h + (b + y));
    assert START_CODE + ([low] + h + a) + x == START_CODE + ([low] + h + (a + x));
    assert START_CODE + h + b + y == START_CODE + (h + (b + y));
  }

  lemma {:induction false} JoinHead(nals: seq<Nal>)
    requires nals != []
    ensures Join(nals) == START_CODE + nals[0] + Join(nals[1..])
  {}

  /** Shipments of which none is an aggregate, with F clear. */
  predicate NoneTogether(ss: seq<Shipment>) {
    forall i :: 0 <= i < |ss| ==> ss[i].InPieces? && Whole(ss[i], false)
  }

  lemma {:induction false} GotBytesAreJoin(ss: seq<Shipment>)
    requires AllProper(ss)
    ensures GotBytes(ss) == Join(Sent(ss, false)) <==> NoneTogether(ss)
  {
    hide UnitsBytes, WalkUnits, Stap, Join, Received, AllShort, Coded, Upright;
    if ss == [] {
      NothingJoined();
    } else {
      var s, rest := ss[0], ss[1..];
      GotBytesAreJoin(rest);
      JoinBoth(SentUnits(s, false), Sent(rest, false));
      assert NoneTogether(ss) <==> s.InPieces? && Whole(s, false) && NoneTogether(rest);
      if s.Together? {
        GotBytesCoded(rest);
        UnitsCoded(Sent(rest, false));
        TogetherNeverJoins(s.units, GotBytes(rest), Join(Sent(rest, false)));
      } else {
        ReceivedOne(s.unit);
        JoinOne(s.unit);
        EqualHeads(START_CODE + Received(s.unit), GotBytes(rest), START_CODE + s.unit, Join(Sent(rest, false)));
        SameBehind(START_CODE, Received(s.unit), s.unit);
      }
    }
  }

  lemma {:induction false} EqualHeads<T>(a: seq<T>, b: seq<T>, c: seq<T>, d: seq<T>)
    requires |a| == |c|
    ensures a + b == c + d <==> a == c && b == d
  {
    assert (a + b)[..|a|] == a && (c + d)[..|a|] == c;
    assert (a + b)[|a|..] == b && (c + d)[|a|..] == d;
  }

  lemma {:induction false} NothingJoined()
    ensures Join([]) == []
  {}

  lemma {:induction false} JoinOne(n: Nal)
    ensures Join([n]) == START_CODE + n && |Received(n)| == |n|
  {
    assert [n][1..] == [] && START_CODE + n + [] == START_CODE + n;
  }

  /** Every NAL unit is fragmented and has F clear. */
  predicate AllFragmented(nals: seq<Nal>) {
    forall n: Nal :: n in nals ==> |n| > RTP_PAYLOAD_MAX && n[0] & 0x80 == 0
  }

  lemma {:induction false} NoneTogetherUnits(ss: seq<Shipment>)
    requires AllProper(ss)
    ensures NoneTogether(ss) <==> AllFragmented(Sent(ss, false))
  {
    hide Upright;
    if ss == [] {
    } else {
      var s, rest := ss[0], ss[1..];
      NoneTogetherUnits(rest);
      assert NoneTogether(ss) <==> s.InPieces? && Whole(s, false) && NoneTogether(rest);
      AllFragmentedBoth(SentUnits(s, false), Sent(rest, false));
      if s.Together? {
        assert s.units[0] in s.units;
      } else {
        assert s.unit in [s.unit];
      }
    }
  }

  lemma {:induction false} AllFragmentedBoth(a: seq<Nal>, b: seq<Nal>)
    ensures AllFragmented(a + b) <==> AllFragmented(a) && AllFragmented(b)
  {
    if AllFragmented(a + b) {
      forall n: Nal | n in a ensures |n| > RTP_PAYLOAD_MAX && n[0] & 0x80 == 0 {
        assert n in a + b;
      }
      forall n: Nal | n in b ensures |n| > RTP_PAYLOAD_MAX && n[0] & 0x80 == 0 {
        assert n in a + b;
      }
    }
  }

  /** The pipe carries the joined stream exactly when no NAL unit was aggregated and every one has
      F clear, whatever the walk makes of the aggregates. */
  lemma {:induction false} PipeIsJoinExactly(m: Mux, nals: seq<Nal>)
    requires m.aggregation && m.held == []
    ensures PipeBytes(Writes(ParseWrites, RunPackets(m, nals))) == Join(nals) <==> AllFragmented(nals)
  {
    hide ParseWrites, PipeBytes, RunPackets, Writes, Shipments, GotBytes, Join, Sent, AllProper, NoneTogether,
      AllFragmented;
    PipeRun(m, nals);
    RunMadeUp(m, nals);
    GotBytesAreJoin(Shipments(m, nals));
    NoneTogetherUnits(Shipments(m, nals));
  }

  /** End to end in bytes, from the joined stream on. */
  lemma {:induction false} PipeEndToEnd(m: Mux, long: seq<bool>, nals: seq<Nal>)
    requires m.aggregation && m.held == []
    requires |long| == |nals| && Splittable(long, nals)
    ensures var out := PipeBytes(Writes(ParseWrites, RunPackets(m, Split(JoinWith(long, nals)))));
      && (UprightRun(m, nals) ==> out == ArrivedAll(nals))
      && (out == Join(nals) <==> AllFragmented(nals))
  {
    hide Splittable, Split, JoinWith, Join, Writes, RunPackets, ParseWrites, PipeBytes, ArrivedAll, UprightRun,
      AllFragmented;
    SplitJoinWith(long, nals);
    if UprightRun(m, nals) {
      UprightPipeRun(m, nals);
    }
    PipeIsJoinExactly(m, nals);
  }

  // --- fragments that carry F ---

  lemma {:induction false} PieceKey(n: Nal, s: bool, e: bool)
    requires n != []
    ensures FragmentHeader(n, s, e) & 0x80 != 0 <==> s
    ensures (((Indicator(n) & 0x60) >> 5) << 5) | (FragmentHeader(n, s, e) & 0x1f) == n[0] & 0x7f
  {}

  /** The NAL units on the pipe after one piece of the second scheme. */
  lemma {:induction false} ParserPiece(acc: seq<Nal>, n: Nal, k: nat)
    requires |n| > RTP_PAYLOAD_MAX_SIZE && k < PackNum(|n|) && (k == 0 || acc != [])
    ensures 1 <= PieceStart(k) <= PieceEnd(n, k) <= |n|
    ensures Collect(acc, ParseWrites(Bare(Piece(n, k))))
         == Extended(acc, n, if k == 0 then 1 else 2, n[PieceStart(k)..PieceEnd(n, k)])
  {
    hide Collect, Indicator, FragmentHeader, ParseWrites, Bare, PackNum;
    PieceBounds(n, k);
    var s, e, d := k == 0, k == PackNum(|n|) - 1, n[PieceStart(k)..PieceEnd(n, k)];
    assert Piece(n, k).bytes == [Indicator(n), FragmentHeader(n, s, e)] + d;
    PieceBits(n, s, e);
    PieceKey(n, s, e);
    FuParsed(Piece(n, k), Indicator(n), FragmentHeader(n, s, e), d);
    if k == 0 {
      CollectOpened(acc, n[0] & 0x7f, d);
    } else {
      CollectData(acc, d);
      assert [] + [Data(d)] == [Data(d)];
    }
  }

  lemma {:induction false} ParserPiecesFrom(acc: seq<Nal>, n: Nal, k: nat)
    requires |n| > RTP_PAYLOAD_MAX_SIZE && k < PackNum(|n|) && (k == 0 || acc != [])
    ensures PieceStart(k) <= |n|
    ensures Collect(acc, OfPayloads(ParseWrites, PiecesFrom(n, k)))
         == Extended(acc, n, if k == 0 then 1 else 2, n[PieceStart(k)..])
    decreases PackNum(|n|) - k
  {
    hide ParseWrites, Piece, PackNum, PieceEnd, PieceStart, Collect, Bare;
    ParserPiece(acc, n, k);
    PieceBounds(n, k);
    OfPayloadsOne(ParseWrites, Piece(n, k));
    var from, mid := PieceStart(k), PieceEnd(n, k);
    if k + 1 < PackNum(|n|) {
      var acc' := Extended(acc, n, if k == 0 then 1 else 2, n[from..mid]);
      OfPayloadsConcat(ParseWrites, [Piece(n, k)], PiecesFrom(n, k + 1));
      CollectConcat(acc, ParseWrites(Bare(Piece(n, k))), OfPayloads(ParseWrites, PiecesFrom(n, k + 1)));
      ParserPiecesFrom(acc', n, k + 1);
      CutOne(n, if k == 0 then [n[0] & 0x7f] else acc[|acc| - 1], from, mid);
    } else {
      assert PiecesFrom(n, k) == [Piece(n, k)] && n[from..mid] == n[from..];
    }
  }

  /** Fed with fragments whose indicators do carry F, rtp_parse drops it: a NAL unit comes back
      exactly when F is clear. */
  lemma {:induction false} ParserDropsF(n: Nal)
    requires |n| > RTP_PAYLOAD_MAX_SIZE
    ensures Collect([], OfPayloads(ParseWrites, Pieces(n))) == [[n[0] & 0x7f] + n[1..]]
    ensures Collect([], OfPayloads(ParseWrites, Pieces(n))) == [n] <==> n[0] & 0x80 == 0
  {
    hide Collect, ParseWrites, PiecesFrom, OfPayloads;
    PackArithmetic(|n|);
    ParserPiecesFrom([], n, 0);
    ReceivedOne(n);
    assert [] + [[n[0] & 0x7f] + n[1..]] == [[n[0] & 0x7f] + n[1..]];
    assert [[n[0] & 0x7f] + n[1..]] == [n] <==> [[n[0] & 0x7f] + n[1..]][0] == n;
  }
}
