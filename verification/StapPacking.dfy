/** How the sender packs: an aggregate is closed only when the next NAL unit would not fit, and every
    aggregate fits. */
module StapPacking {
  import opened Packets
  import opened StapDelivery
  import opened WireFormat

  /** The units held before a run come first in its first shipment. */
  lemma {:induction false} HeldFirst(m: Mux, nals: seq<Nal>)
    requires m.aggregation && m.held != [] && nals != []
    ensures Shipments(m, nals) != [] && Shipments(m, nals)[0].Together?
    ensures m.held <= Shipments(m, nals)[0].units
    decreases |nals|
  {
    hide Full, Stap;
    var n, last := nals[0], |nals| == 1;
    if |n| > RTP_PAYLOAD_MAX || Full(m.held, n) || last {
    } else {
      HeldFirst(AfterNal(m, n, last), nals[1..]);
    }
  }

  /** A unit that is held back, of a run that goes on, is the first of the next shipment. */
  lemma {:induction false} HeldAlone(m: Mux, n: Nal, nals: seq<Nal>)
    requires m.aggregation && m.held == [n] && nals != []
    ensures Shipments(m, nals) != [] && Shipments(m, nals)[0].Together?
    ensures Shipments(m, nals)[0].units != [] && Shipments(m, nals)[0].units[0] == n
  {
    hide Shipments;
    HeldFirst(m, nals);
    assert [n] <= Shipments(m, nals)[0].units;
  }

  /** The shipments for one unit: a flushed aggregate had no room for the unit behind it. */
  lemma {:induction false} NalGreedy(m: Mux, n: Nal, last: bool)
    requires m.aggregation
    ensures |NalShipments(m, n, last)| <= 2
    ensures |n| > RTP_PAYLOAD_MAX ==> NalHeld(m, n, last) == [] && NalShipments(m, n, last) != []
    ensures |n| > RTP_PAYLOAD_MAX ==> NalShipments(m, n, last)[|NalShipments(m, n, last)| - 1].InPieces?
    ensures |n| <= RTP_PAYLOAD_MAX && !last && NalShipments(m, n, last) != [] ==>
      |NalShipments(m, n, last)| == 1 && NalHeld(m, n, last) == [n] && NoRoom(NalShipments(m, n, last)[0], n)
    ensures |n| <= RTP_PAYLOAD_MAX && last && |NalShipments(m, n, last)| == 2 ==>
      NalShipments(m, n, last)[1] == Together([n]) && NoRoom(NalShipments(m, n, last)[0], n)
  {
    hide Stap;
    StapLength(m.held, n);
    assert [] + [n] == [n];
  }

  /** An aggregate to which this unit cannot be added. */
  predicate NoRoom(s: Shipment, n: Nal) {
    s.Together? && |Stap(s.units + [n])| > 1400
  }

  /** Of two aggregates in a row, the first has no room for the first unit of the second. */
  lemma {:induction false} GreedyRun(m: Mux, nals: seq<Nal>, i: nat)
    requires m.aggregation && i + 1 < |Shipments(m, nals)|
    requires Shipments(m, nals)[i].Together? && Shipments(m, nals)[i + 1].Together?
    ensures Shipments(m, nals)[i + 1].units != []
    ensures |Stap(Shipments(m, nals)[i].units + [Shipments(m, nals)[i + 1].units[0]])| > 1400
    decreases |nals|
  {
    hide NalShipments, NalHeld, NalPayloads, Stap;
    var n, last := nals[0], |nals| == 1;
    var m', ps := AfterNal(m, n, last), NalShipments(m, n, last);
    var rest := Shipments(m', nals[1..]);
    NalGreedy(m, n, last);
    if i >= |ps| {
      GreedyRun(m', nals[1..], i - |ps|);
    } else if i + 1 == |ps| {
      assert rest != [] && nals[1..] != [];
      HeldAlone(m', n, nals[1..]);
    }
  }

  /** The units held before a run are sent off alone exactly when the next one does not fit behind them. */
  lemma {:induction false} HeldGreedy(m: Mux, nals: seq<Nal>)
    requires m.aggregation && m.held != [] && nals != [] && |nals[0]| <= RTP_PAYLOAD_MAX
    ensures Shipments(m, nals) != []
    ensures Shipments(m, nals)[0] == Together(m.held) <==> |Stap(m.held + [nals[0]])| > 1400
  {
    hide Stap;
    var n, last := nals[0], |nals| == 1;
    StapLength(m.held, n);
    HeldFirst(m, nals);
    if !Full(m.held, n) && !last {
      HeldFirst(AfterNal(m, n, last), nals[1..]);
    }
  }

  /** Every aggregate of a run fits the buffer, if each unit alone does. */
  lemma {:induction false} RunFits(m: Mux, nals: seq<Nal>, i: nat)
    requires m.aggregation && |Stap(m.held)| <= 1400 && i < |Shipments(m, nals)|
    requires forall n :: n in nals ==> Admissible(true, n)
    ensures Shipments(m, nals)[i].Together? ==> |Stap(Shipments(m, nals)[i].units)| <= 1400
    decreases |nals|
  {
    hide Stap, Full, Admissible, NalPayloads;
    var n, last := nals[0], |nals| == 1;
    assert n in nals;
    if |n| <= RTP_PAYLOAD_MAX {
      AggregateFitsExactly(m.held, n);
    }
    NothingFits();
    if i < |NalShipments(m, n, last)| {
    } else {
      RunFits(AfterNal(m, n, last), nals[1..], i - |NalShipments(m, n, last)|);
    }
  }

  lemma {:induction false} NothingFits()
    ensures |Stap([])| <= 1400
  {}
}
