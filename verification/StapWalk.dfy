/** The STAP-A walk of rtp_parse: which aggregates it takes apart into the NAL units they hold. */
module StapWalk {
  import opened Bytes
  import opened Packets
  import opened Receivers
  import opened Delivery
  import opened PlayerDelivery

  /** The NAL units in the data writes: a start code opens one, data extends it, and the size byte
      written between the two is passed over. */
  function Collect(acc: seq<Nal>, es: seq<Event>): seq<Nal>
    decreases |es|
  {
    if es == [] then acc
    else Collect(CollectOne(acc, es[0]), es[1..])
  }

  function CollectOne(acc: seq<Nal>, e: Event): seq<Nal> {
    match e
    case StartCode => acc + [[]]
    case SizeByte(_) => acc
    case Data(d) => if acc == [] then acc else acc[..|acc| - 1] + [acc[|acc| - 1] + d]
  }

  lemma {:induction false} CollectConcat(acc: seq<Nal>, a: seq<Event>, b: seq<Event>)
    ensures Collect(acc, a + b) == Collect(Collect(acc, a), b)
    decreases |a|
  {
    hide CollectOne;
    if a == [] {
      assert a + b == b;
    } else {
      HeadOfConcat(a, b);
      CollectConcat(CollectOne(acc, a[0]), a[1..], b);
    }
  }

  lemma {:induction false} CollectStep(acc: seq<Nal>, e: Event, es: seq<Event>)
    ensures Collect(acc, [e] + es) == Collect(CollectOne(acc, e), es)
  {
    hide CollectOne;
    assert ([e] + es)[1..] == es;
  }

  lemma {:induction false} NothingCollected(acc: seq<Nal>)
    ensures Collect(acc, []) == acc
  {}

  // --- the units the walk reads ---

  /** The sizes that the 16-bit field can carry. */
  predicate Sizable(hs: seq<Nal>) {
    forall i :: 0 <= i < |hs| ==> |hs[i]| < 0x1_0000
  }

  /** An empty NAL unit stands last, or with one more empty one behind it that does. */
  predicate Upright(hs: seq<Nal>) {
    forall i :: 0 <= i < |hs| && hs[i] == [] ==> i == |hs| - 1 || (i == |hs| - 2 && hs[|hs| - 1] == [])
  }

  /** The size that the walk takes from behind position nidx. */
  function ReadSize(payload: seq<Byte>, nidx: nat): (size: nat)
    ensures size == 256 * Val(At(payload, nidx + 1)) + Val(At(payload, nidx + 2))
  {
    ValRange(At(payload, nidx + 1));
    ValRange(At(payload, nidx + 2));
    Get16(Padded(payload, nidx + 1, 2), 0)
  }

  /** The NAL units that the walk reads from position nidx on, rightly placed or not. */
  function WalkUnits(payload: seq<Byte>, nidx: nat): seq<Nal>
    decreases |payload| - nidx
  {
    if nidx >= |payload| - 1 then []
    else
      var size := ReadSize(payload, nidx);
      if size == 0 then [[]] + WalkUnits(payload, nidx + 3)
      else [Padded(payload, nidx + 3, size)] + WalkUnits(payload, nidx + 2 + size)
  }

  lemma {:induction false} NoUnits(payload: seq<Byte>, nidx: nat)
    requires nidx >= |payload| - 1
    ensures WalkUnits(payload, nidx) == []
  {}

  lemma {:induction false} UnitsRound(payload: seq<Byte>, nidx: nat)
    requires nidx < |payload| - 1
    ensures var size := ReadSize(payload, nidx);
      WalkUnits(payload, nidx) == if size == 0 then [[]] + WalkUnits(payload, nidx + 3)
        else [Padded(payload, nidx + 3, size)] + WalkUnits(payload, nidx + 2 + size)
  {
    hide Padded, ReadSize;
  }

  /** One round of the walk, in terms of what it reads. */
  lemma {:induction false} WalkRound(payload: seq<Byte>, nidx: nat)
    requires nidx < |payload| - 1
    ensures var size, head := ReadSize(payload, nidx), [StartCode] + [SizeByte(At(payload, nidx + 2))];
      Walk(payload, nidx) == if size == 0 then head + Walk(payload, nidx + 3)
        else head + [Data(Padded(payload, nidx + 3, size))] + Walk(payload, nidx + 2 + size)
  {
    hide Padded, Walk, At, Get16;
    WalkUnfold(payload, nidx);
  }

  /** The data writes of the walk are those units. */
  lemma {:induction false} WalkCollects(acc: seq<Nal>, payload: seq<Byte>, nidx: nat)
    ensures Collect(acc, Walk(payload, nidx)) == acc + WalkUnits(payload, nidx)
    decreases |payload| - nidx
  {
    hide Collect, Padded, At, CollectOne, ReadSize;
    if nidx >= |payload| - 1 {
      NothingCollected(acc);
      assert acc + [] == acc;
    } else {
      var size := ReadSize(payload, nidx);
      var next := nidx + if size == 0 then 3 else 2 + size;
      var unit := Padded(payload, nidx + 3, size);
      WalkRound(payload, nidx);
      CollectUnit(acc, At(payload, nidx + 2), unit, Walk(payload, next));
      assert Collect(acc, Walk(payload, nidx)) == Collect(acc + [unit], Walk(payload, next)) by {
        hide WalkUnits, Walk;
      }
      WalkCollects(acc + [unit], payload, next);
      Assoc(acc, [unit], WalkUnits(payload, next));
    }
  }

  /** The writes for one NAL unit: start code, size byte, and the data if there are any. */
  lemma {:induction false} CollectUnit(acc: seq<Nal>, low: Byte, d: seq<Byte>, es: seq<Event>)
    ensures Collect(acc, [StartCode] + [SizeByte(low)] + [Data(d)] + es) == Collect(acc + [d], es)
    ensures d == [] ==> Collect(acc, [StartCode] + [SizeByte(low)] + es) == Collect(acc + [d], es)
  {
    hide Collect;
    var begun := acc + [[]];
    assert [StartCode] + [SizeByte(low)] + es == [StartCode] + ([SizeByte(low)] + es);
    CollectStep(acc, StartCode, [SizeByte(low)] + es);
    CollectStep(begun, SizeByte(low), es);
    assert [StartCode] + [SizeByte(low)] + [Data(d)] + es == [StartCode] + ([SizeByte(low)] + ([Data(d)] + es));
    CollectStep(acc, StartCode, [SizeByte(low)] + ([Data(d)] + es));
    CollectStep(begun, SizeByte(low), [Data(d)] + es);
    CollectStep(begun, Data(d), es);
    assert begun[..|begun| - 1] == acc && [] + d == d;
  }

  // --- rightly placed ---

  /** These NAL units make up what is left of the payload behind position nidx. */
  ghost predicate Aligned(payload: seq<Byte>, nidx: nat, hs: seq<Nal>) {
    && Sizable(hs)
    && nidx + 1 + |StapBody(hs)| == |payload|
    && Holds(payload, nidx + 1, StapBody(hs))
  }

  lemma {:induction false} PaddedInside(s: seq<Byte>, i: nat, t: seq<Byte>)
    requires Holds(s, i, t)
    ensures Padded(s, i, |t|) == t
  {
    forall k | 0 <= k < |t| ensures At(s, i + k) == t[k] {
      HoldsAt(s, i, t, k);
    }
  }

  lemma {:induction false} AtInside(s: seq<Byte>, i: nat)
    requires i < |s|
    ensures At(s, i) == s[i]
  {}

  lemma {:induction false} SizeField(payload: seq<Byte>, nidx: nat, x: nat)
    requires x < 0x1_0000 && Holds(payload, nidx + 1, Be16(x))
    ensures ReadSize(payload, nidx) == x && At(payload, nidx + 2) == Be16(x)[1]
  {
    hide Be16, Get16, Padded, At;
    PaddedInside(payload, nidx + 1, Be16(x));
    assert Holds(Be16(x), 0, Be16(x));
    Get16Be16(x, Be16(x), 0);
    HoldsAt(payload, nidx + 1, Be16(x), 1);
    AtInside(payload, nidx + 2);
  }

  lemma {:induction false} AlignedParts(payload: seq<Byte>, nidx: nat, hs: seq<Nal>)
    requires hs != [] && Aligned(payload, nidx, hs)
    ensures Holds(payload, nidx + 1, Be16(|hs[0]|)) && Holds(payload, nidx + 3, hs[0]) && |hs[0]| < 0x1_0000
    ensures Aligned(payload, nidx + 2 + |hs[0]|, hs[1..])
  {
    hide Be16, Holds;
    var h, rest := hs[0], StapBody(hs[1..]);
    HoldsParts(payload, nidx + 1, Be16(|h|) + h, rest);
    HoldsParts(payload, nidx + 1, Be16(|h|), h);
  }

  lemma {:induction false} HoldsInside<T>(s: seq<T>, i: nat, t: seq<T>)
    requires Holds(s, i, t)
    ensures i + |t| <= |s|
  {}

  lemma {:induction false} AlignedStep(payload: seq<Byte>, nidx: nat, hs: seq<Nal>)
    requires hs != [] && Aligned(payload, nidx, hs)
    ensures nidx + 3 <= |payload| && ReadSize(payload, nidx) == |hs[0]|
    ensures At(payload, nidx + 2) == Be16(|hs[0]|)[1]
    ensures Holds(payload, nidx + 3, hs[0]) && Padded(payload, nidx + 3, |hs[0]|) == hs[0]
    ensures Aligned(payload, nidx + 2 + |hs[0]|, hs[1..])
  {
    hide Be16, Padded, At, ReadSize, Aligned, Holds;
    AlignedParts(payload, nidx, hs);
    HoldsInside(payload, nidx + 1, Be16(|hs[0]|));
    SizeField(payload, nidx, |hs[0]|);
    PaddedInside(payload, nidx + 3, hs[0]);
  }

  /** The walk finds a NAL unit that is not empty whole, and goes on behind it. */
  lemma {:induction false} WalkUnit(payload: seq<Byte>, nidx: nat, hs: seq<Nal>)
    requires hs != [] && hs[0] != [] && Aligned(payload, nidx, hs)
    ensures Walk(payload, nidx) == UnitEvents(hs[0]) + Walk(payload, nidx + 2 + |hs[0]|)
    ensures WalkUnits(payload, nidx) == [hs[0]] + WalkUnits(payload, nidx + 2 + |hs[0]|)
    ensures Aligned(payload, nidx + 2 + |hs[0]|, hs[1..])
  {
    hide Walk, Padded, Be16, At, Aligned, ReadSize, Holds, WalkUnits, StapBody;
    AlignedStep(payload, nidx, hs);
    WalkRound(payload, nidx);
    UnitsRound(payload, nidx);
  }

  function UnitEvents(h: Nal): seq<Event> {
    [StartCode] + [SizeByte(Be16(|h|)[1])] + [Data(h)]
  }

  // --- displaced by an empty unit ---

  ghost predicate ZeroFrom(payload: seq<Byte>, from: nat) {
    forall i: nat :: i >= from ==> At(payload, i) == 0
  }

  /** Bytes that are read as themselves from k places further on, with zeros behind them, are zeros. */
  lemma {:induction false} ShiftedBytes(payload: seq<Byte>, p: nat, h: Nal, k: nat, j: nat)
    requires k >= 1 && j <= |h| && Holds(payload, p, h) && Padded(payload, p + k, |h|) == h
    requires ZeroFrom(payload, p + |h|)
    ensures ZeroFrom(payload, p + j)
    decreases |h| - j
  {
    if j == |h| {
    } else {
      ShiftedBytes(payload, p, h, k, j + 1);
      HoldsAt(payload, p, h, j);
      assert Padded(payload, p + k, |h|)[j] == At(payload, p + k + j) == 0;
      assert At(payload, p + j) == h[j] == 0;
      forall i: nat | i >= p + j ensures At(payload, i) == 0 {
      }
    }
  }

  lemma {:induction false} EndIsZero(payload: seq<Byte>, nidx: nat, hs: seq<Nal>)
    requires Aligned(payload, nidx, hs) && (hs == [] || hs == [[]])
    ensures ZeroFrom(payload, nidx + 1)
  {
    hide Padded;
    if hs == [] {
    } else {
      AlignedStep(payload, nidx, hs);
      ValRange(At(payload, nidx + 1));
      ValRange(At(payload, nidx + 2));
      ZeroByte(At(payload, nidx + 1));
      ZeroByte(At(payload, nidx + 2));
      assert |payload| == nidx + 3;
    }
  }

  lemma {:induction false} ZeroByte(b: Byte)
    ensures Val(b) == 0 <==> b == 0
  {
    if Val(b) == 0 {
      ValInjective(b, 0);
    }
  }

  /** The size fields at two places, the second one zero or the low byte of the first and a zero. */
  lemma {:induction false} SizesApart(payload: seq<Byte>, i: nat, j: nat)
    requires Val(At(payload, j + 2)) == 0 && (j == i + 1 || Val(At(payload, j + 1)) == 0)
    ensures ReadSize(payload, i) == ReadSize(payload, j) ==> ReadSize(payload, j) == 0
  {
    hide At, Val, Padded, Get16;
    var hi, lo, next := Val(At(payload, i + 1)), Val(At(payload, i + 2)), Val(At(payload, j + 1));
    ValRange(At(payload, i + 1));
    ValRange(At(payload, i + 2));
    assert ReadSize(payload, i) == 256 * hi + lo && ReadSize(payload, j) == 256 * next;
  }

  /** A NAL unit with bytes is never read right from k >= 1 places behind its size field when only
      an empty one or nothing follows. */
  lemma {:induction false} ShiftedUnit(payload: seq<Byte>, nidx: nat, hs: seq<Nal>, k: nat)
    requires k >= 1 && hs != [] && hs[0] != [] && Aligned(payload, nidx, hs) && (hs[1..] == [] || hs[1..] == [[]])
    ensures ReadSize(payload, nidx + k) != |hs[0]| || Padded(payload, nidx + k + 3, |hs[0]|) != hs[0]
  {
    hide Padded, Aligned, At, Holds, ReadSize, StapBody, Be16, Val;
    var h := hs[0];
    AlignedStep(payload, nidx, hs);
    EndIsZero(payload, nidx + 2 + |h|, hs[1..]);
    if Padded(payload, nidx + k + 3, |h|) == h {
      ShiftedBytes(payload, nidx + 3, h, k, 0);
      assert At(payload, nidx + k + 2) == 0 && (k > 1 ==> At(payload, nidx + k + 1) == 0);
      ZeroByte(0);
      SizesApart(payload, nidx, nidx + k);
    }
  }

  lemma {:induction false} UnitsThere(payload: seq<Byte>, nidx: nat, hs: seq<Nal>)
    requires hs != [] && hs <= WalkUnits(payload, nidx)
    ensures nidx < |payload| - 1
    ensures ReadSize(payload, nidx) == |hs[0]| && (hs[0] != [] ==> Padded(payload, nidx + 3, |hs[0]|) == hs[0])
    ensures hs[1..] <= WalkUnits(payload, nidx + if hs[0] == [] then 3 else 2 + |hs[0]|)
  {
    hide Padded, ReadSize, WalkUnits;
    if nidx >= |payload| - 1 {
      NoUnits(payload, nidx);
    }
    UnitsRound(payload, nidx);
    var all := WalkUnits(payload, nidx);
    assert hs[0] == all[0] && hs[1..] <= all[1..];
  }

  /** From k >= 1 places behind where they start, NAL units are read right only if there are none,
      or a single empty one one place further on. */
  lemma {:induction false} Shifted(payload: seq<Byte>, nidx: nat, hs: seq<Nal>, k: nat)
    requires k >= 1 && Aligned(payload, nidx, hs) && hs <= WalkUnits(payload, nidx + k)
    ensures hs == [] || (hs == [[]] && k == 1)
    decreases |hs|
  {
    hide Padded, Aligned, At, Holds, ReadSize, StapBody, Be16, WalkUnits;
    if hs == [] {
    } else {
      var h := hs[0];
      AlignedStep(payload, nidx, hs);
      UnitsThere(payload, nidx + k, hs);
      if h == [] {
        Shifted(payload, nidx + 2, hs[1..], k + 1);
        AlignedLength(payload, nidx, hs);
      } else {
        Shifted(payload, nidx + 2 + |h|, hs[1..], k);
        ShiftedUnit(payload, nidx, hs, k);
      }
    }
  }

  lemma {:induction false} AlignedLength(payload: seq<Byte>, nidx: nat, hs: seq<Nal>)
    requires hs != [] && hs[0] == [] && hs[1..] == [] && Aligned(payload, nidx, hs)
    ensures hs == [[]] && |payload| == nidx + 3
  {
    hide Be16;
    HeadTail(hs);
    assert [hs[0]] + hs[1..] == [[]];
    AlignedEnd(payload, nidx, hs);
  }

  /** Zeros at the end of the payload are one more empty NAL unit. */
  lemma {:induction false} WalkZeros(payload: seq<Byte>, nidx: nat)
    requires nidx + 2 <= |payload| <= nidx + 4 && ZeroFrom(payload, nidx + 1)
    ensures Walk(payload, nidx) == [StartCode] + [SizeByte(0)] && WalkUnits(payload, nidx) == [[]]
  {
    hide Padded;
    WalkUnfold(payload, nidx);
    assert ReadSize(payload, nidx) == 0 && Padded(payload, nidx + 3, 0) == [];
    assert WalkUnits(payload, nidx + 3) == [] && Walk(payload, nidx + 3) == [];
    var head := [StartCode] + [SizeByte(0)];
    assert head + [] == head;
  }

  lemma {:induction false} UprightStep(hs: seq<Nal>)
    requires hs != []
    ensures hs[0] != [] ==> (Upright(hs) <==> Upright(hs[1..]))
    ensures hs[0] == [] ==> (Upright(hs) <==> hs[1..] == [] || hs[1..] == [[]])
  {
    var t := hs[1..];
    if hs[0] != [] {
      assert forall i :: 0 <= i < |t| ==> t[i] == hs[i + 1];
      if Upright(t) {
        forall i | 0 <= i < |hs| && hs[i] == []
          ensures i == |hs| - 1 || (i == |hs| - 2 && hs[|hs| - 1] == [])
        {
          assert t[i - 1] == [];
        }
      }
    } else if |hs| == 2 {
      assert t == [hs[1]];
    }
  }

  /** Rightly placed, the walk reads the NAL units that are there exactly when they are upright, and
      otherwise it does not even begin with them. */
  lemma {:induction false} WalkExactly(payload: seq<Byte>, nidx: nat, hs: seq<Nal>)
    requires Aligned(payload, nidx, hs)
    ensures WalkUnits(payload, nidx) == hs <==> Upright(hs)
    ensures hs <= WalkUnits(payload, nidx) ==> Upright(hs)
    decreases |hs|
  {
    hide Upright, Aligned, Padded, Holds, At, WalkUnits;
    if hs == [] {
      WalkNothing(payload, nidx);
    } else {
      UprightStep(hs);
      HeadTail(hs);
      if hs[0] != [] {
        WalkUnit(payload, nidx, hs);
        WalkExactly(payload, nidx + 2 + |hs[0]|, hs[1..]);
        SameTail(hs[0], hs[1..], WalkUnits(payload, nidx + 2 + |hs[0]|));
      } else {
        WalkEmpty(payload, nidx, hs);
        SameTail([], hs[1..], WalkUnits(payload, nidx + 3));
      }
    }
  }

  lemma {:induction false} WalkNothing(payload: seq<Byte>, nidx: nat)
    requires Aligned(payload, nidx, [])
    ensures WalkUnits(payload, nidx) == [] && Walk(payload, nidx) == [] && Upright([])
  {}

  lemma {:induction false} SameTail(h: Nal, x: seq<Nal>, y: seq<Nal>)
    ensures [h] + x == [h] + y <==> x == y
    ensures [h] + x <= [h] + y <==> x <= y
  {
    assert ([h] + x)[1..] == x && ([h] + y)[1..] == y;
    if [h] + x <= [h] + y {
      assert ([h] + y)[..1 + |x|][1..] == y[..|x|];
    }
  }

  /** An empty NAL unit: the walk goes on one place too far. */
  lemma {:induction false} WalkEmpty(payload: seq<Byte>, nidx: nat, hs: seq<Nal>)
    requires hs != [] && hs[0] == [] && Aligned(payload, nidx, hs)
    ensures WalkUnits(payload, nidx) == [[]] + WalkUnits(payload, nidx + 3)
    ensures WalkUnits(payload, nidx + 3) == hs[1..] <==> hs[1..] == [] || hs[1..] == [[]]
    ensures hs[1..] <= WalkUnits(payload, nidx + 3) ==> hs[1..] == [] || hs[1..] == [[]]
  {
    hide Aligned, Holds, At;
    AlignedStep(payload, nidx, hs);
    if hs[1..] == [] || hs[1..] == [[]] {
      EndIsZero(payload, nidx + 2, hs[1..]);
      AlignedEnd(payload, nidx + 2, hs[1..]);
      if hs[1..] == [[]] {
        WalkZeros(payload, nidx + 3);
      }
    }
    if hs[1..] <= WalkUnits(payload, nidx + 3) {
      Shifted(payload, nidx + 2, hs[1..], 1);
    }
  }

  lemma {:induction false} AlignedEnd(payload: seq<Byte>, nidx: nat, hs: seq<Nal>)
    requires Aligned(payload, nidx, hs)
    ensures hs == [] ==> |payload| == nidx + 1
    ensures hs == [[]] ==> |payload| == nidx + 3
  {
    hide Be16;
    if hs == [[]] {
      assert StapBody([[]]) == Be16(0) + [] + [];
    }
  }

  // --- whole aggregates ---

  lemma {:induction false} StapWalked(hs: seq<Nal>, mark: bool)
    requires hs != []
    ensures ParseWrites(Bare(Payload(Stap(hs), mark))) == Walk(Stap(hs), 0)
  {
    hide Walk, StapBody, StapHeader, Bare, At;
    BareParts(Payload(Stap(hs), mark));
    StapHeaderBits(hs);
    StapFirst(hs);
  }

  lemma {:induction false} StapAligned(hs: seq<Nal>)
    requires hs != [] && Sizable(hs)
    ensures Aligned(Stap(hs), 0, hs)
  {
    hide StapBody, StapHeader, At, Sizable;
    StapFirst(hs);
  }

  lemma {:induction false} StapFirst(hs: seq<Nal>)
    requires hs != []
    ensures At(Stap(hs), 0) == StapHeader(hs)
    ensures 0 + 1 + |StapBody(hs)| == |Stap(hs)| && Holds(Stap(hs), 0 + 1, StapBody(hs))
  {
    hide StapBody, StapHeader;
  }

  /** The data writes for any aggregate. */
  lemma {:induction false} StapRead(hs: seq<Nal>, mark: bool, acc: seq<Nal>)
    requires hs != []
    ensures Collect(acc, ParseWrites(Bare(Payload(Stap(hs), mark)))) == acc + WalkUnits(Stap(hs), 0)
  {
    hide Collect, Walk, WalkUnits, Stap, Bare, ParseWrites;
    StapWalked(hs, mark);
    WalkCollects(acc, Stap(hs), 0);
  }

  /** They are the NAL units it holds exactly when those are upright. */
  lemma {:induction false} StapUnpackedExactly(hs: seq<Nal>, mark: bool)
    requires hs != [] && Sizable(hs)
    ensures Collect([], ParseWrites(Bare(Payload(Stap(hs), mark)))) == hs <==> Upright(hs)
  {
    hide Collect, Walk, WalkUnits, Aligned, Stap, Bare, ParseWrites, Upright, Sizable;
    StapRead(hs, mark, []);
    StapAligned(hs);
    WalkExactly(Stap(hs), 0, hs);
    assert [] + WalkUnits(Stap(hs), 0) == WalkUnits(Stap(hs), 0);
  }

  /** Once other NAL units have been read from the bytes of an aggregate, its own are never all read. */
  lemma {:induction false} NeverAfterOthers(hs: seq<Nal>, others: seq<Nal>)
    requires hs != [] && others != [] && Sizable(hs)
    ensures !(others + hs <= WalkUnits(Stap(hs), 0))
  {
    hide WalkUnits, Aligned, Stap, Sizable;
    if others + hs <= WalkUnits(Stap(hs), 0) {
      var k := WalkBehind(Stap(hs), 0, others, hs);
      StapAligned(hs);
      Shifted(Stap(hs), 0, hs, k);
    }
  }

  lemma {:induction false} WalkBehind(payload: seq<Byte>, nidx: nat, xs: seq<Nal>, ys: seq<Nal>) returns (next: nat)
    requires xs + ys <= WalkUnits(payload, nidx)
    ensures next >= nidx + 3 * |xs| && ys <= WalkUnits(payload, next)
    decreases |xs|
  {
    hide ReadSize, Padded, WalkUnits;
    if xs == [] {
      assert xs + ys == ys;
      next := nidx;
    } else {
      UnitsThere(payload, nidx, xs + ys);
      HeadOfConcat(xs, ys);
      next := WalkBehind(payload, nidx + if xs[0] == [] then 3 else 2 + |xs[0]|, xs[1..], ys);
    }
  }

  // --- samples ---

  lemma {:induction false} EmptyThenOne(x: Byte)
    ensures Stap([[], [x]]) == [StapHeader([[], [x]]), 0, 0, 0, 1, x]
  {
    hide StapHeader;
    assert Be16(0) == [0, 0] && Be16(1) == [0, 1];
    assert [[], [x]][1..] == [[x]] && [[x]][1..] == [];
    assert StapBody([[x]]) == Be16(1) + [x];
  }

  lemma {:induction false} StumbleSizes(h: Byte, x: Byte)
    ensures ReadSize([h, 0, 0, 0, 1, x], 0) == 0 && ReadSize([h, 0, 0, 0, 1, x], 3) == 256 + Val(x)
  {
    hide Padded, Get16;
  }

  /** Behind an empty NAL unit the walk takes the next one's size from the wrong place: the low byte
      of the size and the first byte of the unit. */
  lemma {:induction false} WalkStumbles(x: Byte)
    ensures var got := Collect([], ParseWrites(Bare(Payload(Stap([[], [x]]), true))));
      |got| == 2 && got[0] == [] && |got[1]| == 256 + Val(x)
    ensures Collect([], ParseWrites(Bare(Payload(Stap([[], [x]]), true)))) != [[], [x]]
  {
    hide Collect, Stap, Bare, Walk, StapHeader, Padded, ParseWrites, WalkUnits, ReadSize;
    var hs := [[], [x]];
    var s := Stap(hs);
    EmptyThenOne(x);
    ValRange(x);
    StapRead(hs, true, []);
    StumbleSizes(StapHeader(hs), x);
    UnitsRound(s, 0);
    UnitsRound(s, 3);
    NoUnits(s, 5 + 256 + Val(x));
    assert [] + WalkUnits(s, 0) == [[], Padded(s, 6, 256 + Val(x))];
  }

  // --- single NAL unit packets ---

  lemma {:induction false} FirstFour(n: Nal)
    ensures Padded(n, 0, 4) == (n + [0, 0, 0, 0])[..4]
  {
    var d, t := Padded(n, 0, 4), (n + [0, 0, 0, 0])[..4];
    forall k | 0 <= k < 4 ensures d[k] == t[k] {
      assert d[k] == At(n, 0 + k) && t[k] == (n + [0, 0, 0, 0])[k];
    }
  }

  /** Of a single NAL unit packet the first four bytes are written, zeros for those it does not have: a
      unit of a single unit's type comes back exactly when it has four. */
  lemma {:induction false} SingleExactly(n: Nal, mark: bool)
    requires 1 <= At(n, 0) & 0x1f <= 23
    ensures Collect([], ParseWrites(Bare(Payload(n, mark)))) == [(n + [0, 0, 0, 0])[..4]]
    ensures Collect([], ParseWrites(Bare(Payload(n, mark)))) == [n] <==> |n| == 4
  {
    hide Collect, Bare, Walk, At;
    BareParts(Payload(n, mark));
    var d := Padded(n, 0, 4);
    var es := [StartCode] + ([Data(d)] + []);
    assert [StartCode, Data(d)] == es;
    var none: seq<Nal>, one: seq<Nal> := [], [[]];
    CollectStep(none, StartCode, [Data(d)] + []);
    CollectStep(one, Data(d), []);
    NothingCollected([d]);
    assert one[..0] == none && none + [[]] == one && [] + d == d && none + [d] == [d];
    assert d == (n + [0, 0, 0, 0])[..4] by {
      FirstFour(n);
    }
    assert [d] == [n] <==> [d][0] == n;
    if |n| == 4 {
      assert n[..] == n && Holds(n, 0, n);
      PaddedInside(n, 0, n);
    }
  }
}
