/** What RtspPlayer and Client write for a run sent without aggregation, and exactly when
    that is the stream the sender was given. */
module PlayerDelivery {
  import opened Bytes
  import opened AnnexB
  import opened Packets
  import opened Receivers
  import opened Delivery

  lemma {:induction false} BareParts(p: Payload)
    ensures |Bare(p)| == RTP_OFFSET + |p.bytes|
    ensures At(Bare(p), RTP_OFFSET) == At(p.bytes, 0) && At(Bare(p), RTP_OFFSET + 1) == At(p.bytes, 1)
    ensures Rest(Bare(p), RTP_OFFSET) == p.bytes
    ensures Rest(Bare(p), RTP_OFFSET + 1) == Rest(p.bytes, 1) && Rest(Bare(p), FU_OFFSET) == Rest(p.bytes, 2)
  {
    hide At, Header;
    var h := Header(0, 0, 0, false);
    RestAt(h, p.bytes, 0);
    RestAt(h, p.bytes, 1);
    RestAt(h, p.bytes, 2);
  }

  lemma {:induction false} FragmentParts(n: Nal, off: nat, last: bool)
    requires 1 <= off <= |n|
    ensures var b, size := Bare(Fragment(n, off, last)), FuSize(n, off);
      && At(b, RTP_OFFSET) == FuIndicator(n)
      && At(b, RTP_OFFSET + 1) == FuHeader(n, off == 1, off + size == |n|)
      && Rest(b, RTP_OFFSET) == [FuIndicator(n), FuHeader(n, off == 1, off + size == |n|)] + n[off..off + size]
      && Rest(b, FU_OFFSET) == n[off..off + size]
  {
    hide FuIndicator, FuHeader, Header;
    BareParts(Fragment(n, off, last));
  }

  lemma {:induction false} FuBits(n: Nal, start: bool, end: bool)
    requires n != []
    ensures FuIndicator(n) & 0x1f == 28
    ensures FuHeader(n, start, end) >> 7 == 1 <==> start
    ensures (FuHeader(n, start, end) >> 6) & 1 == 1 <==> end
    ensures FuHeader(n, start, end) & 0x80 != 0 <==> start
    ensures RebuiltHeader(FuIndicator(n), FuHeader(n, start, end)) == n[0] & 0x7f
    ensures (((FuIndicator(n) & 0x60) >> 5) << 5) | (FuHeader(n, start, end) & 0x1f) == n[0] & 0x7f
  {}

  /** What a fragment contributes: the first one the start code and the rebuilt NAL header. */
  function FuStart(n: Nal, off: nat): seq<Byte>
    requires n != []
  {
    if off == 1 then START_CODE + [n[0] & 0x7f] else []
  }

  lemma {:induction false} PlayerFragment(n: Nal, off: nat, last: bool)
    requires 1 <= off <= |n|
    ensures PlayerWrites(Bare(Fragment(n, off, last))) == FuStart(n, off) + n[off..off + FuSize(n, off)]
  {
    hide At, Rest, FuIndicator, FuHeader, RebuiltHeader, Bare, Fragment;
    FragmentParts(n, off, last);
    FuBits(n, off == 1, off + FuSize(n, off) == |n|);
    assert [] + n[off..off + FuSize(n, off)] == n[off..off + FuSize(n, off)];
  }

  lemma {:induction false} ClientFragment(n: Nal, off: nat, last: bool)
    requires 1 <= off <= |n|
    requires off == 1 ==> |n| - 1 > FU_CHUNK
    ensures ClientWrites(Bare(Fragment(n, off, last))) == FuStart(n, off) + n[off..off + FuSize(n, off)]
  {
    hide At, Rest, FuIndicator, FuHeader, RebuiltHeader, Bare, Fragment;
    FragmentParts(n, off, last);
    FuBits(n, off == 1, off + FuSize(n, off) == |n|);
    assert [] + n[off..off + FuSize(n, off)] == n[off..off + FuSize(n, off)];
  }

  lemma {:induction false} CutOne<T>(s: seq<T>, start: seq<T>, off: nat, mid: nat)
    requires off <= mid <= |s|
    ensures (start + s[off..mid]) + s[mid..] == start + s[off..]
  {
    assert s[off..] == s[off..mid] + s[mid..];
  }

  /** The fragments put back together. The F bit is lost: the fragments never carry it. */
  lemma {:induction false} PlayerFu(n: Nal, off: nat, last: bool)
    requires 1 <= off <= |n|
    ensures OfPayloads(PlayerWrites, FuFrom(n, off, last)) == FuStart(n, off) + n[off..]
    decreases |n| - off
  {
    hide PlayerWrites, Fragment, FuStart;
    var mid := off + FuSize(n, off);
    PlayerFragment(n, off, last);
    if mid == |n| {
      OfPayloadsOne(PlayerWrites, Fragment(n, off, last));
      assert FuFrom(n, off, last) == [Fragment(n, off, last)];
    } else {
      PlayerFu(n, mid, last);
      OfPayloadsConcat(PlayerWrites, [Fragment(n, off, last)], FuFrom(n, mid, last));
      OfPayloadsOne(PlayerWrites, Fragment(n, off, last));
      NoStart(n, mid);
      CutOne(n, FuStart(n, off), off, mid);
    }
  }

  lemma {:induction false} NoStart(n: Nal, off: nat)
    requires 1 < off <= |n|
    ensures FuStart(n, off) + n[off..] == n[off..]
  {}

  lemma {:induction false} ClientFu(n: Nal, off: nat, last: bool)
    requires 1 <= off <= |n|
    requires off == 1 ==> |n| - 1 > FU_CHUNK
    ensures OfPayloads(ClientWrites, FuFrom(n, off, last)) == FuStart(n, off) + n[off..]
    decreases |n| - off
  {
    hide ClientWrites, Fragment, FuStart;
    var mid := off + FuSize(n, off);
    ClientFragment(n, off, last);
    if mid == |n| {
      OfPayloadsOne(ClientWrites, Fragment(n, off, last));
      assert FuFrom(n, off, last) == [Fragment(n, off, last)];
    } else {
      ClientFu(n, mid, last);
      OfPayloadsConcat(ClientWrites, [Fragment(n, off, last)], FuFrom(n, mid, last));
      OfPayloadsOne(ClientWrites, Fragment(n, off, last));
      NoStart(n, mid);
      CutOne(n, FuStart(n, off), off, mid);
    }
  }

  /** What the player makes of one NAL unit sent without aggregation: fragments lose F, a unit of a
      type below 24 is written as it is, one of type 28 is taken for a fragment, any other is dropped. */
  function PlayerOut(n: Nal): seq<Byte> {
    if |n| > RTP_PAYLOAD_MAX then START_CODE + [n[0] & 0x7f] + n[1..]
    else if n == [] || n[0] & 0x1f < 24 then START_CODE + n
    else if n[0] & 0x1f == 28 && |n| >= 2 then
      if n[1] & 0x80 != 0 then START_CODE + [(n[0] & 0xe0) | (n[1] & 0x1f)] + n[2..] else n[2..]
    else []
  }

  function PlayerOuts(nals: seq<Nal>): seq<Byte> {
    if nals == [] then [] else PlayerOut(nals[0]) + PlayerOuts(nals[1..])
  }

  /** The NAL units that arrive unchanged: a fragmented one must have F clear, and an
      unfragmented one a type below 24. */
  predicate PlayerKeeps(n: Nal) {
    if |n| > RTP_PAYLOAD_MAX then n[0] & 0x80 == 0 else n == [] || n[0] & 0x1f < 24
  }

  /** A one-byte NAL unit of type 28 would be taken for a fragment without a FU header. */
  predicate WellDefined(n: Nal) {
    |n| == 1 ==> n[0] & 0x1f != 28
  }

  lemma {:induction false} RebuiltFields(a: Byte, b: Byte)
    ensures RebuiltHeader(a, b) == (a & 0xe0) | (b & 0x1f) && (b >> 7 == 1 <==> b & 0x80 != 0)
  {}

  lemma {:induction false} PlayerShort(n: Nal)
    requires |n| <= RTP_PAYLOAD_MAX
    ensures PlayerWrites(Bare(Payload(n, false))) == PlayerOut(n)
  {
    hide Bare, RebuiltHeader;
    BareParts(Payload(n, false));
    RebuiltFields(At(n, 0), At(n, 1));
  }

  lemma {:induction false} PlayerNal(m: Mux, n: Nal, last: bool)
    requires !m.aggregation && m.held == []
    ensures OfPayloads(PlayerWrites, NalPayloads(m, n, last)) == PlayerOut(n)
    ensures NalHeld(m, n, last) == []
  {
    hide PlayerWrites, FuFrom;
    if |n| > RTP_PAYLOAD_MAX {
      PlayerFu(n, 1, last);
      assert Flush([]) + FuFrom(n, 1, last) == FuFrom(n, 1, last);
    } else {
      PlayerShort(n);
      OfPayloadsOne(PlayerWrites, Payload(n, last));
    }
  }

  lemma {:induction false} PlayerRun(m: Mux, nals: seq<Nal>)
    requires !m.aggregation && m.held == []
    ensures Writes(PlayerWrites, RunPackets(m, nals)) == PlayerOuts(nals)
    decreases |nals|
  {
    hide PlayerWrites, PlayerOut, NalPayloads, NalHeld;
    if nals == [] {
    } else {
      var last := |nals| == 1;
      ReceiversAreHeaderBlind();
      RunWritesStep(PlayerWrites, m, nals);
      PlayerNal(m, nals[0], last);
      PlayerRun(AfterNal(m, nals[0], last), nals[1..]);
    }
  }

  lemma {:induction false} PlayerOutKept(n: Nal)
    requires WellDefined(n)
    ensures |PlayerOut(n)| <= |Code(true) + n|
    ensures PlayerOut(n) == Code(true) + n <==> PlayerKeeps(n)
  {
    if |n| > RTP_PAYLOAD_MAX {
      FuKept(n);
    }
  }

  lemma {:induction false} FuKept(n: Nal)
    requires n != []
    ensures START_CODE + [n[0] & 0x7f] + n[1..] == Code(true) + n <==> n[0] & 0x80 == 0
  {
    assert n == [n[0]] + n[1..];
    assert (Code(true) + n)[4] == n[0] && (START_CODE + [n[0] & 0x7f] + n[1..])[4] == n[0] & 0x7f;
    assert n[0] & 0x7f == n[0] <==> n[0] & 0x80 == 0;
  }

  /** The player's file is the joined stream exactly when every NAL unit arrives unchanged. */
  lemma {:induction false} PlayerOutsAreJoin(nals: seq<Nal>)
    requires forall n :: n in nals ==> WellDefined(n)
    ensures |PlayerOuts(nals)| <= |Join(nals)|
    ensures PlayerOuts(nals) == Join(nals) <==> forall n :: n in nals ==> PlayerKeeps(n)
  {
    hide PlayerOut, PlayerKeeps;
    if nals == [] {
    } else {
      var head, tail := nals[0], nals[1..];
      PlayerOutKept(head);
      PlayerOutsAreJoin(tail);
      SameConcat(PlayerOut(head), PlayerOuts(tail), Code(true) + head, Join(tail));
      assert forall n :: n in nals <==> n == head || n in tail;
    }
  }

  lemma {:induction false} SameConcat<T>(a: seq<T>, b: seq<T>, c: seq<T>, d: seq<T>)
    requires |a| <= |c| && |b| <= |d|
    ensures a + b == c + d <==> a == c && b == d
  {
    if a + b == c + d {
      assert |a| == |c|;
      assert (a + b)[..|a|] == a && (c + d)[..|c|] == c;
      assert (a + b)[|a|..] == b && (c + d)[|c|..] == d;
    }
  }

  /** One start code of four bytes for every NAL unit. */
  function AllLong(n: nat): (long: seq<bool>)
    ensures |long| == n
  {
    if n == 0 then [] else [true] + AllLong(n - 1)
  }

  lemma {:induction false} JoinIsAllLong(nals: seq<Nal>)
    ensures Join(nals) == JoinWith(AllLong(|nals|), nals)
  {
    if nals == [] {
    } else {
      JoinIsAllLong(nals[1..]);
      assert AllLong(|nals|)[1..] == AllLong(|nals| - 1);
    }
  }

  /** End to end: join the NAL units with 00 00 00 01, send the stream without aggregation and
      hand the packets in order to the player. Its file is the original stream exactly when
      the NAL units all arrive unchanged. */
  lemma {:induction false} EndToEnd(m: Mux, nals: seq<Nal>)
    requires !m.aggregation && m.held == []
    requires Splittable(AllLong(|nals|), nals)
    requires forall n :: n in nals ==> WellDefined(n)
    ensures Writes(PlayerWrites, RunPackets(m, Split(Join(nals)))) == Join(nals)
       <==> forall n :: n in nals ==> PlayerKeeps(n)
  {
    hide PlayerWrites, PlayerKeeps, Splittable, Split, Join, JoinWith, RunPackets, PlayerOuts;
    JoinIsAllLong(nals);
    SplitJoinWith(AllLong(|nals|), nals);
    PlayerRun(m, nals);
    PlayerOutsAreJoin(nals);
  }

  lemma {:induction false} AllLongUnique(long: seq<bool>)
    ensures long == AllLong(|long|) <==> forall i :: 0 <= i < |long| ==> long[i]
  {
    if long == [] {
    } else {
      AllLongUnique(long[1..]);
      HeadTail(long);
      assert forall i :: 0 <= i < |long| ==> (if i == 0 then long[i] == long[0] else long[i] == long[1..][i - 1]);
      assert (forall i :: 0 <= i < |long| ==> long[i]) ==> forall i :: 0 <= i < |long[1..]| ==> long[1..][i];
    }
  }

  /** For any stream at all whose NAL units arrive unchanged, the player writes them with long
      start codes; that is the stream itself exactly when it begins with a start code and all
      its start codes are long. */
  lemma {:induction false} PlayerOnAnyStream(m: Mux, s: seq<Byte>) returns (long: seq<bool>)
    requires !m.aggregation && m.held == []
    requires forall n :: n in Split(s) ==> WellDefined(n) && PlayerKeeps(n)
    ensures |long| == |Split(s)| && s[NextCode(s, 0)..] == JoinWith(long, Split(s))
    ensures Writes(PlayerWrites, RunPackets(m, Split(s))) == Join(Split(s))
    ensures Join(Split(s)) == s <==> NextCode(s, 0) == 0 && forall i :: 0 <= i < |long| ==> long[i]
  {
    hide PlayerWrites, PlayerKeeps, Splittable, Split, Join, JoinWith, RunPackets, PlayerOuts, NextCode;
    var ns := Split(s);
    long := SplitPartitions(s);
    PlayerRun(m, ns);
    PlayerOutsAreJoin(ns);
    JoinIsAllLong(ns);
    AllLongUnique(long);
    assert s[0..] == s;
    if Join(ns) == s {
      if ns == [] {
        EmptyStream(s);
      } else {
        JoinWithFront(AllLong(|ns|), ns);
        JoinWithInjective(long, AllLong(|ns|), ns);
      }
    }
  }

  lemma {:induction false} EmptyStream(s: seq<Byte>)
    requires s == Join([])
    ensures NextCode(s, 0) == 0
  {}

  // --- with aggregation ---

  /** The NAL units that are sent in fragments. */
  function Long(nals: seq<Nal>): seq<Nal> {
    if nals == [] then [] else (if |nals[0]| > RTP_PAYLOAD_MAX then [nals[0]] else []) + Long(nals[1..])
  }

  /** An aggregate leaves no trace in the player's file. */
  lemma {:induction false} PlayerDropsStap(hs: seq<Nal>, mark: bool)
    requires hs != []
    ensures OfPayloads(PlayerWrites, [Payload(Stap(hs), mark)]) == []
  {
    hide Bare, StapHeader, StapBody, RebuiltHeader;
    OfPayloadsOne(PlayerWrites, Payload(Stap(hs), mark));
    BareParts(Payload(Stap(hs), mark));
    StapHeaderBits(hs);
  }

  lemma {:induction false} PlayerNothing()
    ensures OfPayloads(PlayerWrites, []) == []
  {}

  lemma {:induction false} PlayerDropsFlush(held: seq<Nal>)
    ensures OfPayloads(PlayerWrites, Flush(held)) == []
  {
    hide PlayerWrites, Stap;
    if held == [] {
    } else {
      PlayerDropsStap(held, false);
    }
  }

  lemma {:induction false} PlayerNalAggregated(m: Mux, n: Nal, last: bool)
    requires m.aggregation
    ensures OfPayloads(PlayerWrites, NalPayloads(m, n, last)) == PlayerOuts(Long([n]))
  {
    hide PlayerWrites, FuFrom, Stap, Full, Flush, OfPayloads, PlayerOut;
    PlayerDropsFlush(m.held);
    PlayerNothing();
    assert [n][1..] == [];
    if |n| > RTP_PAYLOAD_MAX {
      PlayerFu(n, 1, last);
      OfPayloadsConcat(PlayerWrites, Flush(m.held), FuFrom(n, 1, last));
      LongOut(n);
    } else {
      var flushed := if Full(m.held, n) then Flush(m.held) else [];
      var hs := Aggregate(m.held, n);
      PlayerDropsStap(hs, true);
      OfPayloadsConcat(PlayerWrites, flushed, if last then [Payload(Stap(hs), true)] else []);
    }
  }

  lemma {:induction false} LongOut(n: Nal)
    requires |n| > RTP_PAYLOAD_MAX
    ensures PlayerOuts(Long([n])) == START_CODE + [n[0] & 0x7f] + n[1..]
  {
    assert [n][1..] == [] && Long([n]) == [n] && PlayerOut(n) + [] == PlayerOut(n);
  }

  lemma {:induction false} PlayerOutsBoth(a: seq<Nal>, b: seq<Nal>)
    ensures PlayerOuts(a + b) == PlayerOuts(a) + PlayerOuts(b)
  {
    hide PlayerOut;
    if a == [] {
      assert a + b == b;
    } else {
      HeadOfConcat(a, b);
      PlayerOutsBoth(a[1..], b);
      Assoc(PlayerOut(a[0]), PlayerOuts(a[1..]), PlayerOuts(b));
    }
  }

  /** The player on any run sent with aggregation: of all units only the fragmented ones reach its
      file, in order, whatever the sender held before. */
  lemma {:induction false} PlayerAggregatedRun(m: Mux, nals: seq<Nal>)
    requires m.aggregation
    ensures Writes(PlayerWrites, RunPackets(m, nals)) == PlayerOuts(Long(nals))
    decreases |nals|
  {
    hide PlayerWrites, PlayerOuts, NalPayloads, NalHeld, NalPackets, OfPayloads, Long;
    if nals == [] {
      NoOuts();
    } else {
      var last := |nals| == 1;
      ReceiversAreHeaderBlind();
      RunWritesStep(PlayerWrites, m, nals);
      PlayerNalAggregated(m, nals[0], last);
      PlayerAggregatedRun(AfterNal(m, nals[0], last), nals[1..]);
      LongCons(nals);
      PlayerOutsBoth(Long([nals[0]]), Long(nals[1..]));
    }
  }

  lemma {:induction false} NoOuts()
    ensures PlayerOuts([]) == [] && Long([]) == []
  {}

  lemma {:induction false} LongCons(nals: seq<Nal>)
    requires nals != []
    ensures Long(nals) == Long([nals[0]]) + Long(nals[1..])
  {
    assert [nals[0]][1..] == [];
  }
}
