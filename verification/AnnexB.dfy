/** The start-code scanner of AVC.c and the splitting it induces on an Annex B stream. */
module AnnexB {
  import opened Bytes

  /** The three-byte prefix 00 00 01 lies at position i. */
  predicate CodeAt(s: seq<Byte>, i: int) {
    0 <= i && i + 3 <= |s| && s[i] == 0 && s[i + 1] == 0 && s[i + 2] == 1
  }

  /** The naive scan: the least i in [p, end-3) where the prefix lies, else end. */
  function FirstCode(s: seq<Byte>, p: nat): (out: nat)
    requires p <= |s|
    ensures p <= out <= |s|
    ensures out < |s| ==> CodeAt(s, out) && out + 3 < |s|
    decreases |s| - p
  {
    if p + 3 >= |s| then |s|
    else if CodeAt(s, p) then p
    else FirstCode(s, p + 1)
  }

  lemma {:induction false} FirstCodeLeast(s: seq<Byte>, p: nat)
    requires p <= |s|
    ensures forall i :: p <= i < FirstCode(s, p) && i + 3 < |s| ==> !CodeAt(s, i)
    decreases |s| - p
  {
    if p + 3 >= |s| || CodeAt(s, p) {
    } else {
      FirstCodeLeast(s, p + 1);
    }
  }

  /** The naive scan is the only scan that meets its contract. */
  lemma {:induction false} FirstCodeIs(s: seq<Byte>, p: nat, out: nat)
    requires p <= out <= |s|
    requires out < |s| ==> CodeAt(s, out) && out + 3 < |s|
    requires forall i :: p <= i < out && i + 3 < |s| ==> !CodeAt(s, i)
    ensures FirstCode(s, p) == out
  {
    FirstCodeLeast(s, p);
  }

  /** The 32-bit word a little-endian load of four bytes yields. */
  function Word(a: Byte, b: Byte, c: Byte, d: Byte): bv32 {
    (a as bv32) | ((b as bv32) << 8) | ((c as bv32) << 16) | ((d as bv32) << 24)
  }

  /** The scanner's filter on a word. */
  predicate MayHoldZero(x: bv32) {
    (x - 0x01010101) & !x & 0x80808080 != 0
  }

  lemma {:induction false} MayHoldZeroIsExact(a: Byte, b: Byte, c: Byte, d: Byte)
    ensures MayHoldZero(Word(a, b, c, d)) <==> a == 0 || b == 0 || c == 0 || d == 0
  {}

  /** ff_avc_find_startcode_internal on the buffer s, end being its length; base is the
      address of its first byte, of which only the remainder modulo 4 matters. */
  method FindStartCodeInternal(s: seq<Byte>, start: nat, base: nat) returns (out: nat)
    requires start <= |s|
    ensures start <= out <= |s|
    ensures out < |s| ==> CodeAt(s, out) && out + 3 < |s|
    ensures forall i :: start <= i < out && i + 3 < |s| ==> !CodeAt(s, i)
    ensures out == FirstCode(s, start)
  {
    hide FirstCode, Word, MayHoldZero;
    var p: int := start;
    var a := p + 4 - (base + p) % 4;
    var end := |s| - 3;
    while p < a && p < end
      invariant start <= p && (p <= end || p == start)
      invariant forall i :: start <= i < p ==> !CodeAt(s, i)
    {
      if s[p] == 0 && s[p + 1] == 0 && s[p + 2] == 1 {
        FirstCodeIs(s, start, p);
        return p;
      }
      p := p + 1;
    }
    end := end - 3;
    while p < end
      invariant start <= p && (p <= end + 3 || p == start)
      invariant forall i :: start <= i < p ==> !CodeAt(s, i)
    {
      var x := Word(s[p], s[p + 1], s[p + 2], s[p + 3]);
      MayHoldZeroIsExact(s[p], s[p + 1], s[p + 2], s[p + 3]);
      if MayHoldZero(x) {
        if s[p + 1] == 0 {
          if s[p] == 0 && s[p + 2] == 1 {
            FirstCodeIs(s, start, p);
            return p;
          }
          if s[p + 2] == 0 && s[p + 3] == 1 {
            FirstCodeIs(s, start, p + 1);
            return p + 1;
          }
        }
        if s[p + 3] == 0 {
          if s[p + 2] == 0 && s[p + 4] == 1 {
            FirstCodeIs(s, start, p + 2);
            return p + 2;
          }
          if s[p + 4] == 0 && s[p + 5] == 1 {
            FirstCodeIs(s, start, p + 3);
            return p + 3;
          }
        }
      }
      p := p + 4;
    }
    end := end + 3;
    while p < end
      invariant start <= p && (p <= end || p == start)
      invariant forall i :: start <= i < p ==> !CodeAt(s, i)
    {
      if s[p] == 0 && s[p + 1] == 0 && s[p + 2] == 1 {
        FirstCodeIs(s, start, p);
        return p;
      }
      p := p + 1;
    }
    FirstCodeIs(s, start, |s|);
    return end + 3;
  }

  /** Where the next start code begins: one byte earlier when a zero precedes the prefix. */
  function NextCode(s: seq<Byte>, p: nat): (out: nat)
    requires p <= |s|
    ensures p <= out <= |s|
  {
    var o := FirstCode(s, p);
    if p < o < |s| && s[o - 1] == 0 then o - 1 else o
  }

  method FindStartCode(s: seq<Byte>, p: nat, base: nat) returns (out: nat)
    requires p <= |s|
    ensures out == NextCode(s, p)
  {
    out := FindStartCodeInternal(s, p, base);
    if p < out && out < |s| && s[out - 1] == 0 {
      out := out - 1;
    }
  }

  /** A start code the scanner reports begins at r: 00 00 01 or 00 00 00 01, with a byte after it. */
  predicate CodeStart(s: seq<Byte>, r: int) {
    || (CodeAt(s, r) && r + 3 < |s|)
    || (0 <= r < |s| && s[r] == 0 && CodeAt(s, r + 1) && r + 4 < |s|)
  }

  function CodeLen(s: seq<Byte>, r: nat): nat {
    if CodeAt(s, r) then 3 else 4
  }

  /** The NAL units the sender finds from the start code at r on. */
  function SplitFrom(s: seq<Byte>, r: nat): seq<seq<Byte>>
    decreases |s| - r
  {
    if !CodeStart(s, r) then []
    else
      var b := r + CodeLen(s, r);
      var e := NextCode(s, b);
      [s[b..e]] + SplitFrom(s, e)
  }

  /** The NAL unit behind the start code at r. */
  function FirstNal(s: seq<Byte>, r: nat): seq<Byte>
    requires CodeStart(s, r)
  {
    var b := r + CodeLen(s, r);
    s[b..NextCode(s, b)]
  }

  function Split(s: seq<Byte>): seq<seq<Byte>> {
    SplitFrom(s, NextCode(s, 0))
  }

  /** No prefix the scanner would report lies in s. */
  ghost predicate NoCode(s: seq<Byte>) {
    forall i :: !CodeAt(s, i)
  }

  /** The same, but a prefix in the very last three bytes goes unnoticed. */
  ghost predicate NoCodeBeforeEnd(s: seq<Byte>) {
    forall i :: CodeAt(s, i) ==> i + 3 == |s|
  }

  function Code(long: bool): seq<Byte> {
    if long then [0, 0, 0, 1] else [0, 0, 1]
  }

  /** The stream that puts a start code, long or short as chosen, before each NAL unit. */
  function JoinWith(long: seq<bool>, nals: seq<seq<Byte>>): seq<Byte>
    requires |long| == |nals|
  {
    if nals == [] then [] else Code(long[0]) + nals[0] + JoinWith(long[1..], nals[1..])
  }

  /** The stream with 00 00 00 01 before each NAL unit. */
  function Join(nals: seq<seq<Byte>>): seq<Byte> {
    if nals == [] then [] else Code(true) + nals[0] + Join(nals[1..])
  }

  /** Exactly when splitting gives back the joined NAL units: no unit but the last holds the
      prefix, a unit followed by a short code does not end in a zero byte, and the last unit
      is not empty and holds the prefix at most in its last three bytes. */
  ghost predicate Splittable(long: seq<bool>, nals: seq<seq<Byte>>)
    requires |long| == |nals|
  {
    if nals == [] then true
    else if |nals| == 1 then nals[0] != [] && NoCodeBeforeEnd(nals[0])
    else
      && NoCode(nals[0])
      && (long[1] || !EndsInZero(nals[0]))
      && Splittable(long[1..], nals[1..])
  }

  predicate EndsInZero(s: seq<Byte>) {
    s != [] && s[|s| - 1] == 0
  }

  /** A start code in the stream, with a byte after it, is seen as one. */
  lemma {:induction false} CodeIsStart(s: seq<Byte>, r: nat, long: bool)
    requires r + |Code(long)| < |s| && s[r..r + |Code(long)|] == Code(long)
    ensures CodeStart(s, r) && CodeLen(s, r) == |Code(long)|
    ensures CodeAt(s, r) <==> !long
  {
    var c := Code(long);
    assert forall i :: 0 <= i < |c| ==> s[r + i] == c[i];
    assert CodeAt(s, if long then r + 1 else r);
  }

  /** A NAL unit without the prefix ends exactly where the next start code begins. */
  lemma {:induction false} NalEnd(s: seq<Byte>, b: nat, e: nat, long: bool)
    requires b <= e && e + |Code(long)| < |s| && s[e..e + |Code(long)|] == Code(long)
    requires NoCode(s[b..e]) && (long || !EndsInZero(s[b..e]))
    ensures NextCode(s, b) == e
  {
    CodeIsStart(s, e, long);
    var at := if long then e + 1 else e;
    forall i | b <= i < at
      ensures !CodeAt(s, i)
    {
      if i + 3 <= e {
        assert !CodeAt(s[b..e], i - b);
      }
    }
    FirstCodeIs(s, b, at);
  }

  lemma {:induction false} LastNalEnd(s: seq<Byte>, b: nat)
    requires b <= |s| && NoCodeBeforeEnd(s[b..])
    ensures NextCode(s, b) == |s|
  {
    forall i | b <= i && i + 3 < |s|
      ensures !CodeAt(s, i)
    {
      assert !CodeAt(s[b..], i - b);
    }
    FirstCodeIs(s, b, |s|);
  }

  lemma {:induction false} JoinWithStarts(long: seq<bool>, nals: seq<seq<Byte>>)
    requires |long| == |nals| > 0
    requires Splittable(long, nals)
    ensures |JoinWith(long, nals)| > |Code(long[0])|
    ensures JoinWith(long, nals)[..|Code(long[0])|] == Code(long[0])
  {
    if |nals| <= 1 {
    } else {
      JoinWithStarts(long[1..], nals[1..]);
    }
  }

  lemma {:induction false} FirstNalEnd(s: seq<Byte>, b: nat, e: nat, long: seq<bool>, nals: seq<seq<Byte>>)
    requires |long| == |nals| > 0 && Splittable(long, nals)
    requires b <= e <= |s| && s[b..e] == nals[0]
    requires s[e..] == JoinWith(long[1..], nals[1..])
    ensures b < |s| && NextCode(s, b) == e
  {
    if |nals| == 1 {
      assert e == |s| && s[b..] == s[b..e];
      LastNalEnd(s, b);
    } else {
      JoinWithStarts(long[1..], nals[1..]);
      Prefix(s, e, JoinWith(long[1..], nals[1..]), |Code(long[1])|);
      NalEnd(s, b, e, long[1]);
    }
  }

  /** From r on, the buffer is a joined stream of these NAL units. */
  ghost predicate Joined(s: seq<Byte>, r: nat, long: seq<bool>, nals: seq<seq<Byte>>) {
    |long| == |nals| && Splittable(long, nals) && r <= |s| && s[r..] == JoinWith(long, nals)
  }

  lemma {:induction false} JoinedParts(s: seq<Byte>, r: nat, long: seq<bool>, nals: seq<seq<Byte>>)
    requires Joined(s, r, long, nals) && nals != []
    ensures |long| == |nals| && r <= |s| && s[r..] == Code(long[0]) + nals[0] + JoinWith(long[1..], nals[1..])
    ensures Splittable(long, nals) && Splittable(long[1..], nals[1..])
  {
    hide Code, NoCode, NoCodeBeforeEnd, EndsInZero;
  }

  /** The first pass of the loop over a joined stream emits the first NAL unit. */
  lemma {:induction false} FirstPass(s: seq<Byte>, r: nat, long: seq<bool>, nals: seq<seq<Byte>>)
    returns (b: nat, e: nat)
    requires Joined(s, r, long, nals) && nals != []
    ensures CodeStart(s, r) && b == r + CodeLen(s, r) <= e <= |s| && NextCode(s, b) == e
    ensures s[b..e] == nals[0] && Joined(s, e, long[1..], nals[1..])
  {
    JoinedParts(s, r, long, nals);
    hide Code, Splittable, JoinWith, NextCode, CodeStart, CodeLen;
    b := r + |Code(long[0])|;
    e := b + |nals[0]|;
    Uncut3(s, r, Code(long[0]), nals[0], JoinWith(long[1..], nals[1..]));
    FirstNalEnd(s, b, e, long, nals);
    CodeIsStart(s, r, long[0]);
  }

  lemma {:induction false} LaterPasses(s: seq<Byte>, r: nat, b: nat, e: nat, nals: seq<seq<Byte>>)
    requires nals != [] && CodeStart(s, r) && b == r + CodeLen(s, r) <= e <= |s| && NextCode(s, b) == e
    requires s[b..e] == nals[0] && SplitFrom(s, e) == nals[1..]
    ensures SplitFrom(s, r) == nals
  {
    HeadTail(nals);
  }

  lemma {:induction false} NothingLeft(s: seq<Byte>, r: nat, long: seq<bool>)
    requires Joined(s, r, long, [])
    ensures SplitFrom(s, r) == []
  {
    assert r == |s|;
  }

  /** Splitting inverts joining, wherever in the buffer the joined stream starts. */
  lemma {:induction false} SplitFromJoin(s: seq<Byte>, r: nat, long: seq<bool>, nals: seq<seq<Byte>>)
    requires Joined(s, r, long, nals)
    ensures SplitFrom(s, r) == nals
    decreases |nals|
  {
    if nals == [] {
      NothingLeft(s, r, long);
    } else {
      var b, e := FirstPass(s, r, long, nals);
      SplitFromJoin(s, e, long[1..], nals[1..]);
      LaterPasses(s, r, b, e, nals);
    }
  }

  /** A stream that starts with a start code is split from its first byte. */
  lemma {:induction false} NextCodeAtFront(j: seq<Byte>, long: bool)
    requires |j| > |Code(long)| && j[..|Code(long)|] == Code(long)
    ensures NextCode(j, 0) == 0
  {
    CodeIsStart(j, 0, long);
    FirstCodeIs(j, 0, if long then 1 else 0);
  }

  lemma {:induction false} SplitJoinWith(long: seq<bool>, nals: seq<seq<Byte>>)
    requires |long| == |nals|
    requires Splittable(long, nals)
    ensures NextCode(JoinWith(long, nals), 0) == 0
    ensures Split(JoinWith(long, nals)) == nals
  {
    var j := JoinWith(long, nals);
    if nals != [] {
      JoinWithStarts(long, nals);
      NextCodeAtFront(j, long[0]);
    }
    assert j[0..] == j;
    SplitFromJoin(j, 0, long, nals);
  }

  lemma {:induction false} NextCodeIsStart(s: seq<Byte>, p: nat)
    requires p <= |s| && NextCode(s, p) < |s|
    ensures CodeStart(s, NextCode(s, p))
  {}

  lemma {:induction false} NextCodeReadsZero(s: seq<Byte>, p: nat)
    requires p <= |s| && NextCode(s, p) < |s|
    ensures s[NextCode(s, p)] == 0
  {}

  lemma {:induction false} SplitStart(s: seq<Byte>)
    ensures Split(s) == SplitFrom(s, NextCode(s, 0))
    ensures NextCode(s, 0) == |s| || CodeStart(s, NextCode(s, 0))
    ensures |s| == 0 ==> NextCode(s, 0) == 0
  {}

  /** What a pass of the sender's loop takes off the list of NAL units. */
  lemma {:induction false} SplitStep(s: seq<Byte>, r: nat)
    requires CodeStart(s, r)
    ensures var e := NextCode(s, r + CodeLen(s, r));
      && (e == |s| || CodeStart(s, e))
      && SplitFrom(s, r) != [] && SplitFrom(s, r)[0] == FirstNal(s, r) && SplitFrom(s, r)[1..] == SplitFrom(s, e)
      && (|SplitFrom(s, r)| == 1 <==> e == |s|)
  {}

  lemma {:induction false} SplitEnd(s: seq<Byte>)
    ensures SplitFrom(s, |s|) == []
  {}

  /** The NAL unit a step emits holds no prefix the scanner would report, and is closed by a
      short code only if it does not end in a zero byte. */
  lemma {:induction false} StepNal(s: seq<Byte>, b: nat)
    requires b < |s|
    ensures var e := NextCode(s, b);
      if e == |s| then s[b..e] != [] && NoCodeBeforeEnd(s[b..e])
      else NoCode(s[b..e]) && (CodeAt(s, e) ==> !EndsInZero(s[b..e]))
  {
    var e := NextCode(s, b);
    FirstCodeLeast(s, b);
    forall i | CodeAt(s[b..e], i)
      ensures e == |s| && b + i + 3 == |s|
    {
      assert CodeAt(s, b + i);
    }
  }

  lemma {:induction false} JoinWithCons(l: bool, n: seq<Byte>, long: seq<bool>, nals: seq<seq<Byte>>)
    requires |long| == |nals|
    ensures JoinWith([l] + long, [n] + nals) == Code(l) + n + JoinWith(long, nals)
  {
    assert ([l] + long)[1..] == long && ([n] + nals)[1..] == nals;
  }

  lemma {:induction false} SplittableCons(l: bool, n: seq<Byte>, long: seq<bool>, nals: seq<seq<Byte>>)
    requires |long| == |nals|
    requires Splittable(long, nals)
    requires if nals == [] then n != [] && NoCodeBeforeEnd(n) else NoCode(n) && (long[0] || !EndsInZero(n))
    ensures Splittable([l] + long, [n] + nals)
  {
    assert ([l] + long)[1..] == long && ([n] + nals)[1..] == nals;
  }

  lemma {:induction false} CodeBytes(s: seq<Byte>, r: nat)
    requires CodeStart(s, r)
    ensures s[r..r + CodeLen(s, r)] == Code(!CodeAt(s, r))
  {}

  /** From the first start code on, the stream is its start codes and emitted NAL units,
      nothing more and nothing less. */
  lemma {:induction false} SplitFromPartitions(s: seq<Byte>, r: nat) returns (long: seq<bool>)
    requires r == |s| || CodeStart(s, r)
    ensures |long| == |SplitFrom(s, r)|
    ensures s[r..] == JoinWith(long, SplitFrom(s, r))
    ensures Splittable(long, SplitFrom(s, r))
    ensures r < |s| ==> long != [] && (long[0] <==> !CodeAt(s, r))
    decreases |s| - r
  {
    if r == |s| {
      long := [];
    } else {
      var l := !CodeAt(s, r);
      var b := r + CodeLen(s, r);
      var e := NextCode(s, b);
      var n := s[b..e];
      StepNal(s, b);
      if e < |s| {
        NextCodeIsStart(s, b);
      }
      var rest := SplitFromPartitions(s, e);
      long := [l] + rest;
      assert SplitFrom(s, r) == [n] + SplitFrom(s, e);
      JoinWithCons(l, n, rest, SplitFrom(s, e));
      SplittableCons(l, n, rest, SplitFrom(s, e));
      CodeBytes(s, r);
      Cut3(s, r, b, e);
    }
  }

  lemma {:induction false} SplitPartitions(s: seq<Byte>) returns (long: seq<bool>)
    ensures |long| == |Split(s)|
    ensures s[NextCode(s, 0)..] == JoinWith(long, Split(s))
    ensures Splittable(long, Split(s))
  {
    if NextCode(s, 0) < |s| {
      NextCodeIsStart(s, 0);
    }
    long := SplitFromPartitions(s, NextCode(s, 0));
  }

  lemma {:induction false} JoinWithInjective(a: seq<bool>, b: seq<bool>, nals: seq<seq<Byte>>)
    requires |a| == |b| == |nals|
    requires JoinWith(a, nals) == JoinWith(b, nals)
    ensures a == b
  {
    if nals == [] {
    } else {
      assert JoinWith(a, nals)[2] == Code(a[0])[2] && JoinWith(b, nals)[2] == Code(b[0])[2];
      var k := |Code(a[0])| + |nals[0]|;
      assert JoinWith(a, nals)[k..] == JoinWith(a[1..], nals[1..]);
      assert JoinWith(b, nals)[k..] == JoinWith(b[1..], nals[1..]);
      JoinWithInjective(a[1..], b[1..], nals[1..]);
    }
  }

  lemma {:induction false} LoneCode(long: bool)
    ensures Split(Code(long)) == []
  {
    var c := Code(long);
    FirstCodeIs(c, 0, |c|);
    assert !CodeStart(c, |c|);
  }

  lemma {:induction false} JoinWithFront(long: seq<bool>, nals: seq<seq<Byte>>)
    requires |long| == |nals| > 0
    requires Split(JoinWith(long, nals)) != []
    ensures NextCode(JoinWith(long, nals), 0) == 0
  {
    var j, c := JoinWith(long, nals), Code(long[0]);
    assert |j| == |c| + |nals[0]| + |JoinWith(long[1..], nals[1..])| && j[..|c|] == c;
    if |j| > |c| {
      NextCodeAtFront(j, long[0]);
    } else {
      assert j == j[..|c|] == c;
      LoneCode(long[0]);
    }
  }

  /** The sender recovers the joined NAL units exactly when they are splittable. */
  lemma {:induction false} SplitJoinWithExactly(long: seq<bool>, nals: seq<seq<Byte>>)
    requires |long| == |nals|
    ensures Split(JoinWith(long, nals)) == nals <==> Splittable(long, nals)
  {
    if Splittable(long, nals) {
      SplitJoinWith(long, nals);
    } else if Split(JoinWith(long, nals)) == nals {
      var j := JoinWith(long, nals);
      var found := SplitPartitions(j);
      JoinWithFront(long, nals);
      assert j[0..] == j;
      JoinWithInjective(found, long, nals);
    }
  }
}
