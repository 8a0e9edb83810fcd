/** The byte state machine of h264bytestreamparser.cpp, and its agreement with the splitter
    of the other sender. */
module ByteStreamParser {
  import opened Bytes
  import opened AnnexB
  import opened Packets
  import opened Options

  /** One call of next_nalu from position p: flag counts the zeros held back, buff is the NAL
      unit so far. Gives the NAL unit, or nothing at end of file, and the new position. */
  function Scan(s: seq<Byte>, p: nat, flag: nat, buff: Nal): (r: (Option<Nal>, nat))
    ensures r.0.Some? ==> p < r.1 <= |s| && r.0.value != []
    decreases |s| - p
  {
    if p >= |s| then (None, p)
    else
      var b := s[p];
      if flag == 0 then
        if b != 0 then Scan(s, p + 1, 0, buff + [b]) else Scan(s, p + 1, 1, buff)
      else if flag == 1 then
        if b == 0 then Scan(s, p + 1, 2, buff) else Scan(s, p + 1, 0, buff + [0, b])
      else if flag == 2 then
        if b == 0 then Scan(s, p + 1, 3, buff)
        else if b == 1 then (if buff != [] then (Some(buff), p + 1) else Scan(s, p + 1, 0, buff))
        else Scan(s, p + 1, 0, buff + [0, 0, b])
      else
        if b == 1 && buff != [] then (Some(buff), p + 1) else Scan(s, p + 1, 0, buff)
  }

  class H264ByteStreamParser {
    const h264file: seq<Byte>
    var pos: nat

    constructor (file: seq<Byte>)
      ensures h264file == file && pos == 0
    {
      h264file, pos := file, 0;
    }

    method NextNalu() returns (nal: Option<Nal>)
      modifies this
      ensures (nal, pos) == Scan(h264file, old(pos), 0, [])
    {
      var buff: Nal := [];
      var tmpbuf := new Byte[4];
      var flag := 0;
      while true
        invariant 0 <= flag <= 3
        invariant (flag >= 1 ==> tmpbuf[0] == 0) && (flag >= 2 ==> tmpbuf[1] == 0)
        invariant Scan(h264file, pos, flag, buff) == Scan(h264file, old(pos), 0, [])
        decreases |h264file| - pos
      {
        if pos >= |h264file| {
          return None;
        }
        var b := h264file[pos];
        pos := pos + 1;
        if flag == 0 && b != 0x0 {
          buff := buff + [b];
        } else if flag == 0 && b == 0x0 {
          flag := 1;
          tmpbuf[0] := b;
        } else if flag == 1 {
          if b == 0x0 {
            flag := flag + 1;
            tmpbuf[1] := b;
          } else {
            flag := 0;
            buff := buff + [tmpbuf[0], b];
          }
        } else if flag == 2 {
          if b == 0x0 {
            flag := flag + 1;
            tmpbuf[2] := b;
          } else if b == 0x1 {
            flag := 0;
            if |buff| > 0 {
              return Some(buff);
            }
          } else {
            flag := 0;
            buff := buff + [tmpbuf[0], tmpbuf[1], b];
          }
        } else {
          if b == 0x1 {
            flag := 0;
            if |buff| > 0 {
              return Some(buff);
            }
          } else {
            flag := 0;
          }
        }
      }
    }
  }

  /** The NAL units repeated calls return until the end of the file. */
  function ParsedFrom(s: seq<Byte>, p: nat): seq<Nal>
    decreases |s| - p
  {
    var r := Scan(s, p, 0, []);
    if r.0.None? then [] else [r.0.value] + ParsedFrom(s, r.1)
  }

  lemma {:induction false} ParsedOne(s: seq<Byte>, p: nat)
    ensures var r := Scan(s, p, 0, []);
      ParsedFrom(s, p) == if r.0.None? then [] else [r.0.value] + ParsedFrom(s, r.1)
  {}

  /** The NAL units the state machine passes through whole: not empty, no 00 00 00 or 00 00 01
      inside, and no zero at the end. */
  ghost predicate Plain(n: Nal) {
    n != [] && !EndsInZero(n) && NoCode(n) && forall i :: !ZerosAt(n, i)
  }

  predicate ZerosAt(n: Nal, i: int) {
    0 <= i && i + 3 <= |n| && n[i] == 0 && n[i + 1] == 0 && n[i + 2] == 0
  }

  lemma {:induction false} TakeMore<T>(n: seq<T>, i: nat, j: nat, t: seq<T>)
    requires i <= j <= |n| && t == n[i..j]
    ensures n[..i] + t == n[..j]
  {}

  lemma {:induction false} ScanByte(s: seq<Byte>, p: nat, buff: Nal)
    requires p < |s| && s[p] != 0
    ensures Scan(s, p, 0, buff) == Scan(s, p + 1, 0, buff + [s[p]])
  {}

  lemma {:induction false} ScanZero(s: seq<Byte>, p: nat, buff: Nal)
    requires p + 1 < |s| && s[p] == 0 && s[p + 1] != 0
    ensures Scan(s, p, 0, buff) == Scan(s, p + 2, 0, buff + [0, s[p + 1]])
  {
    assert Scan(s, p, 0, buff) == Scan(s, p + 1, 1, buff);
  }

  lemma {:induction false} ScanZeros(s: seq<Byte>, p: nat, buff: Nal)
    requires p + 2 < |s| && s[p] == 0 && s[p + 1] == 0 && s[p + 2] != 0 && s[p + 2] != 1
    ensures Scan(s, p, 0, buff) == Scan(s, p + 3, 0, buff + [0, 0, s[p + 2]])
  {
    assert Scan(s, p, 0, buff) == Scan(s, p + 1, 1, buff) == Scan(s, p + 2, 2, buff);
  }

  lemma {:induction false} PlainAt(n: Nal, i: nat)
    requires Plain(n) && i < |n|
    ensures n[i] == 0 ==> i + 1 < |n|
    ensures n[i] == 0 && n[i + 1] == 0 ==> i + 2 < |n| && n[i + 2] != 0 && n[i + 2] != 1
  {
    assert !ZerosAt(n, i) && !CodeAt(n, i);
  }

  lemma {:induction false} HoldsFrom(s: seq<Byte>, p: nat, n: Nal, i: nat, k: nat)
    requires i + k < |n| && Holds(s, p, n[i..])
    ensures p + k < |s| && s[p + k] == n[i + k]
    ensures Holds(s, p + k + 1, n[i + k + 1..])
  {
    HoldsAt(s, p, n[i..], k);
    assert n[i..] == n[i..i + k + 1] + n[i + k + 1..];
    HoldsParts(s, p, n[i..i + k + 1], n[i + k + 1..]);
  }

  /** How far one round of the machine gets inside a NAL unit: a byte that is not zero, or one
      or two zeros with the byte after them. */
  lemma {:induction false} Round(s: seq<Byte>, p: nat, n: Nal, i: nat) returns (j: nat)
    requires Plain(n) && i < |n| && Holds(s, p, n[i..])
    ensures i < j <= |n|
    ensures Holds(s, p + (j - i), n[j..])
    ensures Scan(s, p, 0, n[..i]) == Scan(s, p + (j - i), 0, n[..j])
  {
    hide Plain, Scan, Holds;
    PlainAt(n, i);
    HoldsFrom(s, p, n, i, 0);
    assert s[p] == n[i];
    if n[i] != 0 {
      j := i + 1;
      ScanByte(s, p, n[..i]);
      TakeMore(n, i, j, [n[i]]);
    } else {
      HoldsFrom(s, p, n, i, 1);
      assert s[p + 1] == n[i + 1];
      if n[i + 1] != 0 {
        j := i + 2;
        ScanZero(s, p, n[..i]);
        TakeMore(n, i, j, [0, n[i + 1]]);
      } else {
        HoldsFrom(s, p, n, i, 2);
        assert s[p + 2] == n[i + 2];
        j := i + 3;
        ScanZeros(s, p, n[..i]);
        TakeMore(n, i, j, [0, 0, n[i + 2]]);
      }
    }
  }

  /** At a start code the machine hands over what it has; with nothing it just goes on. */
  lemma {:induction false} AtCode(s: seq<Byte>, p: nat, long: bool, buff: Nal)
    requires Holds(s, p, Code(long))
    ensures var q := p + |Code(long)|;
      q <= |s| && Scan(s, p, 0, buff) == if buff != [] then (Some(buff), q) else Scan(s, q, 0, [])
  {
    HoldsAt(s, p, Code(long), 0);
    HoldsAt(s, p, Code(long), 1);
    HoldsAt(s, p, Code(long), 2);
    assert Scan(s, p, 0, buff) == Scan(s, p + 1, 1, buff) == Scan(s, p + 2, 2, buff);
    if long {
      HoldsAt(s, p, Code(long), 3);
      assert Scan(s, p + 2, 2, buff) == Scan(s, p + 3, 3, buff);
    }
  }

  /** A plain NAL unit in front of a start code is returned whole. */
  lemma {:induction false} ScanNal(s: seq<Byte>, p: nat, n: Nal, i: nat, long: bool)
    requires Plain(n) && i <= |n|
    requires Holds(s, p, n[i..]) && Holds(s, p + |n| - i, Code(long))
    ensures Scan(s, p, 0, n[..i]) == (Some(n), p + |n| - i + |Code(long)|)
    decreases |n| - i
  {
    hide Scan, Plain;
    if i == |n| {
      assert n[..i] == n;
      PlainNonEmpty(n);
      AtCode(s, p, long, n);
    } else {
      var j := Round(s, p, n, i);
      ScanNal(s, p + (j - i), n, j, long);
    }
  }

  lemma {:induction false} PlainNonEmpty(n: Nal)
    requires Plain(n)
    ensures n != []
  {}

  // --- zeros behind a NAL unit ---

  function Zeros(k: nat): (z: seq<Byte>)
    ensures |z| == k && forall i :: 0 <= i < k ==> z[i] == 0
  {
    seq(k, _ => 0)
  }

  /** Four zeros in a row are dropped. */
  lemma {:induction false} FourZeros(s: seq<Byte>, p: nat, buff: Nal)
    requires p + 4 <= |s| && s[p] == 0 && s[p + 1] == 0 && s[p + 2] == 0 && s[p + 3] == 0
    ensures Scan(s, p, 0, buff) == Scan(s, p + 4, 0, buff)
  {
    assert Scan(s, p, 0, buff) == Scan(s, p + 1, 1, buff) == Scan(s, p + 2, 2, buff) == Scan(s, p + 3, 3, buff);
  }

  lemma {:induction false} ZerosLeft(s: seq<Byte>, p: nat, z: nat, b: Byte)
    requires z >= 4 && Holds(s, p, Zeros(z) + [b])
    ensures p + 4 <= |s| && s[p] == 0 && s[p + 1] == 0 && s[p + 2] == 0 && s[p + 3] == 0
    ensures Holds(s, p + 4, Zeros(z - 4) + [b])
  {
    hide Zeros;
    var t := Zeros(z) + [b];
    HoldsAt(s, p, t, 0);
    HoldsAt(s, p, t, 1);
    HoldsAt(s, p, t, 2);
    HoldsAt(s, p, t, 3);
    assert t == Zeros(4) + (Zeros(z - 4) + [b]);
    HoldsParts(s, p, Zeros(4), Zeros(z - 4) + [b]);
  }

  /** At most three zeros and the byte behind them: what is returned, or goes on in the buffer. */
  lemma {:induction false} FewZeros(s: seq<Byte>, p: nat, z: nat, b: Byte, buff: Nal)
    requires z <= 3 && b != 0 && Holds(s, p, Zeros(z) + [b])
    ensures Scan(s, p, 0, buff) == BehindZeros(s, p + z + 1, z, b, buff)
  {
    var t := Zeros(z) + [b];
    assert buff + [] == buff;
    HoldsAt(s, p, t, z);
    if z >= 1 {
      HoldsAt(s, p, t, 0);
    }
    if z >= 2 {
      HoldsAt(s, p, t, 1);
      assert Scan(s, p, 0, buff) == Scan(s, p + 1, 1, buff) == Scan(s, p + 2, 2, buff);
    }
    if z >= 3 {
      HoldsAt(s, p, t, 2);
      assert Scan(s, p + 2, 2, buff) == Scan(s, p + 3, 3, buff);
    }
  }

  /** What z zeros and a byte that is none do to the buffer: a 01 behind two or three of every four
      ends a NAL unit, two of them and any other byte are data, and three swallow that byte. */
  function BehindZeros(s: seq<Byte>, q: nat, z: nat, b: Byte, buff: Nal): (Option<Nal>, nat) {
    if b == 1 && z % 4 >= 2 && buff != [] then (Some(buff), q)
    else
      var data: Nal :=
        if z % 4 == 3 || (z % 4 == 2 && b == 1) then []
        else if z % 4 == 2 then [0, 0, b] else if z % 4 == 1 then [0, b] else [b];
      Scan(s, q, 0, buff + data)
  }

  lemma {:induction false} ManyZeros(s: seq<Byte>, p: nat, z: nat, b: Byte, buff: Nal)
    requires b != 0 && Holds(s, p, Zeros(z) + [b])
    ensures Scan(s, p, 0, buff) == BehindZeros(s, p + z + 1, z, b, buff)
    decreases z
  {
    hide Scan, Zeros, Holds;
    if z <= 3 {
      FewZeros(s, p, z, b, buff);
    } else {
      ZerosLeft(s, p, z, b);
      FourZeros(s, p, buff);
      ManyZeros(s, p + 4, z - 4, b, buff);
    }
  }

  lemma {:induction false} ScanPlain(s: seq<Byte>, p: nat, n: Nal, i: nat)
    requires Plain(n) && i <= |n| && Holds(s, p, n[i..])
    ensures Scan(s, p, 0, n[..i]) == Scan(s, p + |n| - i, 0, n)
    decreases |n| - i
  {
    hide Scan, Plain;
    if i == |n| {
      assert n[..i] == n;
    } else {
      var j := Round(s, p, n, i);
      ScanPlain(s, p + (j - i), n, j);
    }
  }

  /** Any number of zeros behind a plain NAL unit, and a byte that is none. */
  lemma {:induction false} ZerosBehind(s: seq<Byte>, p: nat, n: Nal, z: nat, b: Byte)
    requires Plain(n) && b != 0 && Holds(s, p, n + (Zeros(z) + [b]))
    ensures Scan(s, p, 0, []) == BehindZeros(s, p + |n| + z + 1, z, b, n)
  {
    hide Scan, Plain, Zeros, BehindZeros, Holds;
    HoldsParts(s, p, n, Zeros(z) + [b]);
    assert n[0..] == n && n[..0] == [];
    ScanPlain(s, p, n, 0);
    ManyZeros(s, p + |n|, z, b, n);
  }

  /** Zeros and a 01 behind a plain NAL unit: it is returned there exactly when the zeros are two or
      three more than a multiple of four; otherwise the 01 is taken for data of the same unit. */
  lemma {:induction false} OneBehindZeros(s: seq<Byte>, p: nat, n: Nal, z: nat)
    requires Plain(n) && Holds(s, p, n + (Zeros(z) + [1]))
    ensures Scan(s, p, 0, []) == (Some(n), p + |n| + z + 1) <==> z % 4 >= 2
    ensures z % 4 == 0 ==> Scan(s, p, 0, []) == Scan(s, p + |n| + z + 1, 0, n + [1])
    ensures z % 4 == 1 ==> Scan(s, p, 0, []) == Scan(s, p + |n| + z + 1, 0, n + [0, 1])
  {
    hide Scan, Plain, Holds;
    PlainNonEmpty(n);
    ZerosBehind(s, p, n, z, 1);
    if z % 4 < 2 {
      LaterThan(s, p + |n| + z + 1, n + if z % 4 == 0 then [1] else [0, 1]);
    }
  }

  /** What is returned later ends later. */
  lemma {:induction false} LaterThan(s: seq<Byte>, q: nat, buff: Nal)
    ensures Scan(s, q, 0, buff).0.Some? ==> Scan(s, q, 0, buff).1 > q
  {
    hide Scan;
  }

  lemma {:induction false} AtEnd(s: seq<Byte>, p: nat)
    requires p >= |s|
    ensures ParsedFrom(s, p) == []
  {}

  /** A file whose first unit has a zero behind it: the fourth zero in a row hides the start code. */
  lemma {:induction false} TrailingZero()
    ensures ParsedFrom([0, 0, 0, 1, 0x65, 0, 0, 0, 0, 1, 0x41, 0, 0, 0, 1], 0) == [[0x65, 1, 0x41]]
  {
    hide Scan;
    var s, n: Nal := [0, 0, 0, 1, 0x65, 0, 0, 0, 0, 1, 0x41, 0, 0, 0, 1], [0x65, 1, 0x41];
    AtCode(s, 0, true, []);
    ScanByte(s, 4, []);
    FourZeros(s, 5, [0x65]);
    ScanByte(s, 9, [0x65]);
    ScanByte(s, 10, [0x65, 1]);
    assert [] + [s[4]] == [0x65] && [0x65] + [s[9]] == [0x65, 1] && [0x65, 1] + [s[10]] == n;
    AtCode(s, 11, true, n);
    ParsedOne(s, 0);
    AtEnd(s, 15);
    assert [n] + [] == [n];
  }

  /** The last flag bytes in front of p are the zeros held back. */
  ghost predicate ZerosHeld(s: seq<Byte>, p: nat, flag: nat) {
    flag <= 3 && flag <= p <= |s| && forall j :: p - flag <= j < p ==> s[j] == 0
  }

  /** A NAL unit is only ever returned at the end of a prefix 00 00 01, whatever the file holds:
      nothing behind the last one is returned. */
  lemma {:induction false} ScanLast(s: seq<Byte>, p: nat, flag: nat, buff: Nal)
    requires ZerosHeld(s, p, flag)
    ensures var r := Scan(s, p, flag, buff);
      if r.0.Some? then p + 3 <= r.1 + flag && 3 <= r.1 && CodeAt(s, r.1 - 3) else r.1 == |s|
    decreases |s| - p
  {
    if p >= |s| {
    } else {
      var b := s[p];
      if flag == 0 {
        ScanLast(s, p + 1, if b == 0 then 1 else 0, if b == 0 then buff else buff + [b]);
      } else if flag == 1 {
        ScanLast(s, p + 1, if b == 0 then 2 else 0, if b == 0 then buff else buff + [0, b]);
      } else if flag == 2 && b == 0 {
        ScanLast(s, p + 1, 3, buff);
      } else if b != 1 || buff == [] {
        ScanLast(s, p + 1, 0, if flag == 3 || b == 1 then buff else buff + [0, 0, b]);
      }
    }
  }

  /** Where no prefix lies ahead, nothing is returned. */
  lemma {:induction false} LastIsLost(s: seq<Byte>, p: nat)
    requires p <= |s| && forall i :: p <= i ==> !CodeAt(s, i)
    ensures Scan(s, p, 0, []).0.None? && ParsedFrom(s, p) == []
  {
    hide Scan;
    ScanLast(s, p, 0, []);
  }

  ghost predicate PlainSoFar(buff: Nal) {
    buff == [] || Plain(buff)
  }

  lemma {:induction false} PlainGrows(buff: Nal, zeros: nat, b: Byte)
    requires PlainSoFar(buff) && zeros <= 2 && b != 0 && (zeros == 2 ==> b != 1)
    ensures Plain(buff + ([0, 0][..zeros] + [b]))
  {
    var n := buff + ([0, 0][..zeros] + [b]);
    forall i ensures !CodeAt(n, i) && !ZerosAt(n, i) {
      assert !CodeAt(buff, i) && !ZerosAt(buff, i);
    }
  }

  /** Whatever the file holds, only plain NAL units are returned. */
  lemma {:induction false} ScanIsPlain(s: seq<Byte>, p: nat, flag: nat, buff: Nal)
    requires PlainSoFar(buff)
    ensures var r := Scan(s, p, flag, buff); r.0.Some? ==> Plain(r.0.value)
    decreases |s| - p
  {
    hide Plain;
    if p >= |s| {
    } else {
      var b := s[p];
      if flag <= 2 && b == 0 {
        ScanIsPlain(s, p + 1, flag + 1, buff);
      } else if flag == 3 || flag > 3 || (flag == 2 && b == 1) {
        if b != 1 || buff == [] {
          ScanIsPlain(s, p + 1, 0, buff);
        }
      } else {
        PlainGrows(buff, flag, b);
        assert [0, 0][..flag] + [b] == if flag == 0 then [b] else if flag == 1 then [0, b] else [0, 0, b];
        ScanIsPlain(s, p + 1, 0, buff + ([0, 0][..flag] + [b]));
      }
    }
  }

  lemma {:induction false} ParsedIsPlain(s: seq<Byte>, p: nat)
    ensures forall n :: n in ParsedFrom(s, p) ==> Plain(n)
    decreases |s| - p
  {
    hide Scan, Plain;
    var r := Scan(s, p, 0, []);
    ScanIsPlain(s, p, 0, []);
    if r.0.None? {
    } else {
      ParsedIsPlain(s, r.1);
      assert forall n :: n in ParsedFrom(s, p) ==> n == r.0.value || n in ParsedFrom(s, r.1);
    }
  }

  /** The scan looks only at what lies ahead. */
  lemma {:induction false} ScanShifts(s: seq<Byte>, d: nat, p: nat, flag: nat, buff: Nal)
    requires d <= p <= |s|
    ensures Scan(s, p, flag, buff).0 == Scan(s[d..], p - d, flag, buff).0
    decreases |s| - p
  {
    if p >= |s| {
    } else {
      var b := s[p];
      assert s[d..][p - d] == b;
      if flag <= 2 && b == 0 {
        ScanShifts(s, d, p + 1, flag + 1, buff);
      } else if flag == 0 {
        ScanShifts(s, d, p + 1, 0, buff + [b]);
      } else if flag == 1 {
        ScanShifts(s, d, p + 1, 0, buff + [0, b]);
      } else if flag == 2 && b != 1 {
        ScanShifts(s, d, p + 1, 0, buff + [0, 0, b]);
      } else if b != 1 || buff == [] {
        ScanShifts(s, d, p + 1, 0, buff);
      }
    }
  }

  /** Every NAL unit but the last is plain. */
  ghost predicate PlainButLast(nals: seq<Nal>) {
    forall i :: 0 <= i < |nals| - 1 ==> Plain(nals[i])
  }

  /** From the first byte of a NAL unit of a joined stream, repeated calls return every NAL
      unit but the last, and then what they find in the last. */
  lemma {:induction false} ParsedFromNal(s: seq<Byte>, p: nat, long: seq<bool>, nals: seq<Nal>)
    requires |long| == |nals| > 0 && PlainButLast(nals)
    requires Holds(s, p, nals[0] + JoinWith(long[1..], nals[1..]))
    requires p + |nals[0] + JoinWith(long[1..], nals[1..])| == |s|
    ensures |nals[|nals| - 1]| <= |s| && s[|s| - |nals[|nals| - 1]|..] == nals[|nals| - 1]
    ensures ParsedFrom(s, p) == nals[..|nals| - 1] + ParsedFrom(s, |s| - |nals[|nals| - 1]|)
    decreases |nals|
  {
    hide Scan, Plain, Code, JoinWith, Holds;
    var n, tail := nals[0], JoinWith(long[1..], nals[1..]);
    HoldsParts(s, p, n, tail);
    if |nals| == 1 {
      JoinWithNothing(long[1..], nals[1..]);
      HoldsAll(s, p, n);
      assert nals[..0] + ParsedFrom(s, p) == ParsedFrom(s, p);
    } else {
      assert n[0..] == n && n[..0] == [];
      var c, rest := Code(long[1]), nals[1..][0] + JoinWith(long[1..][1..], nals[1..][1..]);
      TailStream(long[1..], nals[1..]);
      HoldsParts(s, p + |n|, c, rest);
      ScanNal(s, p, n, 0, long[1]);
      ParsedFromNal(s, p + |n| + |c|, long[1..], nals[1..]);
      var end := ParsedFrom(s, |s| - |nals[|nals| - 1]|);
      assert nals[..|nals| - 1] == [n] + nals[1..][..|nals[1..]| - 1];
      Assoc([n], nals[1..][..|nals[1..]| - 1], end);
    }
  }

  lemma {:induction false} HoldsWhole(s: seq<Byte>)
    ensures Holds(s, 0, s)
  {}

  lemma {:induction false} HoldsAll(s: seq<Byte>, p: nat, n: Nal)
    requires Holds(s, p, n) && p + |n| == |s|
    ensures s[p..] == n
  {}

  lemma {:induction false} TailStream(long: seq<bool>, nals: seq<Nal>)
    requires |long| == |nals| > 0
    ensures JoinWith(long, nals) == Code(long[0]) + (nals[0] + JoinWith(long[1..], nals[1..]))
  {
    hide Code;
    Assoc(Code(long[0]), nals[0], JoinWith(long[1..], nals[1..]));
  }

  lemma {:induction false} JoinWithNothing(long: seq<bool>, nals: seq<Nal>)
    requires |long| == |nals| == 0
    ensures JoinWith(long, nals) == []
  {}

  /** On a joined stream, repeated calls return all NAL units but the last, and then what they find
      in the last. */
  lemma {:induction false} ParsedJoinRest(long: seq<bool>, nals: seq<Nal>)
    requires |long| == |nals| > 0 && PlainButLast(nals)
    ensures var s, n := JoinWith(long, nals), nals[|nals| - 1];
      && |n| <= |s| && s[|s| - |n|..] == n
      && ParsedFrom(s, 0) == nals[..|nals| - 1] + ParsedFrom(s, |s| - |n|)
  {
    hide Scan, Plain, JoinWith, Holds, Code, ParsedFrom;
    var s := JoinWith(long, nals);
    var rest := nals[0] + JoinWith(long[1..], nals[1..]);
    TailStream(long, nals);
    HoldsWhole(s);
    HoldsParts(s, 0, Code(long[0]), rest);
    AtCode(s, 0, long[0], []);
    ParsedFromNal(s, |Code(long[0])|, long, nals);
    ParsedOne(s, 0);
    ParsedOne(s, |Code(long[0])|);
  }

  /** They return exactly the NAL units in front of the last one if and only if those are plain and
      nothing is found in the last. */
  lemma {:induction false} ParsedJoinExactly(long: seq<bool>, nals: seq<Nal>)
    requires |long| == |nals| > 0
    ensures ParsedFrom(JoinWith(long, nals), 0) == nals[..|nals| - 1]
       <==> PlainButLast(nals) && Scan(nals[|nals| - 1], 0, 0, []).0.None?
  {
    hide Scan, Plain, JoinWith, ParsedFrom;
    var s, front, n := JoinWith(long, nals), nals[..|nals| - 1], nals[|nals| - 1];
    if ParsedFrom(s, 0) == front {
      ParsedIsPlain(s, 0);
      forall i | 0 <= i < |nals| - 1 ensures Plain(nals[i]) {
        assert nals[i] == front[i];
      }
    }
    if PlainButLast(nals) {
      ParsedJoinRest(long, nals);
      var q := |s| - |n|;
      ScanShifts(s, q, q, 0, []);
      ParsedOne(s, q);
      assert front + [] == front;
    }
  }

  /** On a joined stream of plain NAL units, repeated calls return all but the last, in order. */
  lemma {:induction false} ParsedJoin(long: seq<bool>, nals: seq<Nal>)
    requires |long| == |nals| && forall n :: n in nals ==> Plain(n)
    ensures ParsedFrom(JoinWith(long, nals), 0) == if nals == [] then [] else nals[..|nals| - 1]
  {
    hide Scan, Plain, JoinWith, ParsedFrom;
    if nals == [] {
      JoinWithNothing(long, nals);
      NothingParsed(JoinWith(long, nals));
    } else {
      PlainIsLost(nals[|nals| - 1]);
      ParsedJoinExactly(long, nals);
    }
  }

  lemma {:induction false} PlainIsLost(n: Nal)
    requires Plain(n)
    ensures Scan(n, 0, 0, []).0.None?
  {
    hide Scan;
    LastIsLost(n, 0);
  }

  lemma {:induction false} NothingParsed(s: seq<Byte>)
    requires s == []
    ensures ParsedFrom(s, 0) == []
  {}

  lemma {:induction false} PlainIsSplittable(long: seq<bool>, nals: seq<Nal>)
    requires |long| == |nals| && forall n :: n in nals ==> Plain(n)
    ensures Splittable(long, nals)
  {
    if nals == [] {
    } else {
      assert Plain(nals[0]);
      PlainIsSplittable(long[1..], nals[1..]);
    }
  }

  /** The two senders see the same NAL units, except that the state machine, which only returns
      a NAL unit at the start code behind it, drops the last one. */
  lemma {:induction false} ParserAgreesWithSplitter(long: seq<bool>, nals: seq<Nal>)
    requires |long| == |nals| > 0 && forall n :: n in nals ==> Plain(n)
    ensures Split(JoinWith(long, nals)) == ParsedFrom(JoinWith(long, nals), 0) + [nals[|nals| - 1]]
  {
    hide Plain, Split, ParsedFrom, JoinWith;
    ParsedJoin(long, nals);
    PlainIsSplittable(long, nals);
    SplitJoinWith(long, nals);
  }
}
