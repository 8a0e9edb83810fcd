/** Bytes, big-endian fields and the writers of Utils.c, plus the few facts about
    concatenated sequences that every other module needs. */
module Bytes {

  type Byte = bv8

  function Val(b: Byte): int {
    b as int
  }

  lemma {:induction false} ValRange(b: Byte)
    ensures 0 <= Val(b) < 256
  {}

  lemma {:induction false} ValShift(b: Byte)
    requires Val(b) < 128
    ensures Val(b << 1) == 2 * Val(b) && Val((b << 1) | 1) == 2 * Val(b) + 1
  {
    assert b < 128;
  }

  lemma {:induction false} ValInjective(b: Byte, c: Byte)
    requires Val(b) == Val(c)
    ensures b == c
  {
    assert !(b < c) && !(c < b);
  }

  /** The byte with a given value, by binary expansion. */
  function ToByte(n: nat): (b: Byte)
    requires n < 256
    ensures Val(b) == n
  {
    if n == 0 then 0
    else
      var h := ToByte(n / 2);
      ValShift(h);
      if n % 2 == 0 then h << 1 else (h << 1) | 1
  }

  /** The two bytes, most significant first, of the low 16 bits of x. */
  function Be16(x: nat): (s: seq<Byte>)
    ensures |s| == 2
  {
    [ToByte(x / 256 % 256), ToByte(x % 256)]
  }

  function Be32(x: nat): (s: seq<Byte>)
    ensures |s| == 4
  {
    Be16(x / 0x1_0000) + Be16(x)
  }

  function Get16(s: seq<Byte>, i: nat): int
    requires i + 2 <= |s|
  {
    Val(s[i]) * 256 + Val(s[i + 1])
  }

  function Get32(s: seq<Byte>, i: nat): int
    requires i + 4 <= |s|
  {
    Get16(s, i) * 0x1_0000 + Get16(s, i + 2)
  }

  lemma {:induction false} Get16Range(s: seq<Byte>, i: nat)
    requires i + 2 <= |s|
    ensures 0 <= Get16(s, i) < 0x1_0000
  {
    ValRange(s[i]);
    ValRange(s[i + 1]);
  }

  /** The sequence t lies in s at position i. */
  predicate Holds<T(==)>(s: seq<T>, i: nat, t: seq<T>) {
    i + |t| <= |s| && s[i..i + |t|] == t
  }

  lemma {:induction false} HoldsAt<T>(s: seq<T>, i: nat, t: seq<T>, k: nat)
    requires Holds(s, i, t) && k < |t|
    ensures s[i + k] == t[k]
  {
    assert s[i..i + |t|][k] == s[i + k];
  }

  lemma {:induction false} HoldsParts<T>(s: seq<T>, i: nat, x: seq<T>, y: seq<T>)
    requires Holds(s, i, x + y)
    ensures Holds(s, i, x) && Holds(s, i + |x|, y)
  {
    assert s[i..i + |x + y|][..|x|] == x && s[i..i + |x + y|][|x|..] == y;
  }

  /** Two base-256 digits from a value's decomposition, and back. */
  lemma {:induction false} LowDigits(x: nat, b: nat, d: nat, r: nat)
    requires x == 0x1_0000 * b + 256 * d + r && d < 256 && r < 256
    ensures x % 256 == r && x / 256 % 256 == d && x % 0x1_0000 == 256 * d + r
  {
    assert x / 256 == 256 * b + d;
  }

  lemma {:induction false} Digits(x: nat)
    ensures x == 0x1_0000 * (x / 256 / 256) + 256 * (x / 256 % 256) + x % 256
    ensures x % 0x1_0000 == 256 * (x / 256 % 256) + x % 256
  {
    LowDigits(x, x / 256 / 256, x / 256 % 256, x % 256);
  }

  lemma {:induction false} Words(x: nat)
    requires x < 0x1_0000_0000
    ensures x == x / 0x1_0000 % 0x1_0000 * 0x1_0000 + x % 0x1_0000
  {}

  /** Reading back a 16-bit field gives the value modulo its width. */
  lemma {:induction false} Get16Be16(x: nat, s: seq<Byte>, i: nat)
    requires Holds(s, i, Be16(x))
    ensures i + 2 <= |s| && Get16(s, i) == x % 0x1_0000
  {
    HoldsAt(s, i, Be16(x), 0);
    HoldsAt(s, i, Be16(x), 1);
    Digits(x);
  }

  lemma {:induction false} Get32Be32(x: nat, s: seq<Byte>, i: nat)
    requires x < 0x1_0000_0000 && Holds(s, i, Be32(x))
    ensures i + 4 <= |s| && Get32(s, i) == x
  {
    HoldsParts(s, i, Be16(x / 0x1_0000), Be16(x));
    Get16Be16(x / 0x1_0000, s, i);
    Get16Be16(x, s, i + 2);
    Words(x);
  }

  /** Network byte order: the first byte of a field weighs most. */
  lemma {:induction false} NetworkOrder(x: nat)
    ensures x < 0x1_0000 ==> 256 * Val(Be16(x)[0]) + Val(Be16(x)[1]) == x
    ensures var b := Be32(x); x < 0x1_0000_0000 ==>
      0x100_0000 * Val(b[0]) + 0x1_0000 * Val(b[1]) + 256 * Val(b[2]) + Val(b[3]) == x
  {
    hide ToByte;
    assert Holds(Be16(x), 0, Be16(x)) && Holds(Be32(x), 0, Be32(x));
    Get16Be16(x, Be16(x), 0);
    if x < 0x1_0000_0000 {
      Get32Be32(x, Be32(x), 0);
    }
  }

  /** Utils.c, Load8: store one byte and return the advanced position. */
  method Load8(a: array<Byte>, p: nat, x: Byte) returns (q: nat)
    requires p < a.Length
    modifies a
    ensures q == p + 1
    ensures a[..q] == old(a[..p]) + [x] && a[q..] == old(a[p + 1..])
  {
    a[p] := x;
    q := p + 1;
  }

  method Load16(a: array<Byte>, p: nat, x: nat) returns (q: nat)
    requires p + 2 <= a.Length
    modifies a
    ensures q == p + 2
    ensures a[..q] == old(a[..p]) + Be16(x) && a[q..] == old(a[p + 2..])
  {
    q := Load8(a, p, ToByte(x / 256 % 256));
    q := Load8(a, q, ToByte(x % 256));
  }

  method Load32(a: array<Byte>, p: nat, x: nat) returns (q: nat)
    requires p + 4 <= a.Length
    modifies a
    ensures q == p + 4
    ensures a[..q] == old(a[..p]) + Be32(x) && a[q..] == old(a[p + 4..])
  {
    q := Load16(a, p, x / 0x1_0000);
    q := Load16(a, q, x);
  }

  /** memcpy of a run of bytes into a buffer. */
  method CopyInto(a: array<Byte>, p: nat, src: seq<Byte>)
    requires p + |src| <= a.Length
    modifies a
    ensures a[..p + |src|] == old(a[..p]) + src && a[p + |src|..] == old(a[p + |src|..])
  {
    forall i | 0 <= i < |src| {
      a[p + i] := src[i];
    }
  }

  /** The concatenation of a list of sequences. */
  function Flat<T>(ss: seq<seq<T>>): seq<T> {
    if ss == [] then [] else ss[0] + Flat(ss[1..])
  }

  lemma {:induction false} HeadOfConcat<T>(a: seq<T>, b: seq<T>)
    requires a != []
    ensures a + b != [] && (a + b)[0] == a[0] && (a + b)[1..] == a[1..] + b
  {}

  lemma {:induction false} Assoc<T>(a: seq<T>, b: seq<T>, c: seq<T>)
    ensures (a + b) + c == a + (b + c)
  {}

  lemma {:induction false} SameBehind<T>(a: seq<T>, x: seq<T>, y: seq<T>)
    ensures a + x == a + y <==> x == y
  {
    assert (a + x)[|a|..] == x && (a + y)[|a|..] == y;
  }

  lemma {:induction false} HeadTail<T>(xs: seq<T>)
    requires xs != []
    ensures [xs[0]] + xs[1..] == xs
  {}

  lemma {:induction false} Cut3<T>(s: seq<T>, r: nat, b: nat, e: nat)
    requires r <= b <= e <= |s|
    ensures s[r..] == s[r..b] + s[b..e] + s[e..]
  {}

  lemma {:induction false} Prefix<T>(s: seq<T>, e: nat, tail: seq<T>, n: nat)
    requires e <= |s| && s[e..] == tail && n <= |tail|
    ensures e + n <= |s| && s[e..e + n] == tail[..n]
  {
    assert s[e..][..n] == s[e..e + n];
  }

  lemma {:induction false} Uncut3<T>(s: seq<T>, r: nat, x: seq<T>, y: seq<T>, z: seq<T>)
    requires r <= |s| && s[r..] == x + y + z
    ensures |s| == r + |x| + |y| + |z|
    ensures s[r..r + |x|] == x
    ensures s[r + |x|..r + |x| + |y|] == y
    ensures s[r + |x| + |y|..] == z
  {
    assert s == s[..r] + x + y + z;
  }
}
