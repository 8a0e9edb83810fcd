/** The decoder of base64.c, against the encoding of section 4 of RFC 4648. */
module Base64 {
  import opened Bytes
  import opened Options

  const PAD: Byte := 0x3D
  const SKIP: Byte := 0x80

  /** base64_table: A-Z, a-z, 0-9, '+', '/'. */
  function Alphabet(v: Byte): Byte
    requires v < 64
  {
    if v < 26 then v + 0x41
    else if v < 52 then v - 26 + 0x61
    else if v < 62 then v - 52 + 0x30
    else if v == 62 then 0x2B
    else 0x2F
  }

  /** The place of a character in the alphabet. */
  function Sextet(c: Byte): Byte {
    if 0x41 <= c <= 0x5A then c - 0x41
    else if 0x61 <= c <= 0x7A then c - 0x61 + 26
    else if 0x30 <= c <= 0x39 then c - 0x30 + 52
    else if c == 0x2B then 62
    else if c == 0x2F then 63
    else SKIP
  }

  lemma {:induction false} SextetInverts(v: Byte, c: Byte)
    ensures v < 64 ==> Sextet(Alphabet(v)) == v && Alphabet(v) != PAD
    ensures Sextet(c) != SKIP ==> Sextet(c) < 64 && Alphabet(Sextet(c)) == c
  {}

  /** The decoding table: padding counts as zero, anything else outside the alphabet is skipped. */
  function DTable(c: Byte): Byte {
    if c == PAD then 0 else Sextet(c)
  }

  /** The characters that count. */
  function Filtered(src: seq<Byte>): seq<Byte> {
    if src == [] then []
    else
      var l := |src| - 1;
      Filtered(src[..l]) + if DTable(src[l]) != SKIP then [src[l]] else []
  }

  /** Four sextets give three bytes, and so do four characters. */
  function Triple(a: Byte, b: Byte, c: Byte, d: Byte): seq<Byte> {
    [(a << 2) | (b >> 4), (b << 4) | (c >> 2), (c << 6) | d]
  }

  function Block(a: Byte, b: Byte, c: Byte, d: Byte): seq<Byte> {
    Triple(DTable(a), DTable(b), DTable(c), DTable(d))
  }

  function Blocks(f: seq<Byte>): (out: seq<Byte>)
    requires |f| % 4 == 0
    ensures |out| == |f| / 4 * 3
  {
    if f == [] then []
    else
      var l := |f| - 4;
      Blocks(f[..l]) + Block(f[l], f[l + 1], f[l + 2], f[l + 3])
  }

  /** How many bytes the padding of the last block takes off. */
  function PadCount(f: seq<Byte>): nat
    requires |f| % 4 == 0
  {
    if f == [] then 0
    else if f[|f| - 2] == PAD then 2
    else if f[|f| - 1] == PAD then 1
    else 0
  }

  function Decode(src: seq<Byte>): Option<seq<Byte>> {
    var f := Filtered(src);
    if |f| % 4 != 0 then None
    else
      var out := Blocks(f);
      Some(out[..|out| - PadCount(f)])
  }

  /** The table after the first i letters of the alphabet have been entered. */
  ghost predicate Entered(t: seq<Byte>, i: Byte) {
    |t| == 256 && forall c: Byte :: t[c as int] == if Sextet(c) < i then Sextet(c) else SKIP
  }

  lemma {:induction false} SextetStep(c: Byte, i: Byte)
    requires i < 64
    ensures Sextet(c) < i + 1 <==> Sextet(c) < i || c == Alphabet(i)
    ensures Sextet(Alphabet(i)) == i
  {
    SextetInverts(i, c);
  }

  lemma {:induction false} EnterAt(t: seq<Byte>, i: Byte, c: Byte)
    requires i < 64 && |t| == 256 && t[c as int] == if Sextet(c) < i then Sextet(c) else SKIP
    ensures t[Alphabet(i) as int := i][c as int] == if Sextet(c) < i + 1 then Sextet(c) else SKIP
  {
    hide Sextet, Alphabet;
    SextetStep(c, i);
    if c != Alphabet(i) && Val(c) == Val(Alphabet(i)) {
      ValInjective(c, Alphabet(i));
    }
  }

  lemma {:induction false} EnterOne(t: seq<Byte>, i: Byte)
    requires i < 64 && Entered(t, i)
    ensures |t| == 256 && Entered(t[Alphabet(i) as int := i], i + 1)
  {
    hide Sextet, Alphabet;
    forall c: Byte ensures t[Alphabet(i) as int := i][c as int] == if Sextet(c) < i + 1 then Sextet(c) else SKIP {
      EnterAt(t, i, c);
    }
  }

  lemma {:induction false} PadEntered(t: seq<Byte>, c: Byte)
    requires Entered(t, 64)
    ensures |t| == 256 && t[PAD as int := 0][c as int] == DTable(c)
  {
    SextetInverts(0, c);
    if Val(c) == Val(PAD) {
      ValInjective(c, PAD);
    }
  }

  method BuildTable() returns (dtable: array<Byte>)
    ensures fresh(dtable) && dtable.Length == 256
    ensures forall c: Byte :: dtable[c as int] == DTable(c)
  {
    hide Entered, Alphabet, DTable;
    dtable := new Byte[256](i => SKIP);
    var i: Byte := 0;
    assert Entered(dtable[..], 0) by { NoneEntered(dtable[..]); }
    while i < 64
      invariant i <= 64
      invariant Entered(dtable[..], i)
      decreases 64 - i as int
    {
      ghost var t := dtable[..];
      EnterOne(t, i);
      dtable[Alphabet(i) as int] := i;
      assert dtable[..] == t[Alphabet(i) as int := i];
      i := i + 1;
    }
    ghost var t := dtable[..];
    dtable[PAD as int] := 0;
    assert dtable[..] == t[PAD as int := 0];
    forall c: Byte ensures dtable[c as int] == DTable(c) {
      PadEntered(t, c);
    }
  }

  lemma {:induction false} NoneEntered(t: seq<Byte>)
    requires |t| == 256 && forall j :: 0 <= j < 256 ==> t[j] == SKIP
    ensures Entered(t, 0)
  {}

  lemma {:induction false} FilterStep(src: seq<Byte>, i: nat)
    requires i < |src|
    ensures Filtered(src[..i + 1]) == Filtered(src[..i]) + if DTable(src[i]) != SKIP then [src[i]] else []
  {
    assert src[..i + 1][..i] == src[..i];
  }

  lemma {:induction false} FilterGrows(src: seq<Byte>, i: nat)
    requires i <= |src|
    ensures |Filtered(src[..i])| <= |Filtered(src)|
    decreases |src| - i
  {
    if i == |src| {
      assert src[..i] == src;
    } else {
      FilterStep(src, i);
      FilterGrows(src, i + 1);
    }
  }

  /** Slot j of the two four-place buffers: a pending character, or one left from the block before. */
  ghost predicate Slot(f: seq<Byte>, inn: seq<Byte>, block: seq<Byte>, count: nat, j: nat)
    requires |inn| == |block| == 4 && j < 4 && count == |f| % 4
  {
    if j < count then inn[j] == f[|f| - count + j] && block[j] == DTable(inn[j])
    else |f| >= 4 ==> inn[j] == f[|f| - count - 4 + j]
  }

  ghost predicate Slots(f: seq<Byte>, inn: seq<Byte>, block: seq<Byte>, count: nat) {
    && |inn| == |block| == 4 && count == |f| % 4
    && Slot(f, inn, block, count, 0) && Slot(f, inn, block, count, 1)
    && Slot(f, inn, block, count, 2) && Slot(f, inn, block, count, 3)
  }

  /** Where the decoder stands after the characters f: whole blocks written, the rest pending. */
  ghost predicate Decoding(f: seq<Byte>, inn: seq<Byte>, block: seq<Byte>, count: nat, written: seq<Byte>) {
    && Slots(f, inn, block, count)
    && written == Blocks(f[..|f| - count])
  }

  lemma {:induction false} SlotKept(f: seq<Byte>, inn: seq<Byte>, block: seq<Byte>, count: nat, j: nat, c: Byte)
    requires |inn| == |block| == 4 && j < 4 && count == |f| % 4 && count < 3
    requires Slot(f, inn, block, count, j)
    ensures |f + [c]| % 4 == count + 1 && Slot(f + [c], inn[count := c], block[count := DTable(c)], count + 1, j)
  {
    hide DTable;
  }

  lemma {:induction false} SlotsKept(f: seq<Byte>, inn: seq<Byte>, block: seq<Byte>, count: nat, c: Byte)
    requires Slots(f, inn, block, count) && count < 3
    ensures |inn| == |block| == 4 && Slots(f + [c], inn[count := c], block[count := DTable(c)], count + 1)
  {
    hide DTable, Slot;
    SlotKept(f, inn, block, count, 0, c);
    SlotKept(f, inn, block, count, 1, c);
    SlotKept(f, inn, block, count, 2, c);
    SlotKept(f, inn, block, count, 3, c);
  }

  lemma {:induction false} Pending(f: seq<Byte>, inn: seq<Byte>, block: seq<Byte>, count: nat, written: seq<Byte>,
                                   c: Byte)
    requires Decoding(f, inn, block, count, written) && count < 3
    ensures |inn| == |block| == 4 && count < 4
    ensures Decoding(f + [c], inn[count := c], block[count := DTable(c)], count + 1, written)
  {
    hide DTable, Blocks, Slots;
    SlotsKept(f, inn, block, count, c);
    SlotsCount(f, inn, block, count);
    assert (f + [c])[..|f + [c]| - (count + 1)] == f[..|f| - count];
  }

  lemma {:induction false} SlotsCount(f: seq<Byte>, inn: seq<Byte>, block: seq<Byte>, count: nat)
    requires Slots(f, inn, block, count)
    ensures |inn| == |block| == 4 && count == |f| % 4
  {}

  lemma {:induction false} BlocksSnoc(f: seq<Byte>, a: Byte, b: Byte, c: Byte, d: Byte)
    requires |f| % 4 == 0
    ensures Blocks(f + [a, b, c, d]) == Blocks(f) + Block(a, b, c, d)
  {
    hide Block;
    var g := f + [a, b, c, d];
    assert g[..|g| - 4] == f;
  }

  lemma {:induction false} BlocksFill(f: seq<Byte>, c: Byte)
    requires |f| % 4 == 3
    ensures var g, k := f + [c], |f| - 3;
      |g| % 4 == 0 && Blocks(g) == Blocks(f[..k]) + Block(f[k], f[k + 1], f[k + 2], c)
  {
    hide Block, Blocks;
    var k := |f| - 3;
    assert f + [c] == f[..k] + [f[k], f[k + 1], f[k + 2], c];
    BlocksSnoc(f[..k], f[k], f[k + 1], f[k + 2], c);
  }

  /** The fourth character completes a block; block already holds all four table values. */
  lemma {:induction false} Complete(f: seq<Byte>, inn: seq<Byte>, block: seq<Byte>, count: nat, written: seq<Byte>,
                                    c: Byte)
    requires Decoding(f, inn, block, count, written) && count == 3
    ensures var inn', block' := inn[3 := c], block[3 := DTable(c)];
      && Decoding(f + [c], inn', block', 0, written + Triple(block'[0], block'[1], block'[2], block'[3]))
      && |written| == (|f| - 3) / 4 * 3
  {
    hide DTable, Triple, Blocks;
    var g := f + [c];
    assert g[..|g|] == g;
    BlocksFill(f, c);
  }

  /** base64_decode: nothing when the number of counting characters is not a multiple of four. */
  method Base64Decode(src: seq<Byte>) returns (r: Option<seq<Byte>>)
    ensures r == Decode(src)
  {
    hide DTable, Filtered, Blocks;
    var dtable := BuildTable();
    var count := CountChars(src, dtable);
    if count % 4 != 0 {
      return None;
    }
    var out := new Byte[count];
    var inn, block := new Byte[4], new Byte[4];
    var pos := DecodeBlocks(src, dtable, out, inn, block);
    ghost var all := out[..pos];
    if pos > 0 {
      if inn[2] == 0x3D {
        pos := pos - 2;
      } else if inn[3] == 0x3D {
        pos := pos - 1;
      }
    }
    assert out[..pos] == all[..pos];
    return Some(out[..pos]);
  }

  method CountChars(src: seq<Byte>, dtable: array<Byte>) returns (count: nat)
    requires dtable.Length == 256 && forall c: Byte :: dtable[c as int] == DTable(c)
    ensures count == |Filtered(src)|
  {
    hide DTable, Filtered;
    count := 0;
    NothingYet();
    for i := 0 to |src|
      invariant count == |Filtered(src[..i])|
    {
      FilterStep(src, i);
      if dtable[src[i] as int] != 0x80 {
        count := count + 1;
      }
    }
    assert src[..|src|] == src;
  }

  /** The output buffer has one byte per counting character, and no write leaves it. */
  method DecodeBlocks(src: seq<Byte>, dtable: array<Byte>, out: array<Byte>, inn: array<Byte>, block: array<Byte>)
    returns (pos: nat)
    requires dtable.Length == 256 && forall c: Byte :: dtable[c as int] == DTable(c)
    requires inn.Length == 4 && block.Length == 4 && out.Length == |Filtered(src)| && |Filtered(src)| % 4 == 0
    requires dtable != out && dtable != inn && dtable != block && out != inn && out != block && inn != block
    modifies out, inn, block
    ensures pos <= out.Length && out[..pos] == Blocks(Filtered(src))
    ensures var f := Filtered(src); f != [] ==> inn[2] == f[|f| - 2] && inn[3] == f[|f| - 1]
  {
    hide DTable, Filtered, Blocks, Decoding, Triple;
    var count := 0;
    pos := 0;
    NothingYet();
    StartsEmpty(inn[..], block[..]);
    for i := 0 to |src|
      modifies out, inn, block
      invariant count < 4 && 0 <= pos <= out.Length
      invariant Decoding(Filtered(src[..i]), inn[..], block[..], count, out[..pos])
    {
      ghost var f := Filtered(src[..i]);
      FilterStep(src, i);
      var tmp := dtable[src[i] as int];
      if tmp == 0x80 {
        assert f + [] == f;
        continue;
      }
      if count < 3 {
        Pending(f, inn[..], block[..], count, out[..pos], src[i]);
      } else {
        Complete(f, inn[..], block[..], count, out[..pos], src[i]);
        FilterGrows(src, i + 1);
      }
      ghost var oldI, oldB := inn[..], block[..];
      inn[count] := src[i];
      block[count] := tmp;
      assert inn[..] == oldI[count := src[i]] && block[..] == oldB[count := tmp];
      count := count + 1;
      if count == 4 {
        pos := PutBlock(out, pos, block);
        count := 0;
      }
    }
    assert src[..|src|] == src;
    WrittenAll(Filtered(src), inn[..], block[..], count, out[..pos]);
  }

  /** The three bytes of a full block. */
  method PutBlock(out: array<Byte>, pos: nat, block: array<Byte>) returns (q: nat)
    requires pos + 3 <= out.Length && block.Length == 4 && out != block
    modifies out
    ensures q == pos + 3 && out[..q] == old(out[..pos]) + Triple(block[0], block[1], block[2], block[3])
  {
    out[pos] := (block[0] << 2) | (block[1] >> 4);
    out[pos + 1] := (block[1] << 4) | (block[2] >> 2);
    out[pos + 2] := (block[2] << 6) | block[3];
    q := pos + 3;
  }

  lemma {:induction false} NothingYet()
    ensures Filtered([]) == []
  {}

  lemma {:induction false} StartsEmpty(inn: seq<Byte>, block: seq<Byte>)
    requires |inn| == 4 && |block| == 4
    ensures Decoding([], inn, block, 0, [])
  {}

  lemma {:induction false} WrittenAll(f: seq<Byte>, inn: seq<Byte>, block: seq<Byte>, count: nat, written: seq<Byte>)
    requires Decoding(f, inn, block, count, written) && |f| % 4 == 0
    ensures written == Blocks(f) && |inn| == 4
    ensures |written| > 0 <==> f != []
    ensures f != [] ==> inn[2] == f[|f| - 2] && inn[3] == f[|f| - 1]
  {
    hide DTable, Block;
    assert f[..|f|] == f;
  }

  /** The encoder of section 4 of RFC 4648: three bytes as four letters, the tail padded. */
  function Encode(b: seq<Byte>): seq<Byte> {
    if b == [] then []
    else if |b| == 1 then [Letter0(b[0]), Letter1(b[0], 0), PAD, PAD]
    else if |b| == 2 then [Letter0(b[0]), Letter1(b[0], b[1]), Letter2(b[1], 0), PAD]
    else Quad(b[0], b[1], b[2]) + Encode(b[3..])
  }

  function Quad(x: Byte, y: Byte, z: Byte): seq<Byte> {
    [Letter0(x), Letter1(x, y), Letter2(y, z), Letter3(z)]
  }

  function Bits1(x: Byte, y: Byte): (v: Byte)
    ensures v < 64
  {
    ((x & 3) << 4) | (y >> 4)
  }

  function Bits2(y: Byte, z: Byte): (v: Byte)
    ensures v < 64
  {
    ((y & 15) << 2) | (z >> 6)
  }

  function Letter0(x: Byte): Byte {
    Alphabet(x >> 2)
  }

  function Letter1(x: Byte, y: Byte): Byte {
    Alphabet(Bits1(x, y))
  }

  function Letter2(y: Byte, z: Byte): Byte {
    Alphabet(Bits2(y, z))
  }

  function Letter3(z: Byte): Byte {
    Alphabet(z & 63)
  }

  lemma {:induction false} LettersRead(x: Byte, y: Byte, z: Byte)
    ensures DTable(Letter0(x)) == x >> 2 && Letter0(x) != PAD
    ensures DTable(Letter1(x, y)) == Bits1(x, y) && Letter1(x, y) != PAD
    ensures DTable(Letter2(y, z)) == Bits2(y, z) && Letter2(y, z) != PAD
    ensures DTable(Letter3(z)) == z & 63 && Letter3(z) != PAD
  {
    hide Sextet, Alphabet, Bits1, Bits2;
    SextetInverts(x >> 2, 0);
    SextetInverts(Bits1(x, y), 0);
    SextetInverts(Bits2(y, z), 0);
    SextetInverts(z & 63, 0);
  }

  lemma {:induction false} BitsRegroup(x: Byte, y: Byte, z: Byte)
    ensures ((x >> 2) << 2) | (Bits1(x, y) >> 4) == x
    ensures (Bits1(x, y) << 4) | (Bits2(y, z) >> 2) == y
    ensures (Bits2(y, z) << 6) | (z & 63) == z
  {}

  /** Regrouping four letters gives their three bytes; padding in their place gives a prefix of them. */
  lemma {:induction false} BlockOfThree(x: Byte, y: Byte, z: Byte)
    ensures Block(Letter0(x), Letter1(x, y), Letter2(y, z), Letter3(z)) == [x, y, z]
  {
    hide DTable, Bits1, Bits2, Letter0, Letter1, Letter2, Letter3;
    LettersRead(x, y, z);
    BitsRegroup(x, y, z);
  }

  lemma {:induction false} BlockOfTwo(x: Byte, y: Byte)
    ensures Block(Letter0(x), Letter1(x, y), Letter2(y, 0), PAD)[..2] == [x, y]
  {
    hide DTable, Bits1, Bits2, Letter0, Letter1, Letter2, Letter3;
    LettersRead(x, y, 0);
    BitsRegroup(x, y, 0);
  }

  lemma {:induction false} BlockOfOne(x: Byte)
    ensures Block(Letter0(x), Letter1(x, 0), PAD, PAD)[..1] == [x]
  {
    hide DTable, Bits1, Bits2, Letter0, Letter1, Letter2, Letter3;
    LettersRead(x, 0, 0);
    BitsRegroup(x, 0, 0);
  }

  lemma {:induction false} BlocksTail(f: seq<Byte>, q: seq<Byte>)
    requires |f| % 4 == 0 && |q| == 4
    ensures |f + q| % 4 == 0 && Blocks(f + q) == Blocks(f) + Block(q[0], q[1], q[2], q[3])
  {
    hide Block, Blocks;
    assert q == [q[0], q[1], q[2], q[3]];
    BlocksSnoc(f, q[0], q[1], q[2], q[3]);
  }

  lemma {:induction false} BlocksConcat(g: seq<Byte>, f: seq<Byte>)
    requires |g| % 4 == 0 && |f| % 4 == 0
    ensures |g + f| % 4 == 0 && Blocks(g + f) == Blocks(g) + Blocks(f)
    decreases |f|
  {
    hide Block, Blocks;
    if f == [] {
      NoBlocks();
      assert g + f == g;
      assert Blocks(g) + [] == Blocks(g);
    } else {
      var f0, q := f[..|f| - 4], f[|f| - 4..];
      assert f == f0 + q;
      BlocksConcat(g, f0);
      Assoc(g, f0, q);
      BlocksTail(g + f0, q);
      BlocksTail(f0, q);
      Assoc(Blocks(g), Blocks(f0), Block(q[0], q[1], q[2], q[3]));
    }
  }

  lemma {:induction false} OneBlock(a: Byte, b: Byte, c: Byte, d: Byte)
    ensures Blocks([a, b, c, d]) == Block(a, b, c, d)
  {
    hide Block;
    assert [] + [a, b, c, d] == [a, b, c, d];
    BlocksSnoc([], a, b, c, d);
    assert Blocks([]) == [];
  }

  /** The bytes a run of counting characters stands for. */
  function Trimmed(f: seq<Byte>): seq<Byte>
    requires |f| % 4 == 0
  {
    var out := Blocks(f);
    out[..|out| - PadCount(f)]
  }

  lemma {:induction false} TrimmedTail(g: seq<Byte>, f: seq<Byte>)
    requires |g| % 4 == 0 && |f| % 4 == 0 && f != []
    ensures |g + f| % 4 == 0 && Trimmed(g + f) == Blocks(g) + Trimmed(f)
  {
    hide Blocks, Block;
    BlocksConcat(g, f);
    assert (g + f)[|g + f| - 2] == f[|f| - 2] && (g + f)[|g + f| - 1] == f[|f| - 1];
  }

  lemma {:induction false} EncodeShape(b: seq<Byte>)
    ensures |Encode(b)| == (|b| + 2) / 3 * 4
    ensures forall i :: 0 <= i < |Encode(b)| ==> DTable(Encode(b)[i]) != SKIP
  {
    hide Letter0, Letter1, Letter2, Letter3, Sextet, Bits1, Bits2;
    if b == [] {
    } else {
      var y, z := if |b| > 1 then b[1] else 0, if |b| > 2 then b[2] else 0;
      LettersRead(b[0], y, z);
      SmallBits(b[0], y, z);
      if |b| > 2 {
        EncodeShape(b[3..]);
      }
    }
  }

  lemma {:induction false} SmallBits(x: Byte, y: Byte, z: Byte)
    ensures x >> 2 != SKIP && Bits1(x, y) != SKIP && Bits2(y, z) != SKIP && z & 63 != SKIP
  {}

  lemma {:induction false} TrimmedOne(x: Byte)
    ensures Trimmed([Letter0(x), Letter1(x, 0), PAD, PAD]) == [x]
  {
    hide Letter0, Letter1, Letter2, Letter3, Block, Blocks;
    BlockOfOne(x);
    OneBlock(Letter0(x), Letter1(x, 0), PAD, PAD);
  }

  lemma {:induction false} TrimmedTwo(x: Byte, y: Byte)
    ensures Trimmed([Letter0(x), Letter1(x, y), Letter2(y, 0), PAD]) == [x, y]
  {
    hide Letter0, Letter1, Letter2, Letter3, Block, Blocks;
    LettersRead(x, y, 0);
    BlockOfTwo(x, y);
    OneBlock(Letter0(x), Letter1(x, y), Letter2(y, 0), PAD);
  }

  lemma {:induction false} TrimmedThree(x: Byte, y: Byte, z: Byte)
    ensures |Quad(x, y, z)| == 4 && Blocks(Quad(x, y, z)) == [x, y, z] == Trimmed(Quad(x, y, z))
  {
    hide Letter0, Letter1, Letter2, Letter3, Block, Blocks;
    LettersRead(x, y, z);
    BlockOfThree(x, y, z);
    OneBlock(Letter0(x), Letter1(x, y), Letter2(y, z), Letter3(z));
  }

  lemma {:induction false} TrimmedEncode(b: seq<Byte>)
    ensures |Encode(b)| % 4 == 0 && Trimmed(Encode(b)) == b
  {
    hide Trimmed, Quad, Letter0, Letter1, Letter2, Letter3, Block, Blocks;
    EncodeShape(b);
    if b == [] {
      TrimmedNothing();
    } else if |b| == 1 {
      TrimmedOne(b[0]);
    } else if |b| == 2 {
      TrimmedTwo(b[0], b[1]);
    } else {
      var rest := b[3..];
      TrimmedThree(b[0], b[1], b[2]);
      TrimmedEncode(rest);
      EncodeShape(rest);
      assert b == [b[0], b[1], b[2]] + rest;
      if rest == [] {
        assert Quad(b[0], b[1], b[2]) + [] == Quad(b[0], b[1], b[2]);
      } else {
        TrimmedTail(Quad(b[0], b[1], b[2]), Encode(rest));
      }
    }
  }

  lemma {:induction false} TrimmedNothing()
    ensures Trimmed([]) == []
  {}

  lemma {:induction false} NoBlocks()
    ensures Blocks([]) == []
  {}

  lemma {:induction false} FilteredConcat(a: seq<Byte>, b: seq<Byte>)
    ensures Filtered(a + b) == Filtered(a) + Filtered(b)
    decreases |b|
  {
    hide DTable;
    if b == [] {
      assert a + b == a;
    } else {
      var l := |b| - 1;
      FilteredConcat(a, b[..l]);
      assert (a + b)[..|a + b| - 1] == a + b[..l];
    }
  }

  lemma {:induction false} FilteredKeepsAll(s: seq<Byte>)
    requires forall i :: 0 <= i < |s| ==> DTable(s[i]) != SKIP
    ensures Filtered(s) == s
  {
    hide DTable;
    if s == [] {
    } else {
      FilteredKeepsAll(s[..|s| - 1]);
      assert s == s[..|s| - 1] + [s[|s| - 1]];
    }
  }

  /** Decoding inverts encoding, whatever else stands between the characters. */
  lemma {:induction false} RoundTrip(src: seq<Byte>, b: seq<Byte>)
    requires Filtered(src) == Encode(b)
    ensures Decode(src) == Some(b)
  {
    hide Filtered, Encode, Blocks;
    TrimmedEncode(b);
  }

  lemma {:induction false} DecodeEncode(b: seq<Byte>)
    ensures Decode(Encode(b)) == Some(b)
    ensures |Encode(b)| == (|b| + 2) / 3 * 4
  {
    EncodeShape(b);
    FilteredKeepsAll(Encode(b));
    RoundTrip(Encode(b), b);
  }

  lemma {:induction false} FilteredOne(x: Byte)
    requires DTable(x) == SKIP
    ensures Filtered([x]) == []
  {
    FilterStep([x], 0);
    assert [x][..1] == [x] && [x][..0] == [];
  }

  /** A byte outside the alphabet changes nothing, wherever it is put. */
  lemma {:induction false} NoiseIgnored(a: seq<Byte>, x: Byte, b: seq<Byte>)
    requires x != PAD && forall v: Byte :: v < 64 ==> Alphabet(v) != x
    ensures Decode(a + [x] + b) == Decode(a + b)
  {
    hide Filtered, Blocks;
    SextetInverts(0, x);
    FilteredConcat(a + [x], b);
    FilteredConcat(a, [x]);
    FilteredConcat(a, b);
    assert Filtered([x]) == [] by { FilteredOne(x); }
    assert Filtered(a) + [] == Filtered(a);
  }

  /** The other way round: text with no padding is the encoding of what it decodes to. */
  lemma {:induction false} ReencodeBlocks(f: seq<Byte>)
    requires |f| % 4 == 0
    requires forall i :: 0 <= i < |f| ==> f[i] != PAD && DTable(f[i]) != SKIP
    ensures Encode(Blocks(f)) == f
  {
    hide Block, Quad, DTable, Sextet, Blocks;
    if f == [] {
      NoBlocks();
    } else {
      var q, rest := f[..4], f[4..];
      assert f == q + rest && q == [q[0], q[1], q[2], q[3]];
      BlocksConcat(q, rest);
      OneBlock(q[0], q[1], q[2], q[3]);
      ReencodeBlocks(rest);
      RequadBlock(q[0], q[1], q[2], q[3]);
      var out := Blocks(f);
      assert out[3..] == Blocks(rest);
    }
  }

  lemma {:induction false} LetterBack(a: Byte)
    requires a != PAD && DTable(a) != SKIP
    ensures DTable(a) < 64 && Alphabet(DTable(a)) == a
  {
    SextetInverts(0, a);
  }

  lemma {:induction false} QuadOfTriple(w: Byte, x: Byte, y: Byte, z: Byte)
    requires w < 64 && x < 64 && y < 64 && z < 64
    ensures var t := Triple(w, x, y, z);
      |t| == 3 && Quad(t[0], t[1], t[2]) == [Alphabet(w), Alphabet(x), Alphabet(y), Alphabet(z)]
  {
    hide Alphabet, Triple, Bits1, Bits2;
    BitsSplit(w, x, y, z);
  }

  lemma {:induction false} RequadBlock(a: Byte, b: Byte, c: Byte, d: Byte)
    requires a != PAD && b != PAD && c != PAD && d != PAD
    requires DTable(a) != SKIP && DTable(b) != SKIP && DTable(c) != SKIP && DTable(d) != SKIP
    ensures var t := Block(a, b, c, d); |t| == 3 && Quad(t[0], t[1], t[2]) == [a, b, c, d]
  {
    hide DTable, Alphabet, Triple, Quad;
    LetterBack(a);
    LetterBack(b);
    LetterBack(c);
    LetterBack(d);
    QuadOfTriple(DTable(a), DTable(b), DTable(c), DTable(d));
  }

  lemma {:induction false} BitsSplit(a: Byte, b: Byte, c: Byte, d: Byte)
    requires a < 64 && b < 64 && c < 64 && d < 64
    ensures var t := Triple(a, b, c, d);
      |t| == 3 && t[0] >> 2 == a && Bits1(t[0], t[1]) == b && Bits2(t[1], t[2]) == c && t[2] & 63 == d
  {}

  lemma {:induction false} EncodeDecode(src: seq<Byte>)
    requires |Filtered(src)| % 4 == 0 && PAD !in src
    ensures exists b :: Decode(src) == Some(b) && Encode(b) == Filtered(src)
  {
    hide Blocks, Encode, Sextet;
    var f := Filtered(src);
    FilteredFromSource(src);
    ReencodeBlocks(f);
    assert Blocks(f)[..|Blocks(f)|] == Blocks(f);
    assert Decode(src) == Some(Blocks(f));
  }

  lemma {:induction false} FilteredFromSource(src: seq<Byte>)
    ensures forall i :: 0 <= i < |Filtered(src)| ==> Filtered(src)[i] in src && DTable(Filtered(src)[i]) != SKIP
  {
    hide DTable;
    if src == [] {
    } else {
      FilteredFromSource(src[..|src| - 1]);
    }
  }

  // --- exactly which text is an encoding ---

  /** A last block: full, or padded behind letters whose unused bits are zero. */
  predicate LastBlock(q: seq<Byte>) {
    && |q| == 4 && q[0] != PAD && q[1] != PAD
    && (q[2] == PAD ==> q[3] == PAD && DTable(q[1]) & 15 == 0)
    && (q[2] != PAD && q[3] == PAD ==> DTable(q[2]) & 3 == 0)
  }

  /** Whole blocks, padding in the last one only. */
  predicate Canonical(f: seq<Byte>) {
    |f| % 4 == 0 && (f != [] ==> PAD !in f[..|f| - 4] && LastBlock(f[|f| - 4..]))
  }

  lemma {:induction false} UnusedBits(x: Byte, y: Byte)
    ensures Bits1(x, 0) & 15 == 0 && Bits2(y, 0) & 3 == 0
  {}

  lemma {:induction false} PaddedTwo(x: Byte)
    ensures Canonical([Letter0(x), Letter1(x, 0), PAD, PAD])
  {
    hide Letter0, Letter1, DTable, Bits1, Bits2;
    var q := [Letter0(x), Letter1(x, 0), PAD, PAD];
    LettersRead(x, 0, 0);
    UnusedBits(x, 0);
    assert q[..0] == [] && q[0..] == q;
  }

  lemma {:induction false} PaddedOne(x: Byte, y: Byte)
    ensures Canonical([Letter0(x), Letter1(x, y), Letter2(y, 0), PAD])
  {
    hide Letter0, Letter1, Letter2, DTable, Bits1, Bits2;
    var q := [Letter0(x), Letter1(x, y), Letter2(y, 0), PAD];
    LettersRead(x, y, 0);
    UnusedBits(x, y);
    assert q[..0] == [] && q[0..] == q;
  }

  lemma {:induction false} NotPadded(x: Byte, y: Byte, z: Byte)
    ensures |Quad(x, y, z)| == 4 && PAD !in Quad(x, y, z)
  {
    hide Letter0, Letter1, Letter2, Letter3;
    LettersRead(x, y, z);
  }

  lemma {:induction false} EncodeCanonical(b: seq<Byte>)
    ensures Canonical(Encode(b))
  {
    hide Letter0, Letter1, Letter2, Quad, Canonical;
    if b == [] {
      NothingCanonical();
    } else if |b| == 1 {
      PaddedTwo(b[0]);
    } else if |b| == 2 {
      PaddedOne(b[0], b[1]);
    } else {
      EncodeCanonical(b[3..]);
      NotPadded(b[0], b[1], b[2]);
      CanonicalBehind(Quad(b[0], b[1], b[2]), Encode(b[3..]));
    }
  }

  lemma {:induction false} NothingCanonical()
    ensures Canonical([])
  {}

  lemma {:induction false} CanonicalBehind(q: seq<Byte>, f: seq<Byte>)
    requires |q| == 4 && PAD !in q && Canonical(f)
    ensures Canonical(q + f)
  {
    hide DTable;
    var g := q + f;
    if f == [] {
      assert g == q && g[..0] == [] && g[0..] == q;
    } else {
      assert g[..|g| - 4] == q + f[..|f| - 4] && g[|g| - 4..] == f[|f| - 4..];
    }
  }

  lemma {:induction false} CanonicalSplit(f: seq<Byte>)
    requires Canonical(f) && |f| > 4
    ensures PAD !in f[..4] && Canonical(f[4..])
  {
    hide DTable;
    var r := f[4..];
    assert r[|r| - 4..] == f[|f| - 4..];
    assert r[..|r| - 4] == f[..|f| - 4][4..] && f[..4] == f[..|f| - 4][..4];
  }

  lemma {:induction false} BitsSplitPadded(a: Byte, b: Byte, c: Byte)
    requires a < 64 && b < 64 && c < 64
    ensures c & 3 == 0 ==> var t := Triple(a, b, c, 0); t[0] >> 2 == a && Bits1(t[0], t[1]) == b && Bits2(t[1], 0) == c
    ensures b & 15 == 0 ==> var t := Triple(a, b, 0, 0); t[0] >> 2 == a && Bits1(t[0], 0) == b
  {}

  lemma {:induction false} LettersBack(a: Byte, b: Byte, c: Byte, x: Byte, y: Byte)
    requires x >> 2 == a && a < 64
    ensures Letter0(x) == Alphabet(a)
    ensures Bits1(x, y) == b ==> Letter1(x, y) == Alphabet(b)
    ensures Bits2(y, 0) == c ==> Letter2(y, 0) == Alphabet(c)
  {
    hide Alphabet, Bits1, Bits2;
  }

  lemma {:induction false} ReencodeTwo(q: seq<Byte>)
    requires LastBlock(q) && q[2] != PAD && q[3] == PAD
    requires forall i :: 0 <= i < 4 ==> DTable(q[i]) != SKIP
    ensures Trimmed(q) == Blocks(q)[..2] && Encode(Blocks(q)[..2]) == q
  {
    hide DTable, Alphabet, Triple, Bits1, Bits2, Letter0, Letter1, Letter2, Blocks;
    var a, b, c := DTable(q[0]), DTable(q[1]), DTable(q[2]);
    LetterBack(q[0]);
    LetterBack(q[1]);
    LetterBack(q[2]);
    PadIsZero();
    assert q == [q[0], q[1], q[2], q[3]];
    OneBlock(q[0], q[1], q[2], q[3]);
    var t := Triple(a, b, c, 0);
    TripleThree(a, b, c, 0);
    BitsSplitPadded(a, b, c);
    LettersBack(a, b, c, t[0], t[1]);
  }

  lemma {:induction false} ReencodeOne(q: seq<Byte>)
    requires LastBlock(q) && q[2] == PAD
    requires forall i :: 0 <= i < 4 ==> DTable(q[i]) != SKIP
    ensures Trimmed(q) == Blocks(q)[..1] && Encode(Blocks(q)[..1]) == q
  {
    hide DTable, Alphabet, Triple, Bits1, Bits2, Letter0, Letter1, Letter2, Blocks;
    var a, b := DTable(q[0]), DTable(q[1]);
    LetterBack(q[0]);
    LetterBack(q[1]);
    PadIsZero();
    assert q == [q[0], q[1], q[2], q[3]];
    OneBlock(q[0], q[1], q[2], q[3]);
    var t := Triple(a, b, 0, 0);
    TripleThree(a, b, 0, 0);
    BitsSplitPadded(a, b, 0);
    LettersBack(a, b, 0, t[0], 0);
  }

  lemma {:induction false} PadIsZero()
    ensures DTable(PAD) == 0
  {}

  lemma {:induction false} TripleThree(a: Byte, b: Byte, c: Byte, d: Byte)
    ensures |Triple(a, b, c, d)| == 3
  {}

  lemma {:induction false} ReencodeLast(q: seq<Byte>)
    requires LastBlock(q) && forall i :: 0 <= i < 4 ==> DTable(q[i]) != SKIP
    ensures Encode(Trimmed(q)) == q
  {
    hide DTable, Block, Blocks, Encode, Quad;
    if q[2] == PAD {
      ReencodeOne(q);
    } else if q[3] == PAD {
      ReencodeTwo(q);
    } else {
      ReencodeBlocks(q);
      assert Trimmed(q) == Blocks(q);
    }
  }

  lemma {:induction false} ReencodeCanonical(f: seq<Byte>)
    requires Canonical(f) && forall i :: 0 <= i < |f| ==> DTable(f[i]) != SKIP
    ensures Encode(Trimmed(f)) == f
  {
    hide DTable, Block, Blocks, Quad, LastBlock, Trimmed;
    if f == [] {
      TrimmedNothing();
    } else if |f| == 4 {
      assert f[0..] == f;
      ReencodeLast(f);
    } else {
      var q, rest := f[..4], f[4..];
      CanonicalSplit(f);
      assert f == q + rest && q == [q[0], q[1], q[2], q[3]];
      ReencodeCanonical(rest);
      TrimmedTail(q, rest);
      OneBlock(q[0], q[1], q[2], q[3]);
      RequadBlock(q[0], q[1], q[2], q[3]);
      EncodeBehind(Blocks(q), Trimmed(rest));
    }
  }

  lemma {:induction false} EncodeBehind(t: seq<Byte>, b: seq<Byte>)
    requires |t| == 3
    ensures Encode(t + b) == Quad(t[0], t[1], t[2]) + Encode(b)
  {
    hide Quad;
    assert (t + b)[3..] == b;
  }

  /** Text is what the encoder makes of the bytes it decodes to, whatever else stands between its
      counting characters, exactly when those are whole blocks with the padding last and the bits it
      leaves unused zero. */
  lemma {:induction false} EncodeDecodeExactly(src: seq<Byte>)
    ensures (exists b :: Decode(src) == Some(b) && Encode(b) == Filtered(src)) <==> Canonical(Filtered(src))
  {
    hide Filtered, Blocks, Encode, Canonical, DTable;
    var f := Filtered(src);
    if b :| Decode(src) == Some(b) && Encode(b) == f {
      EncodeCanonical(b);
    }
    if Canonical(f) {
      FilteredFromSource(src);
      CanonicalWhole(f);
      ReencodeCanonical(f);
      assert Decode(src) == Some(Trimmed(f));
    }
  }

  lemma {:induction false} CanonicalWhole(f: seq<Byte>)
    requires Canonical(f)
    ensures |f| % 4 == 0
  {}

  // --- padding anywhere ---

  /** The text with an A for every padding character. */
  function AsA(src: seq<Byte>): (t: seq<Byte>)
    ensures |t| == |src|
  {
    if src == [] then []
    else
      var l := |src| - 1;
      AsA(src[..l]) + [OneAsA(src[l])]
  }

  function OneAsA(c: Byte): Byte {
    if c == 0x3D then 0x41 else c
  }

  lemma {:induction false} AsALetter(c: Byte)
    ensures DTable(OneAsA(c)) == DTable(c)
  {}

  lemma {:induction false} BlockAsA(a: Byte, b: Byte, c: Byte, d: Byte)
    ensures Block(OneAsA(a), OneAsA(b), OneAsA(c), OneAsA(d)) == Block(a, b, c, d)
  {
    hide DTable, OneAsA, Triple;
    AsALetter(a);
    AsALetter(b);
    AsALetter(c);
    AsALetter(d);
  }

  lemma {:induction false} AsAAt(src: seq<Byte>, i: nat)
    requires i < |src|
    ensures AsA(src)[i] == OneAsA(src[i])
    decreases |src|
  {
    if i == |src| - 1 {
    } else {
      AsAAt(src[..|src| - 1], i);
    }
  }

  lemma {:induction false} FilteredAsA(src: seq<Byte>)
    ensures Filtered(AsA(src)) == AsA(Filtered(src))
    decreases |src|
  {
    hide DTable, OneAsA;
    if src == [] {
    } else {
      var l := |src| - 1;
      var c := OneAsA(src[l]);
      AsALetter(src[l]);
      FilteredAsA(src[..l]);
      assert AsA(src)[..l] == AsA(src[..l]) && AsA(src)[l] == c;
      AsASnoc(Filtered(src[..l]), src[l]);
      assert Filtered(src[..l]) + [] == Filtered(src[..l]);
      assert AsA(Filtered(src[..l])) + [] == AsA(Filtered(src[..l]));
    }
  }

  lemma {:induction false} AsASnoc(f: seq<Byte>, c: Byte)
    ensures AsA(f + [c]) == AsA(f) + [OneAsA(c)]
  {
    assert (f + [c])[..|f|] == f;
  }

  lemma {:induction false} LastFour(f: seq<Byte>)
    requires |f| >= 4
    ensures var l := |f| - 4; f == f[..l] + [f[l], f[l + 1], f[l + 2], f[l + 3]]
  {}

  lemma {:induction false} AsALastFour(f: seq<Byte>)
    requires |f| >= 4
    ensures var l := |f| - 4;
      AsA(f) == AsA(f[..l]) + [OneAsA(f[l]), OneAsA(f[l + 1]), OneAsA(f[l + 2]), OneAsA(f[l + 3])]
  {
    hide AsA, OneAsA;
    var l := |f| - 4;
    AsAPrefix(f, l);
    LastFour(AsA(f));
    AsAAt(f, l);
    AsAAt(f, l + 1);
    AsAAt(f, l + 2);
    AsAAt(f, l + 3);
  }

  lemma {:induction false} BlocksAsA(f: seq<Byte>)
    requires |f| % 4 == 0
    ensures Blocks(AsA(f)) == Blocks(f)
    decreases |f|
  {
    hide Block, Blocks, AsA, OneAsA;
    if f == [] {
      assert AsA(f) == f;
    } else {
      var l := |f| - 4;
      BlocksAsA(f[..l]);
      LastFour(f);
      AsALastFour(f);
      BlocksSnoc(f[..l], f[l], f[l + 1], f[l + 2], f[l + 3]);
      BlocksSnoc(AsA(f[..l]), OneAsA(f[l]), OneAsA(f[l + 1]), OneAsA(f[l + 2]), OneAsA(f[l + 3]));
      BlockAsA(f[l], f[l + 1], f[l + 2], f[l + 3]);
    }
  }

  lemma {:induction false} AsAPrefix(f: seq<Byte>, l: nat)
    requires l <= |f|
    ensures AsA(f)[..l] == AsA(f[..l])
  {
    hide AsA;
    forall i | 0 <= i < l ensures AsA(f)[i] == AsA(f[..l])[i] {
      AsAAt(f, i);
      AsAAt(f[..l], i);
    }
  }

  /** Padding is read as the letter A wherever it stands, and only the last two characters that count
      decide how many bytes are taken off the end: two when the first of them is padding. */
  lemma {:induction false} PaddingReadsAsA(src: seq<Byte>)
    ensures Decode(src).None? <==> Decode(AsA(src)).None?
    ensures Decode(src).Some? ==> var f, all := Filtered(src), Decode(AsA(src)).value;
      var cut := if f == [] then 0 else if f[|f| - 2] == 0x3D then 2 else if f[|f| - 1] == 0x3D then 1 else 0;
      cut <= |all| == |f| / 4 * 3 && Decode(src) == Some(all[..|all| - cut])
  {
    hide Filtered, Blocks, AsA;
    var f := Filtered(src);
    FilteredAsA(src);
    if |f| % 4 == 0 {
      BlocksAsA(f);
      NotPaddedAsA(f);
      assert Blocks(f)[..|Blocks(f)|] == Blocks(f);
    }
  }

  lemma {:induction false} NotPaddedAsA(f: seq<Byte>)
    requires |f| % 4 == 0
    ensures PadCount(AsA(f)) == 0
  {
    hide AsA;
    if f != [] {
      AsAAt(f, |f| - 2);
      AsAAt(f, |f| - 1);
    }
  }
}
