/** The walk of rtcpsdespacket.h over the chunks and items of a source description packet
    (RFC 3550, section 6.5). */
module SdesPacket {
  import opened Bytes
  import opened CompoundBuilder

  // --- the layout ---

  datatype Item = Item(id: Byte, data: seq<Byte>) {
    predicate Good() {
      id != 0 && |data| <= 255
    }
  }

  datatype Chunk = Chunk(ssrc: nat, items: seq<Item>) {
    ghost predicate Good() {
      ssrc < 0x1_0000_0000 && forall i :: 0 <= i < |items| ==> items[i].Good()
    }
  }

  function EncodeItem(it: Item): seq<Byte>
    requires it.Good()
  {
    [it.id, ToByte(|it.data|)] + it.data
  }

  function EncodeItems(items: seq<Item>): seq<Byte>
    requires forall i :: 0 <= i < |items| ==> items[i].Good()
  {
    if items == [] then [] else EncodeItem(items[0]) + EncodeItems(items[1..])
  }

  function Zeros(n: nat): (z: seq<Byte>)
    ensures |z| == n && forall i :: 0 <= i < n ==> z[i] == 0
  {
    seq(n, i => 0)
  }

  /** SSRC, items, and one to four zero bytes up to the next 32-bit boundary. */
  function EncodeChunk(c: Chunk): seq<Byte>
    requires c.Good()
  {
    Be32(c.ssrc) + (EncodeItems(c.items) + Padding(c))
  }

  function Padding(c: Chunk): (z: seq<Byte>)
    requires c.Good()
    ensures 1 <= |z| <= 4 && forall i :: 0 <= i < |z| ==> z[i] == 0
  {
    var n := |EncodeItems(c.items)|;
    Zeros(RoundUp4(n + 1) - n)
  }

  function EncodeChunks(cs: seq<Chunk>): seq<Byte>
    requires forall i :: 0 <= i < |cs| ==> cs[i].Good()
  {
    if cs == [] then [] else EncodeChunk(cs[0]) + EncodeChunks(cs[1..])
  }

  /** A chunk takes exactly the bytes the builder counts for its source. */
  lemma {:induction false} ChunkTakesNeededBytes(c: Chunk)
    requires c.Good()
    ensures |EncodeChunk(c)| == ChunkBytes(|EncodeItems(c.items)|)
  {}

  /** The bytes of chunks laid out 31 to a packet, each packet behind a common header. */
  function SdesBytes(cs: seq<Chunk>): nat
    requires forall i :: 0 <= i < |cs| ==> cs[i].Good()
  {
    if cs == [] then 0
    else if |cs| <= 31 then 4 + |EncodeChunks(cs)|
    else 4 + |EncodeChunks(cs[..31])| + SdesBytes(cs[31..])
  }

  /** The builder's count for all sources: their chunks, and the headers. */
  lemma {:induction false} SdesTakesNeededBytes(cs: seq<Chunk>)
    requires forall i :: 0 <= i < |cs| ==> cs[i].Good()
    ensures SdesBytes(cs) == |EncodeChunks(cs)| + PacketsFor(|cs|) * COMMON_HEADER
    decreases |cs|
  {
    hide EncodeChunks, Chunk.Good;
    if cs == [] {
      NoChunks(cs);
    } else if |cs| <= 31 {
    } else {
      SdesTakesNeededBytes(cs[31..]);
      EncodeChunksConcat(cs[..31], cs[31..]);
      assert cs[..31] + cs[31..] == cs;
    }
  }

  lemma {:induction false} EncodeItemsCons(it: Item, items: seq<Item>)
    requires it.Good() && forall i :: 0 <= i < |items| ==> items[i].Good()
    ensures forall i :: 0 <= i < |[it] + items| ==> ([it] + items)[i].Good()
    ensures EncodeItems([it] + items) == EncodeItem(it) + EncodeItems(items)
  {
    hide EncodeItem;
    assert ([it] + items)[1..] == items;
  }

  lemma {:induction false} EncodeItemsConcat(a: seq<Item>, b: seq<Item>)
    requires forall i :: 0 <= i < |a| ==> a[i].Good()
    requires forall i :: 0 <= i < |b| ==> b[i].Good()
    ensures forall i :: 0 <= i < |a + b| ==> (a + b)[i].Good()
    ensures EncodeItems(a + b) == EncodeItems(a) + EncodeItems(b)
  {
    hide EncodeItem, EncodeItems, Item.Good;
    if a == [] {
      NoItems(a);
      assert a + b == b && [] + EncodeItems(b) == EncodeItems(b);
    } else {
      var h, t := a[0], a[1..];
      assert a == [h] + t && a + b == [h] + (t + b);
      EncodeItemsConcat(t, b);
      EncodeItemsCons(h, t);
      EncodeItemsCons(h, t + b);
      Assoc(EncodeItem(h), EncodeItems(t), EncodeItems(b));
    }
  }

  lemma {:induction false} EncodeChunksCons(c: Chunk, cs: seq<Chunk>)
    requires c.Good() && forall i :: 0 <= i < |cs| ==> cs[i].Good()
    ensures forall i :: 0 <= i < |[c] + cs| ==> ([c] + cs)[i].Good()
    ensures EncodeChunks([c] + cs) == EncodeChunk(c) + EncodeChunks(cs)
  {
    hide EncodeChunk;
    assert ([c] + cs)[1..] == cs;
  }

  lemma {:induction false} EncodeChunksConcat(a: seq<Chunk>, b: seq<Chunk>)
    requires forall i :: 0 <= i < |a| ==> a[i].Good()
    requires forall i :: 0 <= i < |b| ==> b[i].Good()
    ensures forall i :: 0 <= i < |a + b| ==> (a + b)[i].Good()
    ensures EncodeChunks(a + b) == EncodeChunks(a) + EncodeChunks(b)
  {
    hide EncodeChunk, EncodeChunks, Chunk.Good;
    if a == [] {
      NoChunks(a);
      assert a + b == b && [] + EncodeChunks(b) == EncodeChunks(b);
    } else {
      var h, t := a[0], a[1..];
      assert a == [h] + t && a + b == [h] + (t + b);
      EncodeChunksConcat(t, b);
      EncodeChunksCons(h, t);
      EncodeChunksCons(h, t + b);
      Assoc(EncodeChunk(h), EncodeChunks(t), EncodeChunks(b));
    }
  }

  lemma {:induction false} NoChunks(b: seq<Chunk>)
    requires b == []
    ensures EncodeChunks(b) == []
  {}

  /** The offset of item i within its chunk. */
  function ItemOffset(c: Chunk, i: nat): nat
    requires c.Good() && i <= |c.items|
  {
    SSRC_SIZE + |EncodeItems(c.items[..i])|
  }

  /** From item i on, the chunk holds the remaining items and its padding. */
  lemma {:induction false} ItemsFrom(data: seq<Byte>, p: nat, c: Chunk, i: nat)
    requires c.Good() && i <= |c.items| && Holds(data, p, EncodeChunk(c))
    ensures Holds(data, p + ItemOffset(c, i), EncodeItems(c.items[i..]) + Padding(c))
  {
    hide Be32, EncodeItems, Padding;
    var a, b := c.items[..i], c.items[i..];
    HoldsParts(data, p, Be32(c.ssrc), EncodeItems(c.items) + Padding(c));
    EncodeItemsConcat(a, b);
    assert a + b == c.items;
    Assoc(EncodeItems(a), EncodeItems(b), Padding(c));
    HoldsParts(data, p + 4, EncodeItems(a), EncodeItems(b) + Padding(c));
  }

  lemma {:induction false} NextOffset(c: Chunk, i: nat)
    requires c.Good() && i < |c.items|
    ensures ItemOffset(c, i + 1) == ItemOffset(c, i) + 2 + |c.items[i].data|
  {
    hide EncodeItems, EncodeItem;
    assert c.items[..i + 1] == c.items[..i] + [c.items[i]];
    EncodeItemsConcat(c.items[..i], [c.items[i]]);
    OneItem(c.items[i]);
  }

  /** What lies at item i: its id, length and data. */
  lemma {:induction false} ItemAt(data: seq<Byte>, p: nat, c: Chunk, i: nat)
    requires c.Good() && i < |c.items| && Holds(data, p, EncodeChunk(c))
    ensures var o, d := p + ItemOffset(c, i), c.items[i].data;
      && o + 2 + |d| <= |data|
      && data[o] == c.items[i].id && data[o + 1] == ToByte(|d|) && data[o + 2..o + 2 + |d|] == d
  {
    hide ToByte, EncodeItems, EncodeItem, EncodeChunk, ItemOffset;
    var b := c.items[i..];
    ItemsFrom(data, p, c, i);
    ItemSplit(b);
    Assoc(EncodeItem(b[0]), EncodeItems(b[1..]), Padding(c));
    HoldsParts(data, p + ItemOffset(c, i), EncodeItem(b[0]), EncodeItems(b[1..]) + Padding(c));
    ItemBytes(data, p + ItemOffset(c, i), b[0]);
  }

  /** Past the last item lies a zero byte. */
  lemma {:induction false} EndAt(data: seq<Byte>, p: nat, c: Chunk)
    requires c.Good() && Holds(data, p, EncodeChunk(c))
    ensures p + ItemOffset(c, |c.items|) < |data| && data[p + ItemOffset(c, |c.items|)] == 0
  {
    hide EncodeItems, EncodeChunk, ItemOffset;
    var n := |c.items|;
    ItemsFrom(data, p, c, n);
    NoItems(c.items[n..]);
    assert [] + Padding(c) == Padding(c);
    HoldsAt(data, p + ItemOffset(c, n), Padding(c), 0);
  }

  lemma {:induction false} NoItems(b: seq<Item>)
    requires b == []
    ensures EncodeItems(b) == []
  {}

  lemma {:induction false} ItemSplit(b: seq<Item>)
    requires b != [] && forall i :: 0 <= i < |b| ==> b[i].Good()
    ensures EncodeItems(b) == EncodeItem(b[0]) + EncodeItems(b[1..])
  {}

  lemma {:induction false} OneItem(it: Item)
    requires it.Good()
    ensures EncodeItems([it]) == EncodeItem(it) && |EncodeItem(it)| == 2 + |it.data|
  {
    assert [it][1..] == [];
  }

  lemma {:induction false} ItemBytes(data: seq<Byte>, o: nat, it: Item)
    requires it.Good() && Holds(data, o, EncodeItem(it))
    ensures o + 2 + |it.data| <= |data|
    ensures data[o] == it.id && data[o + 1] == ToByte(|it.data|) && data[o + 2..o + 2 + |it.data|] == it.data
  {
    hide ToByte;
    HoldsParts(data, o, [it.id, ToByte(|it.data|)], it.data);
    HoldsAt(data, o, [it.id, ToByte(|it.data|)], 0);
    HoldsAt(data, o, [it.id, ToByte(|it.data|)], 1);
  }

  /** Where chunk k starts in the packet. */
  function ChunkStart(cs: seq<Chunk>, k: nat): nat
    requires k <= |cs| && forall i :: 0 <= i < |cs| ==> cs[i].Good()
  {
    COMMON_HEADER + |EncodeChunks(cs[..k])|
  }

  lemma {:induction false} ChunkAt(data: seq<Byte>, cs: seq<Chunk>, k: nat)
    requires k < |cs| && forall i :: 0 <= i < |cs| ==> cs[i].Good()
    requires Holds(data, COMMON_HEADER, EncodeChunks(cs))
    ensures Holds(data, ChunkStart(cs, k), EncodeChunk(cs[k]))
    ensures ChunkStart(cs, k + 1) == ChunkStart(cs, k) + |EncodeChunk(cs[k])|
  {
    hide EncodeChunk, EncodeChunks;
    var a, b := cs[..k], cs[k..];
    EncodeChunksConcat(a, b);
    assert a + b == cs;
    HoldsParts(data, COMMON_HEADER, EncodeChunks(a), EncodeChunks(b));
    ChunkSplit(b);
    HoldsParts(data, ChunkStart(cs, k), EncodeChunk(b[0]), EncodeChunks(b[1..]));
    assert cs[..k + 1] == a + [b[0]];
    EncodeChunksConcat(a, [b[0]]);
    OneChunk(b[0]);
  }

  lemma {:induction false} ChunkSplit(b: seq<Chunk>)
    requires b != [] && forall i :: 0 <= i < |b| ==> b[i].Good()
    ensures EncodeChunks(b) == EncodeChunk(b[0]) + EncodeChunks(b[1..])
  {}

  lemma {:induction false} OneChunk(c: Chunk)
    requires c.Good()
    ensures EncodeChunks([c]) == EncodeChunk(c)
  {
    assert [c][1..] == [];
  }

  // --- the walk ---

  datatype ItemType = NoItem | CNAME | NAME | EMAIL | PHONE | LOC | TOOL | NOTE | PRIV | Unknown

  function TypeOf(id: Byte): ItemType {
    if id == 0 then NoItem else if id == 1 then CNAME else if id == 2 then NAME else if id == 3 then EMAIL
    else if id == 4 then PHONE else if id == 5 then LOC else if id == 6 then TOOL else if id == 7 then NOTE
    else if id == 8 then PRIV else Unknown
  }

  /** The number of an item type (RFC 3550, section 6.5). */
  function IdOf(t: ItemType): (id: Byte)
    requires t != Unknown
  {
    match t
    case NoItem => 0
    case CNAME => 1
    case NAME => 2
    case EMAIL => 3
    case PHONE => 4
    case LOC => 5
    case TOOL => 6
    case NOTE => 7
    case PRIV => 8
  }

  /** Every type is read from its number and from no other one, and all further numbers are unknown. */
  lemma {:induction false} TypesByNumber(id: Byte, t: ItemType)
    ensures t != Unknown ==> (TypeOf(id) == t <==> id == IdOf(t))
    ensures TypeOf(id) == Unknown <==> id > 8
  {}

  /** A packet that holds these chunks, behind a common header that counts them. */
  ghost predicate Encodes(data: seq<Byte>, cs: seq<Chunk>) {
    && (forall i :: 0 <= i < |cs| ==> cs[i].Good())
    && data != [] && (data[0] & 0x1f) as int == |cs|
    && Holds(data, COMMON_HEADER, EncodeChunks(cs))
  }

  class RTCPSDESPacket {
    const data: seq<Byte>
    const knownformat: bool
    /** The current chunk's offset, 0 standing for the null pointer. */
    var currentchunk: nat
    var curchunknum: nat
    var itemoffset: nat

    /** The chunks laid out in data. */
    ghost const chunks: seq<Chunk>

    /** Nothing is known of a packet in a format the parser did not recognise. */
    ghost predicate Valid() {
      knownformat ==> Encodes(data, chunks)
    }

    /** The cursor is on chunk k and its item i; on a chunk without items, i is 0. */
    ghost predicate At(k: int, i: int)
      requires Valid() && knownformat
      reads this
    {
      && 0 <= k < |chunks|
      && currentchunk == ChunkStart(chunks, k) && curchunknum == k + 1
      && (0 <= i < |chunks[k].items| || i == |chunks[k].items| == 0)
      && itemoffset == ItemOffset(chunks[k], i)
    }

    /** The calls below that need a current chunk give up when there is none. */
    ghost predicate On(k: int, i: int)
      requires Valid()
      reads this
    {
      knownformat && currentchunk != 0 ==> At(k, i)
    }

    constructor (data: seq<Byte>, knownformat: bool, ghost chunks: seq<Chunk>)
      requires knownformat ==> Encodes(data, chunks)
      ensures Valid() && this.data == data && this.knownformat == knownformat && this.chunks == chunks
      ensures currentchunk == 0
    {
      this.data, this.knownformat, this.chunks := data, knownformat, chunks;
      currentchunk, curchunknum, itemoffset := 0, 0, 0;
    }

    function GetChunkCount(): int
      requires knownformat ==> data != []
    {
      if !knownformat then 0 else (data[0] & 0x1f) as int
    }

    method GotoFirstChunk() returns (r: bool)
      requires Valid()
      modifies this`currentchunk, this`curchunknum, this`itemoffset
      ensures r <==> knownformat && chunks != []
      ensures r ==> At(0, 0)
      ensures !r ==> currentchunk == 0
    {
      if GetChunkCount() == 0 {
        currentchunk := 0;
        return false;
      }
      currentchunk := COMMON_HEADER;
      curchunknum := 1;
      itemoffset := SSRC_SIZE;
      return true;
    }

    /** On to the next chunk: over all items of this one, its zero byte and its padding, which is
        exactly the number of bytes the builder counted for it. */
    method GotoNextChunk(ghost k: nat, ghost i: nat) returns (r: bool)
      requires Valid() && On(k, i)
      modifies this`currentchunk, this`curchunknum, this`itemoffset
      ensures r <==> knownformat && old(currentchunk) != 0 && k + 1 < |chunks|
      ensures r ==> At(k + 1, 0) && currentchunk == old(currentchunk) + ChunkBytes(|EncodeItems(chunks[k].items)|)
      ensures !r ==> unchanged(this)
    {
      hide Encodes, EncodeChunks, EncodeChunk, EncodeItems, ToByte, ItemOffset, ChunkStart;
      if !knownformat {
        return false;
      }
      if currentchunk == 0 {
        return false;
      }
      CountIsChunks();
      if curchunknum == GetChunkCount() {
        return false;
      }
      ghost var c := chunks[k];
      ChunkHere(k);
      EndAt(data, currentchunk, c);
      FirstOffset(c);
      var offset := SSRC_SIZE;
      ghost var j := 0;
      ItemOrEnd(currentchunk, c, 0);
      while data[currentchunk + offset] != 0
        invariant 0 <= j <= |c.items| && offset == ItemOffset(c, j) && currentchunk + offset < |data|
        invariant data[currentchunk + offset] != 0 <==> j < |c.items|
        invariant currentchunk == ChunkStart(chunks, k) && curchunknum == k + 1
        decreases |c.items| - j
      {
        ItemAt(data, currentchunk, c, j);
        NextOffset(c, j);
        ByteIsLength(c, j);
        var length := data[currentchunk + offset + 1] as int;
        offset := offset + SDES_HEADER;
        offset := offset + length;
        j := j + 1;
        ItemOrEnd(currentchunk, c, j);
      }
      WholeChunk(c);
      offset := offset + 1;
      if offset % 4 != 0 {
        offset := offset + (4 - offset % 4);
      }
      currentchunk := currentchunk + offset;
      curchunknum := curchunknum + 1;
      itemoffset := SSRC_SIZE;
      FirstOffset(chunks[k + 1]);
      return true;
    }

    lemma {:induction false} CountIsChunks()
      requires Valid() && knownformat
      ensures data != [] && GetChunkCount() == |chunks|
    {}

    lemma {:induction false} ChunkHere(k: nat)
      requires Valid() && knownformat && k < |chunks|
      ensures forall i :: 0 <= i < |chunks| ==> chunks[i].Good()
      ensures Holds(data, ChunkStart(chunks, k), EncodeChunk(chunks[k]))
      ensures ChunkStart(chunks, k + 1) == ChunkStart(chunks, k) + |EncodeChunk(chunks[k])|
    {
      hide EncodeChunk, EncodeChunks, ChunkStart;
      ChunkAt(data, chunks, k);
    }

    lemma {:induction false} ItemOrEnd(p: nat, c: Chunk, j: nat)
      requires c.Good() && j <= |c.items| && Holds(data, p, EncodeChunk(c))
      ensures p + ItemOffset(c, j) < |data| && (data[p + ItemOffset(c, j)] != 0 <==> j < |c.items|)
    {
      hide EncodeChunk, ItemOffset, ToByte;
      if j < |c.items| {
        ItemAt(data, p, c, j);
      } else {
        EndAt(data, p, c);
      }
    }

    ghost predicate Readable()
      reads this
    {
      knownformat && currentchunk != 0 ==>
        currentchunk + 4 <= |data| && currentchunk + itemoffset + 1 <= |data|
        && (data[currentchunk + itemoffset] != 0 ==>
              currentchunk + itemoffset + 2 <= |data|
              && currentchunk + itemoffset + 2 + Val(data[currentchunk + itemoffset + 1]) <= |data|)
    }

    function GetChunkSSRC(): int
      requires Readable()
      reads this
    {
      if !knownformat || currentchunk == 0 then 0 else Get32(data, currentchunk)
    }

    function GetItemType(): ItemType
      requires Readable()
      reads this
    {
      if !knownformat || currentchunk == 0 then NoItem else TypeOf(data[currentchunk + itemoffset])
    }

    function GetItemLength(): int
      requires Readable()
      reads this
    {
      if !knownformat || currentchunk == 0 || data[currentchunk + itemoffset] == 0 then 0
      else Val(data[currentchunk + itemoffset + 1])
    }

    /** The bytes the returned pointer leads to, as many as the item's length. */
    function GetItemData(): seq<Byte>
      requires Readable()
      reads this
    {
      if !knownformat || currentchunk == 0 || data[currentchunk + itemoffset] == 0 then []
      else
        var from := currentchunk + itemoffset + SDES_HEADER;
        ValRange(data[currentchunk + itemoffset + 1]);
        data[from..from + Val(data[currentchunk + itemoffset + 1])]
    }

    /** On chunk k and item i, the getters give what was laid out there. */
    lemma {:induction false} Getters(k: nat, i: nat)
      requires Valid() && knownformat && At(k, i)
      ensures Readable() && GetChunkSSRC() == chunks[k].ssrc
      ensures chunks[k].items == [] ==> GetItemType() == NoItem && GetItemLength() == 0 && GetItemData() == []
      ensures i < |chunks[k].items| ==> var it := chunks[k].items[i];
        GetItemType() == TypeOf(it.id) && GetItemLength() == |it.data| && GetItemData() == it.data
    {
      hide Encodes, EncodeChunks, EncodeItems, ItemOffset, ChunkStart, ToByte, Get32, Be32;
      var c := chunks[k];
      ChunkHere(k);
      StartsAfterHeader(chunks, k);
      ItemOrEnd(currentchunk, c, i);
      if i < |c.items| {
        ItemAt(data, currentchunk, c, i);
        ByteIsLength(c, i);
      }
      HoldsParts(data, currentchunk, Be32(c.ssrc), EncodeItems(c.items) + Padding(c));
      Get32Be32(c.ssrc, data, currentchunk);
    }

    /** Without a current chunk there is nothing to get, whatever the packet holds. */
    lemma {:induction false} NothingToGet()
      requires !knownformat || currentchunk == 0
      ensures Readable() && GetChunkSSRC() == 0 && GetItemType() == NoItem
      ensures GetItemLength() == 0 && GetItemData() == []
    {}

    method GotoFirstItem(ghost k: nat, ghost i: nat) returns (r: bool)
      requires Valid() && On(k, i)
      modifies this`itemoffset
      ensures r <==> knownformat && currentchunk != 0 && chunks[k].items != []
      ensures On(k, 0)
    {
      hide Encodes, EncodeChunks, EncodeChunk, EncodeItems, ItemOffset, ChunkStart;
      if !knownformat {
        return false;
      }
      if currentchunk == 0 {
        return false;
      }
      itemoffset := SSRC_SIZE;
      ChunkHere(k);
      FirstOffset(chunks[k]);
      ItemOrEnd(currentchunk, chunks[k], 0);
      if data[currentchunk + itemoffset] == 0 {
        return false;
      }
      return true;
    }

    method GotoNextItem(ghost k: nat, ghost i: nat) returns (r: bool)
      requires Valid() && On(k, i)
      modifies this`itemoffset
      ensures r <==> knownformat && currentchunk != 0 && i + 1 < |chunks[k].items|
      ensures if r then On(k, i + 1) else unchanged(this)
    {
      hide Encodes, EncodeChunks, EncodeChunk, EncodeItems, ItemOffset, ChunkStart, ToByte;
      if !knownformat {
        return false;
      }
      if currentchunk == 0 {
        return false;
      }
      ghost var c := chunks[k];
      ChunkHere(k);
      ItemOrEnd(currentchunk, c, i);
      if data[currentchunk + itemoffset] == 0 {
        return false;
      }
      ItemAt(data, currentchunk, c, i);
      NextOffset(c, i);
      ByteIsLength(c, i);
      ItemOrEnd(currentchunk, c, i + 1);
      var offset := itemoffset;
      offset := offset + SDES_HEADER;
      offset := offset + data[currentchunk + itemoffset + 1] as int;
      if data[currentchunk + offset] == 0 {
        return false;
      }
      itemoffset := offset;
      return true;
    }
  }

  lemma {:induction false} FirstOffset(c: Chunk)
    requires c.Good()
    ensures ItemOffset(c, 0) == SSRC_SIZE
  {
    assert c.items[..0] == [];
  }

  lemma {:induction false} ByteIsLength(c: Chunk, j: nat)
    requires c.Good() && j < |c.items|
    ensures ToByte(|c.items[j].data|) as int == |c.items[j].data|
  {
    hide ToByte;
  }

  /** Rounding the end of the items up to a boundary gives the end of the chunk. */
  lemma {:induction false} WholeChunk(c: Chunk)
    requires c.Good()
    ensures |EncodeChunk(c)| == RoundUp4(ItemOffset(c, |c.items|) + 1)
    ensures |EncodeChunk(c)| == ChunkBytes(|EncodeItems(c.items)|)
  {
    assert c.items[..|c.items|] == c.items;
  }

  // --- reading a whole packet ---

  datatype Read = Read(ssrc: int, items: seq<(ItemType, seq<Byte>)>)

  function ItemsRead(items: seq<Item>): seq<(ItemType, seq<Byte>)> {
    if items == [] then []
    else ItemsRead(items[..|items| - 1]) + [(TypeOf(items[|items| - 1].id), items[|items| - 1].data)]
  }

  function ChunksRead(cs: seq<Chunk>): seq<Read> {
    if cs == [] then []
    else ChunksRead(cs[..|cs| - 1]) + [Read(cs[|cs| - 1].ssrc, ItemsRead(cs[|cs| - 1].items))]
  }

  /** The walk over the current chunk's items. */
  method ReadItems(p: RTCPSDESPacket, ghost k: nat, ghost i: nat) returns (items: seq<(ItemType, seq<Byte>)>)
    requires p.Valid() && p.knownformat && p.At(k, i)
    modifies p`itemoffset
    ensures exists j: nat :: p.At(k, j)
    ensures items == ItemsRead(p.chunks[k].items)
  {
    hide Encodes, ChunkStart, ItemOffset, RTCPSDESPacket.Readable, RTCPSDESPacket.GetItemType,
      RTCPSDESPacket.GetItemData;
    ghost var its := p.chunks[k].items;
    items := [];
    ghost var j: nat := 0;
    p.ChunkHere(k);
    StartsAfterHeader(p.chunks, k);
    var more := p.GotoFirstItem(k, i);
    while more
      invariant p.currentchunk != 0 && p.At(k, j)
      invariant more <==> |items| < |its|
      invariant more ==> j == |items|
      invariant |items| <= |its| && items == ItemsRead(its[..|items|])
      decreases |its| - |items|
    {
      p.Getters(k, j);
      assert its[..|items| + 1][..|items|] == its[..|items|];
      items := items + [(p.GetItemType(), p.GetItemData())];
      more := p.GotoNextItem(k, j);
      if more {
        j := j + 1;
      }
    }
    assert its[..|its|] == its;
  }

  lemma {:induction false} StartsAfterHeader(cs: seq<Chunk>, k: nat)
    requires k <= |cs| && forall i :: 0 <= i < |cs| ==> cs[i].Good()
    ensures ChunkStart(cs, k) >= COMMON_HEADER
  {}

  /** The two walks together visit exactly the chunks and items that were laid out, in order. */
  method ReadPacket(p: RTCPSDESPacket) returns (read: seq<Read>)
    requires p.Valid()
    modifies p
    ensures read == if p.knownformat then ChunksRead(p.chunks) else []
  {
    hide Encodes, ChunkStart, ItemOffset, ItemsRead, RTCPSDESPacket.Readable, RTCPSDESPacket.GetChunkSSRC, EncodeChunk,
      EncodeItems, ChunkBytes, Chunk.Good, RTCPSDESPacket.GetItemType, RTCPSDESPacket.GetItemData, TypeOf;
    read := [];
    var more := p.GotoFirstChunk();
    while more
      invariant more ==> p.knownformat && |read| < |p.chunks| && p.At(|read|, 0)
      invariant !more && p.knownformat ==> |read| == |p.chunks|
      invariant p.knownformat ==> read == ChunksRead(p.chunks[..|read|])
      invariant !p.knownformat ==> read == []
      decreases |p.chunks| - |read|, more
    {
      ghost var k := |read|;
      p.Getters(k, 0);
      p.ChunkHere(k);
      StartsAfterHeader(p.chunks, k);
      var ssrc := p.GetChunkSSRC();
      var items := ReadItems(p, k, 0);
      assert p.chunks[..k + 1][..k] == p.chunks[..k];
      read := read + [Read(ssrc, items)];
      ghost var j: nat :| p.At(k, j);
      more := p.GotoNextChunk(k, j);
    }
    assert p.chunks[..|p.chunks|] == p.chunks;
  }
}
