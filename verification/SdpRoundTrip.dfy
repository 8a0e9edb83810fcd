/** sdp_parse undoes sdp_dump. */
module SdpRoundTrip {
  import opened Decimal
  import opened SdpText
  import opened SdpTokens
  import opened SdpTokensBack
  import opened Sdp
  import opened Options

  // ---- Lines

  /** A value that stays on its line: no line feed, and no carriage return in front of the one that ends it. */
  predicate OnOneLine(v: string) {
    '\n' !in v && (v != "" ==> v[|v| - 1] != '\r')
  }

  ghost predicate Printable(es: seq<Item>) {
    forall i :: 0 <= i < |es| ==> OnOneLine(es[i].value) && es[i].key !in NEWLINES
  }

  lemma {:induction false} PrintableParts(a: seq<Item>, b: seq<Item>)
    ensures Printable(a + b) <==> Printable(a) && Printable(b)
  {
    hide OnOneLine;
    assert forall i :: 0 <= i < |a| ==> (a + b)[i] == a[i];
    assert forall i :: 0 <= i < |b| ==> (a + b)[|a| + i] == b[i];
  }

  lemma {:induction false} LineHasNoCrLf(e: Item, t: string, i: nat)
    requires OnOneLine(e.value) && e.key !in NEWLINES
    requires forall j: nat :: !CrLfAt(t, j)
    ensures !CrLfAt(LineText(e) + t, i)
  {
    var l := LineText(e);
    var n := |l|;
    if i + 1 < n {
      assert (l + t)[i + 1] == l[i + 1] && (l + t)[i] == l[i];
    } else if i + 1 == n {
      assert (l + t)[i] == l[i];
    } else {
      var j: nat := i - n;
      assert !CrLfAt(t, j);
      assert j + 1 < |t| ==> (l + t)[i] == t[j] && (l + t)[i + 1] == t[j + 1];
    }
  }

  lemma {:induction false} TextHasNoCrLf(es: seq<Item>)
    requires Printable(es)
    ensures forall j: nat :: !CrLfAt(Text(es), j)
  {
    hide OnOneLine, LineText;
    if es == [] {
    } else {
      PrintableTail(es);
      TextHasNoCrLf(es[1..]);
      forall j: nat ensures !CrLfAt(Text(es), j) {
        LineHasNoCrLf(es[0], Text(es[1..]), j);
      }
    }
  }

  lemma {:induction false} PrintableTail(es: seq<Item>)
    requires Printable(es) && es != []
    ensures Printable(es[1..]) && OnOneLine(es[0].value) && es[0].key !in NEWLINES
  {
    hide OnOneLine;
  }

  function Start(es: seq<Item>): Line {
    NextLine(Text(es))
  }

  lemma {:induction false} TextHead(es: seq<Item>)
    requires Printable(es)
    ensures Text(es) == "" || Text(es)[0] !in NEWLINES
  {
    if es != [] {
      PrintableTail(es);
    }
  }

  lemma {:induction false} NoLineFeedIn(e: Item, t: string)
    requires OnOneLine(e.value) && e.key !in NEWLINES
    ensures IndexOf(LineText(e) + t, '\n') == |e.value| + 2
  {
    var w := [e.key, '='] + e.value;
    IndexOfIs(w, "\n" + t, '\n');
    assert LineText(e) + t == w + ("\n" + t);
  }

  /** The first printed line is the first line read. */
  lemma {:induction false} StartIs(es: seq<Item>)
    requires Printable(es)
    ensures Start(es) == if es == [] then NoLine else Line(es[0].key, es[0].value, Text(es[1..]))
  {
    hide OnOneLine, IndexOf, SkipAll, FirstCrLf;
    TextHasNoCrLf(es);
    var t := Text(es);
    assert FirstCrLf(t) == |t|;
    if es != [] {
      PrintableTail(es);
      var e, rest := es[0], Text(es[1..]);
      NoLineFeedIn(e, rest);
      TextHead(es[1..]);
      var n := |e.value| + 2;
      assert t[n..] == ['\n'] + rest && t[2..n] == e.value;
      SkipOne(t[n..], NEWLINES);
      assert t[n..][1..] == rest;
      SkipNone(rest, NEWLINES);
    }
  }

  // ---- One lemma for each stage: it takes its own lines and leaves the others

  ghost predicate Heads(es: seq<Item>, k: char) {
    es != [] && es[0].key == k
  }

  lemma {:induction false} NextIs(e: Item, more: seq<Item>)
    requires Printable([e] + more)
    ensures Start([e] + more) == Line(e.key, e.value, Text(more)) && Next(Start([e] + more)) == Start(more)
    ensures Printable(more)
  {
    hide OnOneLine, NextLine, Text;
    StartIs([e] + more);
    assert ([e] + more)[1..] == more;
    PrintableTail([e] + more);
  }

  lemma {:induction false} OtherKey(es: seq<Item>, k: char)
    requires Printable(es) && !Heads(es, k)
    ensures !Has(Start(es), k)
  {
    hide OnOneLine, NextLine, Text;
    StartIs(es);
  }

  lemma {:induction false} OptBack(k: char, o: Option<string>, more: seq<Item>)
    requires Printable(IfAny(k, o) + more) && !Heads(more, k)
    ensures Opt(Start(IfAny(k, o) + more), k) == (o, Start(more)) && Printable(more)
  {
    hide OnOneLine, NextLine, Text;
    if o.Some? {
      NextIs(Item(k, o.value), more);
    } else {
      assert [] + more == more;
      OtherKey(more, k);
    }
  }

  lemma {:induction false} ManyBack(k: char, ss: seq<string>, more: seq<Item>)
    requires Printable(Each(k, ss) + more) && !Heads(more, k)
    ensures Many(Start(Each(k, ss) + more), k) == (ss, Start(more)) && Printable(more)
  {
    hide OnOneLine, NextLine, Text;
    if ss == [] {
      assert [] + more == more;
      OtherKey(more, k);
    } else {
      var e, tail := Item(k, ss[0]), Each(k, ss[1..]) + more;
      assert Each(k, ss) + more == [e] + tail;
      NextIs(e, tail);
      ManyBack(k, ss[1..], more);
      assert ss == [ss[0]] + ss[1..];
    }
  }

  predicate ConnectionFits(c: Connection) {
    Fits([S(c.nettype), S(c.addrtype), S(c.address)], [Str, Str, Str], ' ')
  }

  lemma {:induction false} Joined3(a: Token, b: Token, c: Token, sep: char)
    ensures Joined([a, b, c], sep) == TokenText(a) + [sep] + TokenText(b) + [sep] + TokenText(c)
  {
    hide TokenText;
    Joined2(b, c, sep);
    assert [a, b, c][1..] == [b, c];
    var x, y, z := TokenText(a), TokenText(b), TokenText(c);
    assert x + [sep] + (y + [sep] + z) == x + [sep] + y + [sep] + z;
  }

  lemma {:induction false} Joined2(a: Token, b: Token, sep: char)
    ensures Joined([a, b], sep) == TokenText(a) + [sep] + TokenText(b)
  {
    hide TokenText;
    assert [a, b][1..] == [b];
    assert Joined([b], sep) == TokenText(b);
  }

  lemma {:induction false} ConnectionBack(c: Connection)
    requires ConnectionFits(c)
    ensures ConnectionOf(ConnectionText(c)) == c
  {
    hide Split, Fits;
    var toks := [S(c.nettype), S(c.addrtype), S(c.address)];
    Joined3(toks[0], toks[1], toks[2], ' ');
    assert Joined(toks, ' ') == ConnectionText(c);
    SplitJoined(toks, [Str, Str, Str], ' ', "");
    assert Joined(toks, ' ') + "" == Joined(toks, ' ');
  }

  lemma {:induction false} ConnBack(o: Option<Connection>, more: seq<Item>)
    requires Printable(ConnItems(o) + more) && !Heads(more, 'c') && (o.Some? ==> ConnectionFits(o.value))
    ensures Conn(Start(ConnItems(o) + more)) == (o, Start(more)) && Printable(more)
  {
    hide OnOneLine, NextLine, Text, ConnectionFits, ConnectionText, ConnectionOf;
    if o.Some? {
      NextIs(Item('c', ConnectionText(o.value)), more);
      ConnectionBack(o.value);
    } else {
      assert [] + more == more;
      OtherKey(more, 'c');
    }
  }

  predicate BandwidthFits(b: Bandwidth) {
    Fits([S(b.bwtype), S(b.bandwidth)], [Str, Str], ':')
  }

  lemma {:induction false} BandwidthBack(b: Bandwidth)
    requires BandwidthFits(b)
    ensures BandwidthOf(BandwidthText(b)) == b
  {
    hide Split, Fits;
    var toks := [S(b.bwtype), S(b.bandwidth)];
    Joined2(toks[0], toks[1], ':');
    assert Joined(toks, ':') == BandwidthText(b);
    SplitJoined(toks, [Str, Str], ':', "");
    assert Joined(toks, ':') + "" == Joined(toks, ':');
  }

  lemma {:induction false} BandsBack(bs: seq<Bandwidth>, more: seq<Item>)
    requires Printable(BandItems(bs) + more) && !Heads(more, 'b')
    requires forall i :: 0 <= i < |bs| ==> BandwidthFits(bs[i])
    ensures Bands(Start(BandItems(bs) + more)) == (bs, Start(more)) && Printable(more)
  {
    hide OnOneLine, NextLine, Text, BandwidthFits, BandwidthText, BandwidthOf;
    if bs == [] {
      assert [] + more == more;
      OtherKey(more, 'b');
    } else {
      var e, tail := Item('b', BandwidthText(bs[0])), BandItems(bs[1..]) + more;
      assert BandItems(bs) + more == [e] + tail;
      NextIs(e, tail);
      BandwidthBack(bs[0]);
      BandsBack(bs[1..], more);
      assert bs == [bs[0]] + bs[1..];
    }
  }

  // ---- Lists of numbers

  predicate Suitable(ns: seq<int>, c: Conv) {
    forall i :: 0 <= i < |ns| ==> Suits(N(ns[i]), c, ' ')
  }

  lemma {:induction false} NumbersEnd(ns: seq<int>)
    ensures Ends(NumbersText(ns), ' ') && (NumbersText(ns) == "" <==> ns == [])
  {
    hide Dec;
  }

  lemma {:induction false} DecSkipsNothing(n: int, y: string)
    ensures SkipAll(Dec(n) + y, {' '}) == Dec(n) + y && Dec(n) + y != ""
  {
    hide Dec, SkipAll;
    DecStarts(n);
    SkipNone(Dec(n) + y, {' '});
  }

  lemma {:induction false} SkipSpace(y: string)
    ensures SkipAll(" " + y, {' '}) == SkipAll(y, {' '})
  {
    hide SkipAll;
    assert (" " + y)[1..] == y;
    SkipOne(" " + y, {' '});
  }

  lemma {:induction false} SplitNumber(n: int, y: string, c: Conv)
    requires !c.Str? && Suits(N(n), c, ' ') && Ends(y, ' ')
    ensures Split(Dec(n) + y, ' ', [c]) == ([N(n)], SkipAll(y, {' '}))
  {
    hide Dec, Split, SkipAll;
    DecStarts(n);
    assert TokenText(N(n)) == Dec(n) && [c][1..] == [] && [N(n)] + [] == [N(n)];
    SplitStep(N(n), y, ' ', [c]);
    SplitNothing(y, ' ');
  }

  lemma {:induction false} NumbersBack(ns: seq<int>, c: Conv)
    requires !c.Str? && Suitable(ns, c)
    ensures Numbers(SkipAll(NumbersText(ns), {' '}), c) == ns
  {
    hide Dec, Split, SkipAll, Suits;
    if ns == [] {
      SkipNone("", {' '});
    } else {
      var y := NumbersText(ns[1..]);
      assert NumbersText(ns) == " " + (Dec(ns[0]) + y);
      SkipSpace(Dec(ns[0]) + y);
      DecSkipsNothing(ns[0], y);
      NumbersEnd(ns[1..]);
      SplitNumber(ns[0], y, c);
      NumbersBack(ns[1..], c);
      assert ns == [ns[0]] + ns[1..];
    }
  }

  predicate PairFits(m: int, n: int) {
    Suits(N(m), Time, ' ') && Suits(N(n), Time, ' ')
  }

  lemma {:induction false} SplitPair(m: int, n: int, y: string)
    requires PairFits(m, n) && Ends(y, ' ')
    ensures Split(Dec(m) + " " + Dec(n) + y, ' ', [Time, Time]) == ([N(m), N(n)], SkipAll(y, {' '}))
  {
    hide Split, SkipAll, Dec, Suits;
    var toks, fmt := [N(m), N(n)], [Time, Time];
    DecStarts(m);
    DecStarts(n);
    Joined2(toks[0], toks[1], ' ');
    assert Fits(toks, fmt, ' ');
    SplitJoined(toks, fmt, ' ', y);
    assert Joined(toks, ' ') + y == Dec(m) + " " + Dec(n) + y;
  }

  predicate RepeatFits(r: Repeat) {
    PairFits(r.interval, r.duration) && Suitable(r.offsets, Time)
  }

  lemma {:induction false} RepeatBack(r: Repeat)
    requires RepeatFits(r)
    ensures RepeatOf(RepeatText(r)) == r
  {
    hide Split, SkipAll, Dec, NumbersText, Numbers;
    NumbersEnd(r.offsets);
    SplitPair(r.interval, r.duration, NumbersText(r.offsets));
    NumbersBack(r.offsets, Time);
  }

  lemma {:induction false} RepeatsBack(rs: seq<Repeat>, more: seq<Item>)
    requires Printable(RepeatItems(rs) + more) && !Heads(more, 'r')
    requires forall i :: 0 <= i < |rs| ==> RepeatFits(rs[i])
    ensures Repeats(Start(RepeatItems(rs) + more)) == (rs, Start(more)) && Printable(more)
  {
    hide OnOneLine, NextLine, Text, RepeatFits, RepeatText, RepeatOf;
    if rs == [] {
      assert [] + more == more;
      OtherKey(more, 'r');
    } else {
      var e, tail := Item('r', RepeatText(rs[0])), RepeatItems(rs[1..]) + more;
      assert RepeatItems(rs) + more == [e] + tail;
      NextIs(e, tail);
      RepeatBack(rs[0]);
      RepeatsBack(rs[1..], more);
      assert rs == [rs[0]] + rs[1..];
    }
  }

  predicate TimeFits(t: TimeField) {
    PairFits(t.start, t.stop) && forall i :: 0 <= i < |t.repeats| ==> RepeatFits(t.repeats[i])
  }

  lemma {:induction false} TimeBack(t: TimeField)
    requires TimeFits(t)
    ensures TimeOf(TimeText(t), t.repeats) == t
  {
    hide Split, SkipAll, Dec, PairFits, RepeatFits;
    SplitPair(t.start, t.stop, "");
    assert Dec(t.start) + " " + Dec(t.stop) + "" == TimeText(t);
  }

  lemma {:induction false} TimesBack(ts: seq<TimeField>, more: seq<Item>)
    requires ts != [] && Printable(TimeItems(ts) + more) && !Heads(more, 'r') && !Heads(more, 't')
    requires forall i :: 0 <= i < |ts| ==> TimeFits(ts[i])
    ensures Start(TimeItems(ts) + more).Line? && Times(Start(TimeItems(ts) + more)) == (ts, Start(more))
    ensures Printable(more)
  {
    hide OnOneLine, NextLine, Text, PairFits, RepeatFits, TimeText, TimeOf, RepeatItems, Repeats;
    var t := ts[0];
    var e, tail := Item('t', TimeText(t)), TimeItems(ts[1..]) + more;
    assert TimeItems(ts) + more == [e] + (RepeatItems(t.repeats) + tail);
    NextIs(e, RepeatItems(t.repeats) + tail);
    TimesHead(ts[1..], more);
    RepeatsBack(t.repeats, tail);
    TimeBack(t);
    assert ts == [t] + ts[1..];
    if ts[1..] == [] {
      assert tail == more && [t] + [] == [t];
      OtherKey(more, 't');
    } else {
      TimesBack(ts[1..], more);
      StartIs(tail);
    }
  }

  lemma {:induction false} TimesHead(ts: seq<TimeField>, more: seq<Item>)
    requires !Heads(more, 'r')
    ensures !Heads(TimeItems(ts) + more, 'r')
    ensures ts != [] ==> Heads(TimeItems(ts) + more, 't')
  {
    hide TimeText, RepeatItems;
    assert ts == [] ==> [] + more == more;
  }

  predicate ZonesFit(zs: seq<Zone>) {
    forall i :: 0 <= i < |zs| ==> PairFits(zs[i].adjust, zs[i].offset)
  }

  lemma {:induction false} ZonesStart(zs: seq<Zone>)
    requires zs != []
    ensures SkipAll(ZonesText(zs), {' '}) == ZonesText(zs) != ""
  {
    hide Dec, SkipAll;
    var y := " " + Dec(zs[0].offset) + if |zs| > 1 then " " + ZonesText(zs[1..]) else "";
    assert ZonesText(zs) == Dec(zs[0].adjust) + y;
    DecSkipsNothing(zs[0].adjust, y);
  }

  lemma {:induction false} ZonesBack(zs: seq<Zone>)
    requires ZonesFit(zs)
    ensures ZonesOf(ZonesText(zs)) == zs
  {
    hide Dec, SkipAll, Split, PairFits;
    if zs == [] {
    } else {
      var y := if |zs| > 1 then " " + ZonesText(zs[1..]) else "";
      SplitPair(zs[0].adjust, zs[0].offset, y);
      ZonesStart(zs);
      ZonesBack(zs[1..]);
      assert zs == [zs[0]] + zs[1..];
      if |zs| > 1 {
        SkipSpace(ZonesText(zs[1..]));
        ZonesStart(zs[1..]);
      } else {
        SkipNone("", {' '});
      }
    }
  }

  lemma {:induction false} ZoneLineBack(zs: seq<Zone>, more: seq<Item>)
    requires Printable(ZoneItems(zs) + more) && !Heads(more, 'z') && ZonesFit(zs)
    ensures Zones(Start(ZoneItems(zs) + more)) == (zs, Start(more)) && Printable(more)
  {
    hide OnOneLine, NextLine, Text, ZonesFit, ZonesText, ZonesOf;
    if zs == [] {
      assert [] + more == more;
      OtherKey(more, 'z');
    } else {
      NextIs(Item('z', ZonesText(zs)), more);
      ZonesBack(zs);
    }
  }

  // ---- Media

  predicate IsInt(n: int) {
    -0x8000_0000 <= n < 0x8000_0000
  }

  lemma {:induction false} WrapSmall(n: int)
    requires IsInt(n)
    ensures Wrap32(n) == n && LONG_MIN <= n <= LONG_MAX
  {}

  predicate InfoFits(m: Info) {
    && m.kind != "" && ' ' !in m.kind && ' ' !in m.proto && (m.proto == "" ==> m.fmts == [])
    && IsInt(m.port) && IsInt(m.portN) && Suitable(m.fmts, Int)
  }

  lemma {:induction false} PortBack(port: int, portN: int, y: string)
    requires IsInt(port) && IsInt(portN) && y != "" && y[0] == ' '
    ensures PortOf(Dec(port) + ((if portN != 0 then "/" + Dec(portN) else "") + y)) == (port, portN, y)
  {
    hide Dec, StrToL, Wrap32;
    WrapSmall(port);
    WrapSmall(portN);
    var x := (if portN != 0 then "/" + Dec(portN) else "") + y;
    DecRead(port, x);
    assert (Dec(port) + x)[|Dec(port)|..] == x;
    if portN != 0 {
      DecRead(portN, y);
      assert x[1..] == Dec(portN) + y;
      assert x[1..][|Dec(portN)|..] == y;
    } else {
      assert x == y;
    }
  }

  lemma {:induction false} SplitWord(w: string, y: string)
    requires w != "" && ' ' !in w && Ends(y, ' ')
    ensures Split(w + y, ' ', [Str]) == ([S(w)], SkipAll(y, {' '}))
  {
    hide Split, SkipAll;
    assert TokenText(S(w)) == w && [Str][1..] == [] && [S(w)] + [] == [S(w)];
    SplitStep(S(w), y, ' ', [Str]);
    SplitNothing(y, ' ');
  }

  lemma {:induction false} SplitProto(proto: string, fmts: seq<int>)
    requires ' ' !in proto && (proto == "" ==> fmts == []) && Suitable(fmts, Int)
    ensures var (t, rest) := Split(" " + proto + NumbersText(fmts), ' ', [Str]);
      |t| == 1 && t[0] == S(proto) && Numbers(rest, Int) == fmts
  {
    hide Split, SkipAll, NumbersText, Numbers, Suitable;
    var y := NumbersText(fmts);
    assert " " + proto + y == [' '] + (proto + y);
    SplitSkips(proto + y, ' ', [Str]);
    NumbersEnd(fmts);
    NumbersBack(fmts, Int);
    if proto != "" {
      SplitWord(proto, y);
    } else {
      assert proto + y == "";
      SplitBlank();
      SkipNone("", {' '});
    }
  }

  lemma {:induction false} SplitBlank()
    ensures Split("", ' ', [Str]) == ([S("")], "")
  {
    assert Fits([S("")], [Str], ' ');
    SplitEmpty([S("")], [Str], ' ');
  }

  lemma {:induction false} InfoBack(m: Info)
    requires InfoFits(m)
    ensures InfoOf(InfoText(m)) == m
  {
    hide Dec, Split, SkipAll, NumbersText, Numbers, PortOf, Suitable;
    var y := " " + m.proto + NumbersText(m.fmts);
    var x := (if m.portN != 0 then "/" + Dec(m.portN) else "") + y;
    assert InfoText(m) == m.kind + (" " + (Dec(m.port) + x));
    SplitWord(m.kind, " " + (Dec(m.port) + x));
    SkipSpace(Dec(m.port) + x);
    DecSkipsNothing(m.port, x);
    PortBack(m.port, m.portN, y);
    SplitProto(m.proto, m.fmts);
  }

  /** The lines ahead begin with one of these letters, if there are any. */
  ghost predicate HeadIn(es: seq<Item>, ks: set<char>) {
    es != [] ==> es[0].key in ks
  }

  lemma {:induction false} HeadGrows(a: seq<Item>, b: seq<Item>, k: char, ks: set<char>)
    requires HeadIn(a, {k}) && HeadIn(b, ks)
    ensures HeadIn(a + b, {k} + ks)
  {
    assert a == [] ==> a + b == b;
  }

  predicate MediaFits(m: Media) {
    && InfoFits(m.info) && (m.conn.Some? ==> ConnectionFits(m.conn.value))
    && forall i :: 0 <= i < |m.bw| ==> BandwidthFits(m.bw[i])
  }

  lemma {:induction false} MediaBack(m: Media, more: seq<Item>)
    requires Printable(MediaItems(m) + more) && HeadIn(more, {'m'}) && MediaFits(m)
    ensures Has(Start(MediaItems(m) + more), 'm') && Printable(more)
    ensures var ln := Start(MediaItems(m) + more); MediaFrom(ln.value, Next(ln)) == (m, Start(more))
  {
    hide OnOneLine, NextLine, Text, InfoFits, ConnectionFits, BandwidthFits, InfoText, InfoOf, IfAny, Each,
      ConnItems, BandItems, Opt, Conn, Bands, Many, HeadIn, Printable;
    var e := Item('m', InfoText(m.info));
    var e5 := Each('a', m.attributes) + more;
    var e4 := IfAny('k', m.encryptKey) + e5;
    var e3 := BandItems(m.bw) + e4;
    var e2 := ConnItems(m.conn) + e3;
    var e1 := IfAny('i', m.title) + e2;
    assert MediaItems(m) + more == [e] + e1;
    MediaHeads(m, more);
    NextIs(e, e1);
    OptBack('i', m.title, e2);
    ConnBack(m.conn, e3);
    BandsBack(m.bw, e4);
    OptBack('k', m.encryptKey, e5);
    ManyBack('a', m.attributes, more);
    InfoBack(m.info);
  }

  lemma {:induction false} MediaHeads(m: Media, more: seq<Item>)
    requires HeadIn(more, {'m'})
    ensures !Heads(more, 'a')
    ensures !Heads(Each('a', m.attributes) + more, 'k')
    ensures !Heads(IfAny('k', m.encryptKey) + (Each('a', m.attributes) + more), 'b')
    ensures !Heads(BandItems(m.bw) + (IfAny('k', m.encryptKey) + (Each('a', m.attributes) + more)), 'c')
    ensures var e4 := IfAny('k', m.encryptKey) + (Each('a', m.attributes) + more);
      !Heads(ConnItems(m.conn) + (BandItems(m.bw) + e4), 'i')
  {
    hide ConnectionText, BandwidthText;
    var e5 := Each('a', m.attributes) + more;
    HeadGrows(Each('a', m.attributes), more, 'a', {'m'});
    var e4 := IfAny('k', m.encryptKey) + e5;
    HeadGrows(IfAny('k', m.encryptKey), e5, 'k', {'a', 'm'});
    var e3 := BandItems(m.bw) + e4;
    HeadGrows(BandItems(m.bw), e4, 'b', {'k', 'a', 'm'});
    HeadGrows(ConnItems(m.conn), e3, 'c', {'b', 'k', 'a', 'm'});
  }

  lemma {:induction false} MediasBack(ms: seq<Media>)
    requires Printable(MediasItems(ms)) && forall i :: 0 <= i < |ms| ==> MediaFits(ms[i])
    ensures Medias(Start(MediasItems(ms))) == ms
  {
    hide OnOneLine, NextLine, Text, MediaFits, MediaFrom, MediaItems, Printable;
    if ms == [] {
      NothingLeft();
      OtherKey([], 'm');
    } else {
      var more := MediasItems(ms[1..]);
      MediasHead(ms[1..]);
      MediaBack(ms[0], more);
      MediasBack(ms[1..]);
      assert ms == [ms[0]] + ms[1..];
    }
  }

  lemma {:induction false} NothingLeft()
    ensures Printable([])
  {}

  lemma {:induction false} MediasHead(ms: seq<Media>)
    ensures HeadIn(MediasItems(ms), {'m'})
  {}

  // ---- The whole description

  predicate OriginFits(o: Origin) {
    Fits([S(o.username), N(o.sessId), N(o.sessVersion), S(o.nettype), S(o.addrtype), S(o.addr)],
         [Str, Long, Long, Str, Str, Str], ' ')
  }

  lemma {:induction false} JoinedCons(t: Token, rest: seq<Token>, sep: char)
    requires rest != []
    ensures Joined([t] + rest, sep) == TokenText(t) + [sep] + Joined(rest, sep)
  {
    assert ([t] + rest)[1..] == rest;
  }

  lemma {:induction false} OriginJoined(a: Token, b: Token, c: Token, d: Token, e: Token, f: Token)
    ensures Joined([a, b, c, d, e, f], ' ') == TokenText(a) + " " + TokenText(b) + " " + TokenText(c) + " "
                                               + TokenText(d) + " " + TokenText(e) + " " + TokenText(f)
  {
    hide TokenText;
    var u, v, w, x, y, z := TokenText(a), TokenText(b), TokenText(c), TokenText(d), TokenText(e), TokenText(f);
    Joined3(d, e, f, ' ');
    assert [c] + [d, e, f] == [c, d, e, f] && [b] + [c, d, e, f] == [b, c, d, e, f];
    assert [a] + [b, c, d, e, f] == [a, b, c, d, e, f];
    JoinedCons(c, [d, e, f], ' ');
    JoinedCons(b, [c, d, e, f], ' ');
    JoinedCons(a, [b, c, d, e, f], ' ');
    var tail := x + " " + y + " " + z;
    assert u + " " + (v + " " + (w + " " + tail)) == u + " " + v + " " + w + " " + x + " " + y + " " + z;
  }

  lemma {:induction false} OriginBack(o: Origin)
    requires OriginFits(o)
    ensures OriginOf(OriginText(o)) == o
  {
    hide Split, Fits, Dec, Joined;
    var toks := [S(o.username), N(o.sessId), N(o.sessVersion), S(o.nettype), S(o.addrtype), S(o.addr)];
    OriginJoined(toks[0], toks[1], toks[2], toks[3], toks[4], toks[5]);
    assert Joined(toks, ' ') == OriginText(o);
    OriginSplits(o, toks);
    assert Joined(toks, ' ') + "" == Joined(toks, ' ');
  }

  lemma {:induction false} OriginSplits(o: Origin, toks: seq<Token>)
    requires toks == [S(o.username), N(o.sessId), N(o.sessVersion), S(o.nettype), S(o.addrtype), S(o.addr)]
    requires OriginFits(o)
    ensures Split(Joined(toks, ' ') + "", ' ', [Str, Long, Long, Str, Str, Str]) == (toks, SkipAll("", {' '}))
  {
    hide Split, Fits, Dec, Joined, SkipAll;
    SplitJoined(toks, [Str, Long, Long, Str, Str, Str], ' ', "");
  }

  /** Every token, number and list in front of the media can be told from its neighbours. */
  predicate SessionFits(d: Payload) {
    && d.version == 0 && OriginFits(d.origin)
    && (d.conn.Some? ==> ConnectionFits(d.conn.value))
    && (forall i :: 0 <= i < |d.bw| ==> BandwidthFits(d.bw[i]))
    && d.times != [] && (forall i :: 0 <= i < |d.times| ==> TimeFits(d.times[i]))
    && ZonesFit(d.zones)
  }

  predicate PartsFit(d: Payload) {
    SessionFits(d) && forall i :: 0 <= i < |d.medias| ==> MediaFits(d.medias[i])
  }

  /** What the format can carry: fitting parts, each printed on a line of its own. */
  ghost predicate WellFormed(d: Payload) {
    PartsFit(d) && Printable(Items(d))
  }

  lemma {:induction false} TimesAhead(d: Payload)
    requires d.times != []
    ensures HeadIn(After(d, 6), {'t'})
  {
    hide TimeText, RepeatItems;
  }

  lemma {:induction false} LateHeads(d: Payload)
    ensures HeadIn(After(d, 10), {'m'}) && HeadIn(After(d, 9), {'a', 'm'})
    ensures HeadIn(After(d, 8), {'k', 'a', 'm'}) && HeadIn(After(d, 7), {'z', 'k', 'a', 'm'})
  {
    hide MediasItems, ZonesText, HeadIn;
    MediasHead(d.medias);
    OwnKeys(d);
    HeadGrows(Each('a', d.attributes), After(d, 10), 'a', {'m'});
    HeadGrows(IfAny('k', d.encryptKey), After(d, 9), 'k', {'a', 'm'});
    HeadGrows(ZoneItems(d.zones), After(d, 8), 'z', {'k', 'a', 'm'});
    assert {'a'} + {'m'} == {'a', 'm'} && {'k'} + {'a', 'm'} == {'k', 'a', 'm'};
    assert {'z'} + {'k', 'a', 'm'} == {'z', 'k', 'a', 'm'};
  }

  lemma {:induction false} OwnKeys(d: Payload)
    ensures HeadIn(Each('a', d.attributes), {'a'}) && HeadIn(IfAny('k', d.encryptKey), {'k'})
    ensures HeadIn(ZoneItems(d.zones), {'z'})
  {}

  lemma {:induction false} MiddleHeads(d: Payload)
    requires d.times != []
    ensures HeadIn(After(d, 6), {'t'}) && HeadIn(After(d, 5), {'b', 't'}) && HeadIn(After(d, 4), {'c', 'b', 't'})
  {
    hide BandwidthText, ConnectionText, TimeItems;
    TimesAhead(d);
    HeadGrows(BandItems(d.bw), After(d, 6), 'b', {'t'});
    HeadGrows(ConnItems(d.conn), After(d, 5), 'c', {'b', 't'});
  }

  lemma {:induction false} EarlyHeads(d: Payload)
    requires HeadIn(After(d, 4), {'c', 'b', 't'})
    ensures HeadIn(After(d, 3), {'p', 'c', 'b', 't'})
    ensures HeadIn(After(d, 2), {'e', 'p', 'c', 'b', 't'}) && HeadIn(After(d, 1), {'u', 'e', 'p', 'c', 'b', 't'})
  {
    HeadGrows(Each('p', d.phones), After(d, 4), 'p', {'c', 'b', 't'});
    HeadGrows(Each('e', d.emails), After(d, 3), 'e', {'p', 'c', 'b', 't'});
    HeadGrows(IfAny('u', d.uri), After(d, 2), 'u', {'e', 'p', 'c', 'b', 't'});
  }

  lemma {:induction false} LateBack(d: Payload)
    requires SessionFits(d) && Printable(After(d, 6))
    ensures Start(After(d, 6)).Line?
    ensures var (times, l10) := Times(Start(After(d, 6)));
      var (zones, l11) := Zones(l10);
      var (key, l12) := Opt(l11, 'k');
      var (attributes, l13) := Many(l12, 'a');
      && times == d.times && zones == d.zones && key == d.encryptKey && attributes == d.attributes
      && l13 == Start(MediasItems(d.medias))
  {
    hide OnOneLine, Printable, NextLine, Text, OriginFits, ConnectionFits, BandwidthFits, TimeFits, ZonesFit, Times,
      Zones, Opt, Many, Medias, TimeItems, ZoneItems, IfAny, Each, MediasItems;
    LateHeads(d);
    TimesBack(d.times, After(d, 7));
    ZoneLineBack(d.zones, After(d, 8));
    OptBack('k', d.encryptKey, After(d, 9));
    ManyBack('a', d.attributes, After(d, 10));
  }

  lemma {:induction false} SessionBack(d: Payload)
    requires SessionFits(d) && Printable(After(d, 0))
    ensures Session(d.origin, d.sessionName, Start(After(d, 0)))
         == Parsed(d.(medias := Medias(Start(MediasItems(d.medias)))))
  {
    hide OnOneLine, Printable, NextLine, Text, OriginFits, ConnectionFits, BandwidthFits, TimeFits, ZonesFit,
      MediasItems, Times, Zones, Opt, Many, Conn, Bands, Medias, TimeItems, IfAny, Each, ConnItems, BandItems;
    MiddleHeads(d);
    EarlyHeads(d);
    OptBack('i', d.information, After(d, 1));
    OptBack('u', d.uri, After(d, 2));
    ManyBack('e', d.emails, After(d, 3));
    ManyBack('p', d.phones, After(d, 4));
    ConnBack(d.conn, After(d, 5));
    BandsBack(d.bw, After(d, 6));
    LateBack(d);
  }

  /** The first three lines are read back whatever the description holds, as long as it prints line by line. */
  lemma {:induction false} HeadLines(d: Payload)
    requires Printable(Items(d))
    ensures Printable(After(d, 0))
    ensures var l0 := NextLine(Dump(d)); Has(l0, 'v') && l0.value == Dec(d.version)
    ensures var l1 := Next(NextLine(Dump(d))); Has(l1, 'o') && l1.value == OriginText(d.origin)
    ensures var l2 := Next(Next(NextLine(Dump(d))));
      Has(l2, 's') && l2.value == d.sessionName && Next(l2) == Start(After(d, 0))
  {
    hide OnOneLine, Printable, NextLine, Text, After, OriginText, Dec;
    var c := [Item('s', d.sessionName)] + After(d, 0);
    var b := [Item('o', OriginText(d.origin))] + c;
    NextIs(Item('v', Dec(d.version)), b);
    NextIs(Item('o', OriginText(d.origin)), c);
    NextIs(Item('s', d.sessionName), After(d, 0));
  }

  lemma {:induction false} FirstParts(d: Payload)
    requires SessionFits(d)
    ensures Dec(d.version) == "0" && OriginOf(OriginText(d.origin)) == d.origin
  {
    hide OriginText, OriginOf, OriginFits, ConnectionFits, BandwidthFits, TimeFits, ZonesFit;
    OriginBack(d.origin);
    assert Digits(0) == "0";
  }

  lemma {:induction false} ParseDump(d: Payload)
    requires SessionFits(d) && Printable(Items(d))
    ensures Parse(Dump(d)) == Parsed(d.(medias := Medias(Start(MediasItems(d.medias)))))
  {
    hide Printable, NextLine, Dump, SessionFits, Session, After, OriginText, Dec, OriginOf, Start, Medias,
      MediasItems;
    HeadLines(d);
    FirstParts(d);
    SessionBack(d);
  }

  /** sdp_parse of what sdp_dump prints is the description that was printed. */
  lemma {:induction false} RoundTrip(d: Payload)
    requires WellFormed(d)
    ensures Parse(Dump(d)) == Parsed(d)
  {
    hide Printable, NextLine, Dump, Parse, SessionFits, MediaFits, After, OriginText, Dec, OriginOf, Start, Medias,
      MediasItems, Items;
    ParseDump(d);
    MediasPrinted(d);
    MediasBack(d.medias);
    assert d.(medias := d.medias) == d;
  }

  lemma {:induction false} MediasPrinted(d: Payload)
    requires Printable(Items(d))
    ensures Printable(MediasItems(d.medias))
  {
    hide OnOneLine, Printable, OriginText, Dec, IfAny, Each, ConnItems, BandItems, TimeItems, ZoneItems, MediasItems;
    PrintableParts([Item('v', Dec(d.version))],
                   [Item('o', OriginText(d.origin))] + ([Item('s', d.sessionName)] + After(d, 0)));
    PrintableParts([Item('o', OriginText(d.origin))], [Item('s', d.sessionName)] + After(d, 0));
    PrintableParts([Item('s', d.sessionName)], After(d, 0));
    AfterPrintable(d, 0);
  }

  lemma {:induction false} AfterPrintable(d: Payload, stage: nat)
    requires stage <= 10 && Printable(After(d, stage))
    ensures Printable(MediasItems(d.medias))
    decreases 10 - stage
  {
    hide OnOneLine, Printable, IfAny, Each, ConnItems, BandItems, TimeItems, ZoneItems, MediasItems;
    if stage == 10 {
    } else {
      var front := match stage
        case 0 => IfAny('i', d.information)
        case 1 => IfAny('u', d.uri)
        case 2 => Each('e', d.emails)
        case 3 => Each('p', d.phones)
        case 4 => ConnItems(d.conn)
        case 5 => BandItems(d.bw)
        case 6 => TimeItems(d.times)
        case 7 => ZoneItems(d.zones)
        case 8 => IfAny('k', d.encryptKey)
        case _ => Each('a', d.attributes);
      PrintableParts(front, After(d, stage + 1));
      AfterPrintable(d, stage + 1);
    }
  }
}
