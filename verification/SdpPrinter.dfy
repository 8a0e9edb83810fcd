/** sdp_dump: the text it prints, piece by piece. */
module SdpPrinter {
  import opened Decimal
  import opened Sdp
  import opened Options

  lemma {:induction false} TextConcat(a: seq<Item>, b: seq<Item>)
    ensures Text(a + b) == Text(a) + Text(b)
  {
    hide LineText;
    if a == [] {
      assert a + b == b;
    } else {
      assert (a + b)[1..] == a[1..] + b;
      TextConcat(a[1..], b);
    }
  }

  lemma {:induction false} TextOne(e: Item)
    ensures Text([e]) == LineText(e)
  {
    hide LineText;
    assert [e][1..] == [] && LineText(e) + "" == LineText(e);
  }

  /** What is printed so far, together with the lines still to come. */
  lemma {:induction false} PrintedOne(out: string, e: Item, es: seq<Item>)
    ensures out + LineText(e) + Text(es) == out + Text([e] + es)
  {
    hide LineText;
    TextConcat([e], es);
    TextOne(e);
  }

  method PrintEach(out0: string, k: char, ss: seq<string>) returns (out: string)
    ensures out == out0 + Text(Each(k, ss))
  {
    hide LineText, Text;
    out := out0;
    var i := 0;
    assert ss[0..] == ss;
    while i < |ss|
      invariant i <= |ss| && out + Text(Each(k, ss[i..])) == out0 + Text(Each(k, ss))
    {
      PrintedOne(out, Item(k, ss[i]), Each(k, ss[i + 1..]));
      assert ss[i..][1..] == ss[i + 1..];
      PrintLine(out, Item(k, ss[i]));
      out, i := out + [k, '='] + ss[i] + "\n", i + 1;
    }
    PrintedAll(out);
  }

  lemma {:induction false} PrintLine(out: string, e: Item)
    ensures out + [e.key, '='] + e.value + "\n" == out + LineText(e)
  {}

  lemma {:induction false} PrintedAll(out: string)
    ensures out + Text([]) == out
  {}

  method PrintIfAny(out0: string, k: char, o: Option<string>) returns (out: string)
    ensures out == out0 + Text(IfAny(k, o))
  {
    hide LineText, Text;
    out := out0;
    PrintedAll(out);
    if o.Some? {
      PrintLine(out, Item(k, o.value));
      TextOne(Item(k, o.value));
      out := out + [k, '='] + o.value + "\n";
    }
  }

  method PrintConn(out0: string, c: Option<Connection>) returns (out: string)
    ensures out == out0 + Text(ConnItems(c))
  {
    hide LineText, Text;
    out := out0;
    PrintedAll(out);
    if c.Some? {
      var v := c.value.nettype + " " + c.value.addrtype + " " + c.value.address;
      PrintLine(out, Item('c', v));
      TextOne(Item('c', v));
      out := out + ['c', '='] + v + "\n";
    }
  }

  method PrintBands(out0: string, bs: seq<Bandwidth>) returns (out: string)
    ensures out == out0 + Text(BandItems(bs))
  {
    hide LineText, Text;
    out := out0;
    var i := 0;
    assert bs[0..] == bs;
    while i < |bs|
      invariant i <= |bs| && out + Text(BandItems(bs[i..])) == out0 + Text(BandItems(bs))
    {
      var v := bs[i].bwtype + ":" + bs[i].bandwidth;
      PrintedOne(out, Item('b', v), BandItems(bs[i + 1..]));
      assert bs[i..][1..] == bs[i + 1..];
      PrintLine(out, Item('b', v));
      out, i := out + ['b', '='] + v + "\n", i + 1;
    }
    PrintedAll(out);
  }

  method PrintNumbers(out0: string, ns: seq<int>) returns (out: string)
    ensures out == out0 + NumbersText(ns)
  {
    hide Dec;
    out := out0;
    var i := 0;
    assert ns[0..] == ns;
    while i < |ns|
      invariant i <= |ns| && out + NumbersText(ns[i..]) == out0 + NumbersText(ns)
    {
      assert ns[i..][1..] == ns[i + 1..];
      assert out + (" " + Dec(ns[i]) + NumbersText(ns[i + 1..])) == out + " " + Dec(ns[i]) + NumbersText(ns[i + 1..]);
      out, i := out + " " + Dec(ns[i]), i + 1;
    }
    assert out + "" == out;
  }

  method PrintRepeats(out0: string, rs: seq<Repeat>) returns (out: string)
    ensures out == out0 + Text(RepeatItems(rs))
  {
    hide LineText, Text, NumbersText, Dec;
    out := out0;
    var j := 0;
    assert rs[0..] == rs;
    while j < |rs|
      invariant j <= |rs| && out + Text(RepeatItems(rs[j..])) == out0 + Text(RepeatItems(rs))
    {
      var r := rs[j];
      PrintedOne(out, Item('r', RepeatText(r)), RepeatItems(rs[j + 1..]));
      assert rs[j..][1..] == rs[j + 1..];
      PrintLine(out, Item('r', RepeatText(r)));
      var line := PrintNumbers(Dec(r.interval) + " " + Dec(r.duration), r.offsets);
      out, j := out + ['r', '='] + line + "\n", j + 1;
    }
    PrintedAll(out);
  }

  method PrintTimes(out0: string, ts: seq<TimeField>) returns (out: string)
    ensures out == out0 + Text(TimeItems(ts))
  {
    hide LineText, Text, RepeatItems, Dec;
    out := out0;
    var i := 0;
    assert ts[0..] == ts;
    while i < |ts|
      invariant i <= |ts| && out + Text(TimeItems(ts[i..])) == out0 + Text(TimeItems(ts))
    {
      var t := ts[i];
      PrintedTime(out, t, ts[i + 1..]);
      assert ts[i..][1..] == ts[i + 1..];
      PrintLine(out, Item('t', TimeText(t)));
      out := out + ['t', '='] + (Dec(t.start) + " " + Dec(t.stop)) + "\n";
      out := PrintRepeats(out, t.repeats);
      i := i + 1;
    }
    PrintedAll(out);
  }

  lemma {:induction false} PrintedTime(out: string, t: TimeField, ts: seq<TimeField>)
    ensures out + LineText(Item('t', TimeText(t))) + Text(RepeatItems(t.repeats)) + Text(TimeItems(ts))
            == out + Text(TimeItems([t] + ts))
  {
    hide LineText, Text, TimeText, RepeatItems;
    var e, rs, es := Item('t', TimeText(t)), RepeatItems(t.repeats), TimeItems(ts);
    assert ([t] + ts)[1..] == ts;
    assert TimeItems([t] + ts) == [e] + (rs + es);
    PrintedOne(out, e, rs + es);
    TextConcat(rs, es);
    assert out + LineText(e) + (Text(rs) + Text(es)) == out + LineText(e) + Text(rs) + Text(es);
  }

  method PrintZones(out0: string, zs: seq<Zone>) returns (out: string)
    ensures out == out0 + Text(ZoneItems(zs))
  {
    hide LineText, Text, Dec;
    out := out0;
    PrintedAll(out);
    if zs != [] {
      var line := "";
      var i := 0;
      assert zs[0..] == zs && "" + ZonesText(zs) == ZonesText(zs);
      while i < |zs|
        invariant i <= |zs| && line + ZonesText(zs[i..]) == ZonesText(zs)
      {
        assert zs[i..][1..] == zs[i + 1..];
        var sep := if i + 1 < |zs| then " " else "";
        ZonesTextStep(line, zs[i], zs[i + 1..]);
        assert zs[i..] == [zs[i]] + zs[i + 1..];
        line, i := line + Dec(zs[i].adjust) + " " + Dec(zs[i].offset) + sep, i + 1;
      }
      assert line + "" == line;
      PrintLine(out, Item('z', ZonesText(zs)));
      TextOne(Item('z', ZonesText(zs)));
      out := out + ['z', '='] + line + "\n";
    }
  }

  lemma {:induction false} ZonesTextStep(line: string, z: Zone, zs: seq<Zone>)
    ensures line + Dec(z.adjust) + " " + Dec(z.offset) + (if |zs| > 0 then " " else "") + ZonesText(zs)
            == line + ZonesText([z] + zs)
  {
    hide Dec;
    assert ([z] + zs)[1..] == zs;
  }

  method PrintMedia(out0: string, m: Media) returns (out: string)
    ensures out == out0 + Text(MediaItems(m))
  {
    hide LineText, Text, NumbersText, Dec, MediaItems, IfAny, ConnItems, BandItems, Each;
    var info := m.info;
    var line := info.kind + " " + Dec(info.port);
    if info.portN != 0 {
      line := line + "/" + Dec(info.portN);
    }
    line := PrintNumbers(line + " " + info.proto, info.fmts);
    InfoLine(info);
    out := out0 + ['m', '='] + line + "\n";
    PrintLine(out0, Item('m', InfoText(info)));
    out := PrintIfAny(out, 'i', m.title);
    out := PrintConn(out, m.conn);
    out := PrintBands(out, m.bw);
    out := PrintIfAny(out, 'k', m.encryptKey);
    out := PrintEach(out, 'a', m.attributes);
    MediaText(out0, m);
  }

  lemma {:induction false} InfoLine(m: Info)
    ensures InfoText(m) == m.kind + " " + Dec(m.port) + (if m.portN != 0 then "/" + Dec(m.portN) else "")
                           + " " + m.proto + NumbersText(m.fmts)
    ensures m.portN == 0 ==> InfoText(m) == m.kind + " " + Dec(m.port) + " " + m.proto + NumbersText(m.fmts)
    ensures m.portN != 0 ==>
      InfoText(m) == m.kind + " " + Dec(m.port) + "/" + Dec(m.portN) + " " + m.proto + NumbersText(m.fmts)
  {
    hide Dec, NumbersText;
    var x := m.kind + " " + Dec(m.port);
    assert x + "" == x;
    assert x + ("/" + Dec(m.portN)) == x + "/" + Dec(m.portN);
  }

  lemma {:induction false} MediaText(out: string, m: Media)
    ensures out + LineText(Item('m', InfoText(m.info))) + Text(IfAny('i', m.title)) + Text(ConnItems(m.conn))
            + Text(BandItems(m.bw)) + Text(IfAny('k', m.encryptKey)) + Text(Each('a', m.attributes))
            == out + Text(MediaItems(m))
  {
    hide LineText, Text, InfoText, IfAny, ConnItems, BandItems, Each;
    var e := Item('m', InfoText(m.info));
    var e0 := [e];
    var e1 := e0 + IfAny('i', m.title);
    var e2 := e1 + ConnItems(m.conn);
    var e3 := e2 + BandItems(m.bw);
    var e4 := e3 + IfAny('k', m.encryptKey);
    TextOne(e);
    Longer(out, e0, IfAny('i', m.title));
    Longer(out, e1, ConnItems(m.conn));
    Longer(out, e2, BandItems(m.bw));
    Longer(out, e3, IfAny('k', m.encryptKey));
    Longer(out, e4, Each('a', m.attributes));
  }

  lemma {:induction false} Longer(out: string, a: seq<Item>, b: seq<Item>)
    ensures out + Text(a) + Text(b) == out + Text(a + b)
  {
    hide LineText, Text;
    TextConcat(a, b);
  }

  method PrintMedias(out0: string, ms: seq<Media>) returns (out: string)
    ensures out == out0 + Text(MediasItems(ms))
  {
    hide Text, MediaItems;
    out := out0;
    var i := 0;
    assert ms[0..] == ms;
    while i < |ms|
      invariant i <= |ms| && out + Text(MediasItems(ms[i..])) == out0 + Text(MediasItems(ms))
    {
      Longer(out, MediaItems(ms[i]), MediasItems(ms[i + 1..]));
      assert ms[i..][1..] == ms[i + 1..];
      out := PrintMedia(out, ms[i]);
      i := i + 1;
    }
    PrintedAll(out);
  }

  lemma {:induction false} Stage(out: string, a: seq<Item>, rest: seq<Item>, goal: string)
    requires out + Text(a + rest) == goal
    ensures out + Text(a) + Text(rest) == goal
  {
    hide Text;
    Longer(out, a, rest);
    TextConcat(a, rest);
  }

  lemma {:induction false} HeadPrinted(d: Payload, v: string)
    requires v == OriginText(d.origin)
    ensures "" + LineText(Item('v', Dec(d.version))) + LineText(Item('o', v)) + LineText(Item('s', d.sessionName))
            + Text(After(d, 0)) == Dump(d)
  {
    hide Text, LineText, Dec, OriginText, After;
    var e0, e1, e2 := Item('v', Dec(d.version)), Item('o', v), Item('s', d.sessionName);
    PrintedOne("" + LineText(e0) + LineText(e1), e2, After(d, 0));
    PrintedOne("" + LineText(e0), e1, [e2] + After(d, 0));
    PrintedOne("", e0, [e1] + ([e2] + After(d, 0)));
  }

  method SdpDump(d: Payload) returns (out: string)
    ensures out == Dump(d)
  {
    hide Text, LineText, Dec, IfAny, Each, ConnItems, BandItems, TimeItems, ZoneItems, MediasItems, Items;
    var o := d.origin;
    var v := o.username + " " + Dec(o.sessId) + " " + Dec(o.sessVersion) + " " + o.nettype + " " + o.addrtype
             + " " + o.addr;
    PrintLine("", Item('v', Dec(d.version)));
    out := "" + ['v', '='] + Dec(d.version) + "\n";
    PrintLine(out, Item('o', v));
    out := out + ['o', '='] + v + "\n";
    PrintLine(out, Item('s', d.sessionName));
    out := out + ['s', '='] + d.sessionName + "\n";
    HeadPrinted(d, v);
    Stage(out, IfAny('i', d.information), After(d, 1), Dump(d));
    out := PrintIfAny(out, 'i', d.information);
    Stage(out, IfAny('u', d.uri), After(d, 2), Dump(d));
    out := PrintIfAny(out, 'u', d.uri);
    Stage(out, Each('e', d.emails), After(d, 3), Dump(d));
    out := PrintEach(out, 'e', d.emails);
    Stage(out, Each('p', d.phones), After(d, 4), Dump(d));
    out := PrintEach(out, 'p', d.phones);
    Stage(out, ConnItems(d.conn), After(d, 5), Dump(d));
    out := PrintConn(out, d.conn);
    Stage(out, BandItems(d.bw), After(d, 6), Dump(d));
    out := PrintBands(out, d.bw);
    Stage(out, TimeItems(d.times), After(d, 7), Dump(d));
    out := PrintTimes(out, d.times);
    Stage(out, ZoneItems(d.zones), After(d, 8), Dump(d));
    out := PrintZones(out, d.zones);
    Stage(out, IfAny('k', d.encryptKey), After(d, 9), Dump(d));
    out := PrintIfAny(out, 'k', d.encryptKey);
    Stage(out, Each('a', d.attributes), After(d, 10), Dump(d));
    out := PrintEach(out, 'a', d.attributes);
    out := PrintMedias(out, d.medias);
  }
}
