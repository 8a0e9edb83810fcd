/** Session descriptions: what sdp_parse makes of a text and what sdp_dump prints, line by line. */
module Sdp {
  import opened Decimal
  import opened SdpText
  import opened SdpTokens
  import opened Options

  datatype Origin = Origin(username: string, sessId: int, sessVersion: int, nettype: string, addrtype: string,
                           addr: string)

  datatype Connection = Connection(nettype: string, addrtype: string, address: string)

  datatype Bandwidth = Bandwidth(bwtype: string, bandwidth: string)

  datatype Repeat = Repeat(interval: int, duration: int, offsets: seq<int>)

  datatype TimeField = TimeField(start: int, stop: int, repeats: seq<Repeat>)

  datatype Zone = Zone(adjust: int, offset: int)

  datatype Info = Info(kind: string, port: int, portN: int, proto: string, fmts: seq<int>)

  datatype Media = Media(info: Info, title: Option<string>, conn: Option<Connection>, bw: seq<Bandwidth>,
                         encryptKey: Option<string>, attributes: seq<string>)

  datatype Payload = Payload(version: int, origin: Origin, sessionName: string, information: Option<string>,
                             uri: Option<string>, emails: seq<string>, phones: seq<string>, conn: Option<Connection>,
                             bw: seq<Bandwidth>, times: seq<TimeField>, zones: seq<Zone>, encryptKey: Option<string>,
                             attributes: seq<string>, medias: seq<Media>)

  /** A null pointer; a text without a line to read a time from, whose value the C code would read
      through a null pointer; or a description. */
  datatype Outcome = Rejected | NullValue | Parsed(d: Payload)

  // ---- Parsing: one function for each macro and loop, on the current line

  function Size(ln: Line): nat {
    if ln.Line? then |ln.rest| + 1 else 0
  }

  function Next(ln: Line): (r: Line)
    requires ln.Line?
    ensures Size(r) < Size(ln)
  {
    NextLine(ln.rest)
  }

  predicate Has(ln: Line, k: char) {
    ln.Line? && ln.key == k
  }

  function Opt(ln: Line, k: char): (r: (Option<string>, Line))
    ensures Size(r.1) <= Size(ln)
  {
    if Has(ln, k) then (Some(ln.value), Next(ln)) else (None, ln)
  }

  function Many(ln: Line, k: char): (r: (seq<string>, Line))
    ensures Size(r.1) <= Size(ln)
    decreases Size(ln)
  {
    if !Has(ln, k) then ([], ln)
    else
      var (ss, l) := Many(Next(ln), k);
      ([ln.value] + ss, l)
  }

  function OriginOf(v: string): Origin {
    var t := Split(v, ' ', [Str, Long, Long, Str, Str, Str]).0;
    Origin(t[0].s, t[1].n, t[2].n, t[3].s, t[4].s, t[5].s)
  }

  function ConnectionOf(v: string): Connection {
    var t := Split(v, ' ', [Str, Str, Str]).0;
    Connection(t[0].s, t[1].s, t[2].s)
  }

  function Conn(ln: Line): (r: (Option<Connection>, Line))
    ensures Size(r.1) <= Size(ln)
  {
    if Has(ln, 'c') then (Some(ConnectionOf(ln.value)), Next(ln)) else (None, ln)
  }

  function BandwidthOf(v: string): Bandwidth {
    var t := Split(v, ':', [Str, Str]).0;
    Bandwidth(t[0].s, t[1].s)
  }

  function Bands(ln: Line): (r: (seq<Bandwidth>, Line))
    ensures Size(r.1) <= Size(ln)
    decreases Size(ln)
  {
    if !Has(ln, 'b') then ([], ln)
    else
      var (bs, l) := Bands(Next(ln));
      ([BandwidthOf(ln.value)] + bs, l)
  }

  /** Numbers of one kind to the end of the value. */
  function Numbers(v: string, c: Conv): seq<int>
    requires !c.Str?
    decreases |v|
  {
    if v == "" then []
    else
      var (t, rest) := Split(v, ' ', [c]);
      SplitShortens(v, ' ', [c]);
      [t[0].n] + Numbers(rest, c)
  }

  function RepeatOf(v: string): Repeat {
    var (t, rest) := Split(v, ' ', [Time, Time]);
    Repeat(t[0].n, t[1].n, Numbers(rest, Time))
  }

  function Repeats(ln: Line): (r: (seq<Repeat>, Line))
    ensures Size(r.1) <= Size(ln)
    decreases Size(ln)
  {
    if !Has(ln, 'r') then ([], ln)
    else
      var (rs, l) := Repeats(Next(ln));
      ([RepeatOf(ln.value)] + rs, l)
  }

  function TimeOf(v: string, repeats: seq<Repeat>): TimeField {
    var t := Split(v, ' ', [Time, Time]).0;
    TimeField(t[0].n, t[1].n, repeats)
  }

  /** The first line is taken as a time whatever its key. */
  function Times(ln: Line): (r: (seq<TimeField>, Line))
    requires ln.Line?
    ensures Size(r.1) < Size(ln) && r.0 != []
    decreases Size(ln)
  {
    var (rs, l) := Repeats(Next(ln));
    var tf := TimeOf(ln.value, rs);
    if !Has(l, 't') then ([tf], l)
    else
      var (ts, l') := Times(l);
      ([tf] + ts, l')
  }

  function ZonesOf(v: string): seq<Zone>
    decreases |v|
  {
    if v == "" then []
    else
      var (t, rest) := Split(v, ' ', [Time, Time]);
      SplitShortens(v, ' ', [Time, Time]);
      [Zone(t[0].n, t[1].n)] + ZonesOf(rest)
  }

  function Zones(ln: Line): (r: (seq<Zone>, Line))
    ensures Size(r.1) <= Size(ln)
  {
    if Has(ln, 'z') then (ZonesOf(ln.value), Next(ln)) else ([], ln)
  }

  /** The port and, behind a slash, how many: strtol leaves the text alone where it finds no digits. */
  function PortOf(s: string): (r: (int, int, string))
    ensures |r.2| <= |s|
  {
    var (v, n) := StrToL(s);
    var t := s[n..];
    if t == "" || t[0] != '/' then (Wrap32(v), 0, t)
    else
      var (w, m) := StrToL(t[1..]);
      (Wrap32(v), Wrap32(w), t[1..][m..])
  }

  function InfoOf(v: string): Info {
    var (kind, s) := Split(v, ' ', [Str]);
    var (port, portN, t) := PortOf(s);
    var (proto, u) := Split(t, ' ', [Str]);
    Info(kind[0].s, port, portN, proto[0].s, Numbers(u, Int))
  }

  function MediaFrom(v: string, ln: Line): (r: (Media, Line))
    ensures Size(r.1) <= Size(ln)
  {
    var (title, l1) := Opt(ln, 'i');
    var (conn, l2) := Conn(l1);
    var (bw, l3) := Bands(l2);
    var (key, l4) := Opt(l3, 'k');
    var (attributes, l5) := Many(l4, 'a');
    (Media(InfoOf(v), title, conn, bw, key, attributes), l5)
  }

  function Medias(ln: Line): seq<Media>
    decreases Size(ln)
  {
    if !Has(ln, 'm') then []
    else
      var (m, l) := MediaFrom(ln.value, Next(ln));
      [m] + Medias(l)
  }

  function Parse(text: string): Outcome {
    var l0 := NextLine(text);
    if !Has(l0, 'v') || l0.value != "0" then Rejected
    else
      var l1 := Next(l0);
      if !Has(l1, 'o') then Rejected
      else
        var l2 := Next(l1);
        if !Has(l2, 's') then Rejected
        else Session(OriginOf(l1.value), l2.value, Next(l2))
  }

  function Session(origin: Origin, name: string, l3: Line): Outcome {
    var (information, l4) := Opt(l3, 'i');
    var (uri, l5) := Opt(l4, 'u');
    var (emails, l6) := Many(l5, 'e');
    var (phones, l7) := Many(l6, 'p');
    var (conn, l8) := Conn(l7);
    var (bw, l9) := Bands(l8);
    if l9.NoLine? then NullValue
    else
      var (times, l10) := Times(l9);
      var (zones, l11) := Zones(l10);
      var (key, l12) := Opt(l11, 'k');
      var (attributes, l13) := Many(l12, 'a');
      Parsed(Payload(0, origin, name, information, uri, emails, phones, conn, bw, times, zones, key, attributes,
                     Medias(l13)))
  }

  // ---- Printing

  /** A printed line. */
  datatype Item = Item(key: char, value: string)

  function LineText(e: Item): string {
    [e.key, '='] + e.value + "\n"
  }

  function Text(es: seq<Item>): string {
    if es == [] then "" else LineText(es[0]) + Text(es[1..])
  }

  function Each(k: char, ss: seq<string>): seq<Item> {
    if ss == [] then [] else [Item(k, ss[0])] + Each(k, ss[1..])
  }

  function IfAny(k: char, o: Option<string>): seq<Item> {
    if o.Some? then [Item(k, o.value)] else []
  }

  function OriginText(o: Origin): string {
    o.username + " " + Dec(o.sessId) + " " + Dec(o.sessVersion) + " " + o.nettype + " " + o.addrtype + " " + o.addr
  }

  function ConnectionText(c: Connection): string {
    c.nettype + " " + c.addrtype + " " + c.address
  }

  function ConnItems(o: Option<Connection>): seq<Item> {
    if o.Some? then [Item('c', ConnectionText(o.value))] else []
  }

  function BandwidthText(b: Bandwidth): string {
    b.bwtype + ":" + b.bandwidth
  }

  function BandItems(bs: seq<Bandwidth>): seq<Item> {
    if bs == [] then [] else [Item('b', BandwidthText(bs[0]))] + BandItems(bs[1..])
  }

  /** Each number behind a space. */
  function NumbersText(ns: seq<int>): string {
    if ns == [] then "" else " " + Dec(ns[0]) + NumbersText(ns[1..])
  }

  function RepeatText(r: Repeat): string {
    Dec(r.interval) + " " + Dec(r.duration) + NumbersText(r.offsets)
  }

  function RepeatItems(rs: seq<Repeat>): seq<Item> {
    if rs == [] then [] else [Item('r', RepeatText(rs[0]))] + RepeatItems(rs[1..])
  }

  function TimeText(t: TimeField): string {
    Dec(t.start) + " " + Dec(t.stop)
  }

  function TimeItems(ts: seq<TimeField>): seq<Item> {
    if ts == [] then [] else [Item('t', TimeText(ts[0]))] + RepeatItems(ts[0].repeats) + TimeItems(ts[1..])
  }

  function ZonesText(zs: seq<Zone>): string {
    if zs == [] then ""
    else Dec(zs[0].adjust) + " " + Dec(zs[0].offset) + if |zs| > 1 then " " + ZonesText(zs[1..]) else ""
  }

  function ZoneItems(zs: seq<Zone>): seq<Item> {
    if zs == [] then [] else [Item('z', ZonesText(zs))]
  }

  function InfoText(m: Info): string {
    m.kind + " " + Dec(m.port) + (if m.portN != 0 then "/" + Dec(m.portN) else "") + " " + m.proto + NumbersText(m.fmts)
  }

  function MediaItems(m: Media): seq<Item> {
    [Item('m', InfoText(m.info))] + IfAny('i', m.title) + ConnItems(m.conn) + BandItems(m.bw) + IfAny('k', m.encryptKey)
    + Each('a', m.attributes)
  }

  function MediasItems(ms: seq<Media>): seq<Item> {
    if ms == [] then [] else MediaItems(ms[0]) + MediasItems(ms[1..])
  }

  /** The lines from each part of a description on. */
  function After(d: Payload, stage: nat): seq<Item>
    requires stage <= 10
    decreases 10 - stage
  {
    match stage
    case 0 => IfAny('i', d.information) + After(d, 1)
    case 1 => IfAny('u', d.uri) + After(d, 2)
    case 2 => Each('e', d.emails) + After(d, 3)
    case 3 => Each('p', d.phones) + After(d, 4)
    case 4 => ConnItems(d.conn) + After(d, 5)
    case 5 => BandItems(d.bw) + After(d, 6)
    case 6 => TimeItems(d.times) + After(d, 7)
    case 7 => ZoneItems(d.zones) + After(d, 8)
    case 8 => IfAny('k', d.encryptKey) + After(d, 9)
    case 9 => Each('a', d.attributes) + After(d, 10)
    case 10 => MediasItems(d.medias)
  }

  function Items(d: Payload): seq<Item> {
    [Item('v', Dec(d.version))] + ([Item('o', OriginText(d.origin))] + ([Item('s', d.sessionName)] + After(d, 0)))
  }

  function Dump(d: Payload): string {
    Text(Items(d))
  }
}
