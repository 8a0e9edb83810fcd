/** Which descriptions survive being printed and parsed again: exactly the well-formed ones. */
module SdpExact {
  import opened Decimal
  import opened SdpText
  import opened SdpTokens
  import opened SdpTokensBack
  import opened Sdp
  import opened SdpRoundTrip
  import opened Options

  // ---- What splitting can give

  lemma {:induction false} OneSuits(s: string, sep: char, c: Conv)
    ensures Suits(One(s, sep, c).0, c, sep)
  {
    hide SkipAll;
  }

  lemma {:induction false} SplitSuits(s: string, sep: char, fmt: seq<Conv>)
    ensures forall i :: 0 <= i < |fmt| ==> Suits(SplitFrom(s, sep, fmt).0[i], fmt[i], sep)
    decreases |fmt|
  {
    hide One, Suits, SkipAll;
    if fmt == [] {
    } else {
      OneSuits(s, sep, fmt[0]);
      SplitSuits(SkipAll(One(s, sep, fmt[0]).1, {sep}), sep, fmt[1..]);
    }
  }

  lemma {:induction false} NoMore(s: string, sep: char, c: Conv)
    requires c.Str? && (s != "" ==> s[0] != sep) && One(s, sep, c).0 == S("")
    ensures s == ""
  {}

  /** Behind an empty string there are only empty strings. */
  lemma {:induction false} EmptyRuns(s: string, sep: char, fmt: seq<Conv>, i: nat)
    requires s != "" ==> s[0] != sep
    requires i + 1 < |fmt| && fmt[i].Str? && fmt[i + 1].Str? && SplitFrom(s, sep, fmt).0[i].s == ""
    ensures SplitFrom(s, sep, fmt).0[i + 1].s == ""
    decreases |fmt|
  {
    hide One, SkipAll;
    var t := SkipAll(One(s, sep, fmt[0]).1, {sep});
    if i == 0 {
      NoMore(s, sep, fmt[0]);
      OneOfNothing(sep);
      SkipNone("", {sep});
    } else {
      EmptyRuns(t, sep, fmt[1..], i - 1);
    }
  }

  lemma {:induction false} OneOfNothing(sep: char)
    ensures One("", sep, Str) == (S(""), "")
  {}

  lemma {:induction false} SplitFits(s: string, sep: char, fmt: seq<Conv>)
    requires forall i :: 0 <= i < |fmt| - 1 && fmt[i].Str? && SplitFrom(SkipAll(s, {sep}), sep, fmt).0[i].s == "" ==>
      fmt[i + 1].Str?
    ensures Fits(Split(s, sep, fmt).0, fmt, sep)
  {
    hide SplitFrom, SkipAll, Suits, Dec;
    var t := SkipAll(s, {sep});
    var toks := SplitFrom(t, sep, fmt).0;
    SplitSuits(t, sep, fmt);
    forall i | 0 <= i < |toks| - 1 && TokenText(toks[i]) == "" ensures TokenText(toks[i + 1]) == "" {
      if toks[i].N? {
        DecStarts(toks[i].n);
      }
      EmptyRuns(t, sep, fmt, i);
    }
  }

  lemma {:induction false} FirstNotEmpty(s: string, sep: char, fmt: seq<Conv>, j: nat)
    requires fmt != [] && fmt[0].Str? && j < |s| && s[j] != sep
    ensures Split(s, sep, fmt).0[0].s != ""
  {
    hide One;
    SomethingLeft(s, sep, j);
    var t := SkipAll(s, {sep});
    if One(t, sep, fmt[0]).0 == S("") {
      NoMore(t, sep, fmt[0]);
    }
  }

  lemma {:induction false} SomethingLeft(s: string, sep: char, j: nat)
    requires j < |s| && s[j] != sep
    ensures SkipAll(s, {sep}) != ""
    decreases |s|
  {
    if s[0] != sep {
    } else {
      SomethingLeft(s[1..], sep, j - 1);
    }
  }

  // ---- What each part of the parser gives

  lemma {:induction false} ConnectionFitting(v: string)
    ensures ConnectionFits(ConnectionOf(v))
  {
    hide SplitFrom, SkipAll, Fits;
    var t := Split(v, ' ', [Str, Str, Str]).0;
    SplitFits(v, ' ', [Str, Str, Str]);
    assert [S(t[0].s), S(t[1].s), S(t[2].s)] == t;
  }

  lemma {:induction false} BandwidthFitting(v: string)
    ensures BandwidthFits(BandwidthOf(v))
  {
    hide SplitFrom, SkipAll, Fits;
    var t := Split(v, ':', [Str, Str]).0;
    SplitFits(v, ':', [Str, Str]);
    assert [S(t[0].s), S(t[1].s)] == t;
  }

  lemma {:induction false} OriginFitting(v: string)
    requires OriginOf(v).username != ""
    ensures OriginFits(OriginOf(v))
  {
    hide SplitFrom, SkipAll, Fits;
    var fmt := [Str, Long, Long, Str, Str, Str];
    var t := Split(v, ' ', fmt).0;
    SplitFits(v, ' ', fmt);
    assert [S(t[0].s), N(t[1].n), N(t[2].n), S(t[3].s), S(t[4].s), S(t[5].s)] == t;
  }

  lemma {:induction false} NumbersSuit(v: string, c: Conv)
    requires !c.Str?
    ensures Suitable(Numbers(v, c), c)
    decreases |v|
  {
    hide SplitFrom, SkipAll, Suits;
    if v == "" {
    } else {
      var (t, rest) := Split(v, ' ', [c]);
      SplitShortens(v, ' ', [c]);
      SplitSuits(SkipAll(v, {' '}), ' ', [c]);
      assert N(t[0].n) == t[0];
      NumbersSuit(rest, c);
    }
  }

  lemma {:induction false} PairFitting(v: string)
    ensures var t := Split(v, ' ', [Time, Time]).0; PairFits(t[0].n, t[1].n)
  {
    hide SplitFrom, SkipAll, Suits;
    var t := Split(v, ' ', [Time, Time]).0;
    SplitSuits(SkipAll(v, {' '}), ' ', [Time, Time]);
    assert N(t[0].n) == t[0] && N(t[1].n) == t[1];
  }

  lemma {:induction false} ZonesFitting(v: string)
    ensures ZonesFit(ZonesOf(v))
    decreases |v|
  {
    hide Split, PairFits;
    if v == "" {
    } else {
      SplitShortens(v, ' ', [Time, Time]);
      PairFitting(v);
      ZonesFitting(Split(v, ' ', [Time, Time]).1);
    }
  }

  lemma {:induction false} BandsFitting(ln: Line)
    ensures forall i :: 0 <= i < |Bands(ln).0| ==> BandwidthFits(Bands(ln).0[i])
    decreases Size(ln)
  {
    hide BandwidthFits, BandwidthOf, NextLine;
    if !Has(ln, 'b') {
    } else {
      BandwidthFitting(ln.value);
      BandsFitting(Next(ln));
    }
  }

  lemma {:induction false} RepeatsFitting(ln: Line)
    ensures forall i :: 0 <= i < |Repeats(ln).0| ==> RepeatFits(Repeats(ln).0[i])
    decreases Size(ln)
  {
    hide NextLine, Split, PairFits, Suitable, Numbers;
    if !Has(ln, 'r') {
    } else {
      PairFitting(ln.value);
      NumbersSuit(Split(ln.value, ' ', [Time, Time]).1, Time);
      RepeatsFitting(Next(ln));
    }
  }

  lemma {:induction false} TimesFitting(ln: Line)
    requires ln.Line?
    ensures forall i :: 0 <= i < |Times(ln).0| ==> TimeFits(Times(ln).0[i])
    decreases Size(ln)
  {
    hide NextLine, Split, PairFits, RepeatFits, Repeats;
    PairFitting(ln.value);
    RepeatsFitting(Next(ln));
    var l := Repeats(Next(ln)).1;
    if !Has(l, 't') {
    } else {
      TimesFitting(l);
    }
  }

  lemma {:induction false} IntsFit(n: int)
    ensures IsInt(Wrap32(n))
  {}

  lemma {:induction false} NoProtoNoFormats(v: string)
    ensures var (t, u) := Split(v, ' ', [Str]); ' ' !in t[0].s && (t[0].s == "" ==> u == "")
  {
    hide One, SkipAll;
    var t := SkipAll(v, {' '});
    OneSuits(t, ' ', Str);
    if One(t, ' ', Str).0 == S("") {
      NoMore(t, ' ', Str);
      OneOfNothing(' ');
      SkipNone("", {' '});
    }
  }

  /** Only the media type can be missing. */
  lemma {:induction false} InfoFitting(v: string)
    requires InfoOf(v).kind != ""
    ensures InfoFits(InfoOf(v))
  {
    hide Split, StrToL, Wrap32, Numbers, Suitable;
    var (kind, s) := Split(v, ' ', [Str]);
    NoProtoNoFormats(v);
    var (port, portN, t) := PortOf(s);
    IntsFit(StrToL(s).0);
    PortIsInt(s);
    NoProtoNoFormats(t);
    var u := Split(t, ' ', [Str]).1;
    NumbersSuit(u, Int);
    NumbersOfNothing();
  }

  lemma {:induction false} PortIsInt(s: string)
    ensures IsInt(PortOf(s).0) && IsInt(PortOf(s).1)
  {
    hide StrToL;
  }

  lemma {:induction false} NumbersOfNothing()
    ensures Numbers("", Int) == []
  {}

  lemma {:induction false} MediasFitting(ln: Line, i: nat)
    requires i < |Medias(ln)| && Medias(ln)[i].info.kind != ""
    ensures MediaFits(Medias(ln)[i])
    decreases i
  {
    hide NextLine, InfoFits, InfoOf, ConnectionFits, ConnectionOf, BandwidthFits, Opt, Bands, Many;
    var (m, l) := MediaFrom(ln.value, Next(ln));
    if i > 0 {
      MediasFitting(l, i - 1);
    } else {
      InfoFitting(ln.value);
      var l1 := Opt(Next(ln), 'i').1;
      ConnFitting(l1);
      BandsFitting(Conn(l1).1);
    }
  }

  lemma {:induction false} ConnFitting(ln: Line)
    ensures Conn(ln).0.Some? ==> ConnectionFits(Conn(ln).0.value)
  {
    hide ConnectionFits, ConnectionOf, NextLine;
    if Has(ln, 'c') {
      ConnectionFitting(ln.value);
    }
  }

  ghost predicate Named(d: Payload) {
    d.origin.username != "" && forall i :: 0 <= i < |d.medias| ==> d.medias[i].info.kind != ""
  }

  /** Of everything the parser gives, only a missing user name or media type does not fit. */
  lemma {:induction false} ParsedFits(t: string)
    requires Parse(t).Parsed? && Named(Parse(t).d)
    ensures PartsFit(Parse(t).d)
  {
    hide NextLine, SessionFits, MediaFits, OriginOf, OriginFits, Session;
    var l1 := Next(NextLine(t));
    var l2 := Next(l1);
    SessionFitting(OriginOf(l1.value), l2.value, Next(l2));
    OriginKept(OriginOf(l1.value), l2.value, Next(l2));
    OriginFitting(l1.value);
    SessionParts(Parse(t).d);
  }

  lemma {:induction false} OriginKept(origin: Origin, name: string, l3: Line)
    requires Session(origin, name, l3).Parsed?
    ensures Session(origin, name, l3).d.origin == origin
  {
    hide Opt, Many, Conn, Bands, Times, Zones, Medias;
  }

  /** Everything behind the origin. */
  ghost predicate RestFits(d: Payload) {
    && d.version == 0
    && (d.conn.Some? ==> ConnectionFits(d.conn.value))
    && (forall i :: 0 <= i < |d.bw| ==> BandwidthFits(d.bw[i]))
    && d.times != [] && (forall i :: 0 <= i < |d.times| ==> TimeFits(d.times[i]))
    && ZonesFit(d.zones)
    && (forall i :: 0 <= i < |d.medias| && d.medias[i].info.kind != "" ==> MediaFits(d.medias[i]))
  }

  lemma {:induction false} SessionParts(d: Payload)
    requires RestFits(d) && OriginFits(d.origin) && Named(d)
    ensures PartsFit(d)
  {
    hide OriginFits, ConnectionFits, BandwidthFits, TimeFits, ZonesFit, MediaFits;
  }

  lemma {:induction false} SessionFitting(origin: Origin, name: string, l3: Line)
    requires Session(origin, name, l3).Parsed?
    ensures RestFits(Session(origin, name, l3).d)
  {
    hide NextLine, Opt, Many, Conn, Bands, Times, Medias, ConnectionFits, BandwidthFits, TimeFits, ZonesFit, ZonesOf,
      MediaFits;
    var l7 := Many(Many(Opt(Opt(l3, 'i').1, 'u').1, 'e').1, 'p').1;
    ConnFitting(l7);
    var l8 := Conn(l7).1;
    BandsFitting(l8);
    var l9 := Bands(l8).1;
    TimesFitting(l9);
    var l10 := Times(l9).1;
    ZonesLineFitting(l10);
    var l13 := Many(Opt(Zones(l10).1, 'k').1, 'a').1;
    forall i | 0 <= i < |Medias(l13)| && Medias(l13)[i].info.kind != "" ensures MediaFits(Medias(l13)[i]) {
      MediasFitting(l13, i);
    }
  }

  lemma {:induction false} ZonesLineFitting(ln: Line)
    ensures ZonesFit(Zones(ln).0)
  {
    hide ZonesFit, ZonesOf, NextLine;
    if Has(ln, 'z') {
      ZonesFitting(ln.value);
    } else {
      NoZonesFit();
    }
  }

  lemma {:induction false} NoZonesFit()
    ensures ZonesFit([])
  {}

  // ---- Line feeds and carriage returns that do not get into a part

  ghost predicate NoCrLf(t: string) {
    forall i: nat :: !CrLfAt(t, i)
  }

  type Newline = c: char | c in NEWLINES witness '\n'

  /** A text that keeps this newline character out of every part: no line feed gets into one when no
      carriage return stands in front of any, and no carriage return when there is none. */
  ghost predicate Free(t: string, x: Newline) {
    NoCrLf(t) && (x == '\r' ==> '\r' !in t)
  }

  ghost predicate Clean(ln: Line, x: Newline) {
    ln.Line? ==> x !in ln.value && Free(ln.rest, x)
  }

  /** Items that print none of their own. */
  ghost predicate Tidy(es: seq<Item>, x: Newline) {
    forall i :: 0 <= i < |es| ==> x !in es[i].value && es[i].key !in NEWLINES
  }

  lemma {:induction false} TidyBoth(a: seq<Item>, b: seq<Item>, x: Newline)
    requires Tidy(a, x) && Tidy(b, x)
    ensures Tidy(a + b, x)
  {}

  lemma {:induction false} TidyOne(k: char, v: string, x: Newline)
    requires x !in v && k !in NEWLINES
    ensures Tidy([Item(k, v)], x)
  {}

  lemma {:induction false} SkipsToSuffix(t: string, cs: set<char>)
    ensures SkipAll(t, cs) == t[|t| - |SkipAll(t, cs)|..]
  {
    if t == "" || t[0] !in cs {
    } else {
      SkipsToSuffix(t[1..], cs);
    }
  }

  lemma {:induction false} SuffixFree(t: string, k: nat, x: Newline)
    requires Free(t, x) && k <= |t|
    ensures Free(t[k..], x)
  {
    forall i: nat ensures !CrLfAt(t[k..], i) {
      assert !CrLfAt(t, i + k);
    }
  }

  lemma {:induction false} BetweenClean(t: string, a: nat, e: nat, x: Newline)
    requires a <= e <= |t| && x !in t[..e]
    ensures x !in t[a..e]
  {
    assert t[a..e] == t[..e][a..];
  }

  lemma {:induction false} RestClean(t: string, e: nat, x: Newline)
    requires Free(t, x) && e <= |t|
    ensures Free(SkipAll(t[e..], NEWLINES), x)
  {
    hide Free, SkipAll;
    SuffixFree(t, e, x);
    SkipsToSuffix(t[e..], NEWLINES);
    SuffixFree(t[e..], |t[e..]| - |SkipAll(t[e..], NEWLINES)|, x);
  }

  lemma {:induction false} LineClean(t: string, x: Newline)
    requires Free(t, x)
    ensures Clean(NextLine(t), x)
  {
    hide NoCrLf, SkipAll, FirstCrLf, IndexOf;
    CrLfNowhere(t);
    var e := IndexOf(t, '\n');
    RestClean(t, e, x);
    if 2 <= e {
      assert x !in t[..e];
      BetweenClean(t, 2, e, x);
    }
  }

  lemma {:induction false} CrLfNowhere(t: string)
    requires NoCrLf(t)
    ensures FirstCrLf(t) == |t|
  {}

  lemma {:induction false} NextClean(ln: Line, x: Newline)
    requires Clean(ln, x) && ln.Line?
    ensures Clean(Next(ln), x) && x !in ln.value
  {
    hide Free, NextLine;
    LineClean(ln.rest, x);
  }

  lemma {:induction false} OptClean(ln: Line, k: char, x: Newline)
    requires Clean(ln, x) && k !in NEWLINES
    ensures Clean(Opt(ln, k).1, x) && Tidy(IfAny(k, Opt(ln, k).0), x)
  {
    hide Clean, NextLine;
    if Has(ln, k) {
      NextClean(ln, x);
    }
  }

  lemma {:induction false} ManyClean(ln: Line, k: char, x: Newline)
    requires Clean(ln, x) && k !in NEWLINES
    ensures Clean(Many(ln, k).1, x) && Tidy(Each(k, Many(ln, k).0), x)
    decreases Size(ln)
  {
    hide Clean, NextLine, Tidy;
    if Has(ln, k) {
      NextClean(ln, x);
      ManyClean(Next(ln), k, x);
      var ss := Many(Next(ln), k).0;
      assert Many(ln, k).0[1..] == ss;
      TidyOne(k, ln.value, x);
      TidyBoth([Item(k, ln.value)], Each(k, ss), x);
    } else {
      TidyNothing(x);
    }
  }

  lemma {:induction false} TidyNothing(x: Newline)
    ensures Tidy([], x)
  {}

  lemma {:induction false} OneClean(s: string, sep: char, c: Conv, x: Newline)
    requires x !in s
    ensures x !in One(s, sep, c).1 && (c.Str? ==> x !in One(s, sep, c).0.s)
  {
    hide IndexOf, SkipAll, StrToL;
    if c.Str? {
      SkipsToSuffix(s[IndexOf(s, sep)..], {sep});
    }
  }

  lemma {:induction false} SkipClean(s: string, cs: set<char>, x: Newline)
    requires x !in s
    ensures x !in SkipAll(s, cs)
  {
    hide SkipAll;
    SkipsToSuffix(s, cs);
  }

  lemma {:induction false} SplitClean(s: string, sep: char, fmt: seq<Conv>, x: Newline)
    requires x !in s
    ensures x !in Split(s, sep, fmt).1
    ensures forall i :: 0 <= i < |fmt| && fmt[i].Str? ==> x !in Split(s, sep, fmt).0[i].s
  {
    hide SplitFrom, SkipAll;
    SkipClean(s, {sep}, x);
    SplitFromClean(SkipAll(s, {sep}), sep, fmt, x);
  }

  lemma {:induction false} SplitFromClean(s: string, sep: char, fmt: seq<Conv>, x: Newline)
    requires x !in s
    ensures x !in SplitFrom(s, sep, fmt).1
    ensures forall i :: 0 <= i < |fmt| && fmt[i].Str? ==> x !in SplitFrom(s, sep, fmt).0[i].s
    decreases |fmt|
  {
    hide One, SkipAll;
    if fmt == [] {
    } else {
      OneClean(s, sep, fmt[0], x);
      SkipClean(One(s, sep, fmt[0]).1, {sep}, x);
      SplitFromClean(SkipAll(One(s, sep, fmt[0]).1, {sep}), sep, fmt[1..], x);
    }
  }

  lemma {:induction false} DecClean(n: int, x: Newline)
    ensures x !in Dec(n)
  {
    hide Dec;
    DecStarts(n);
  }

  lemma {:induction false} NumbersClean(ns: seq<int>, x: Newline)
    ensures x !in NumbersText(ns)
  {
    hide Dec;
    if ns == [] {
    } else {
      DecClean(ns[0], x);
      NumbersClean(ns[1..], x);
    }
  }

  lemma {:induction false} ConnClean(ln: Line, x: Newline)
    requires Clean(ln, x)
    ensures Clean(Conn(ln).1, x) && Tidy(ConnItems(Conn(ln).0), x)
  {
    hide Clean, NextLine, Split;
    if Has(ln, 'c') {
      NextClean(ln, x);
      SplitClean(ln.value, ' ', [Str, Str, Str], x);
    }
  }

  lemma {:induction false} BandsClean(ln: Line, x: Newline)
    requires Clean(ln, x)
    ensures Clean(Bands(ln).1, x) && Tidy(BandItems(Bands(ln).0), x)
    decreases Size(ln)
  {
    hide Clean, NextLine, Split, Tidy;
    if Has(ln, 'b') {
      NextClean(ln, x);
      BandsClean(Next(ln), x);
      SplitClean(ln.value, ':', [Str, Str], x);
      var b, bs := BandwidthOf(ln.value), Bands(Next(ln)).0;
      assert Bands(ln).0[1..] == bs;
      TidyOne('b', BandwidthText(b), x);
      TidyBoth([Item('b', BandwidthText(b))], BandItems(bs), x);
    } else {
      TidyNothing(x);
    }
  }

  lemma {:induction false} RepeatItemsTidy(rs: seq<Repeat>, x: Newline)
    ensures Tidy(RepeatItems(rs), x)
  {
    hide Dec, NumbersText;
    if rs == [] {
    } else {
      DecClean(rs[0].interval, x);
      DecClean(rs[0].duration, x);
      NumbersClean(rs[0].offsets, x);
      RepeatItemsTidy(rs[1..], x);
    }
  }

  lemma {:induction false} TimeItemsTidy(ts: seq<TimeField>, x: Newline)
    ensures Tidy(TimeItems(ts), x)
  {
    hide Dec, RepeatItems, Tidy;
    if ts == [] {
      TidyNothing(x);
    } else {
      DecClean(ts[0].start, x);
      DecClean(ts[0].stop, x);
      TidyOne('t', TimeText(ts[0]), x);
      RepeatItemsTidy(ts[0].repeats, x);
      TimeItemsTidy(ts[1..], x);
      TidyBoth([Item('t', TimeText(ts[0]))], RepeatItems(ts[0].repeats), x);
      TidyBoth([Item('t', TimeText(ts[0]))] + RepeatItems(ts[0].repeats), TimeItems(ts[1..]), x);
    }
  }

  lemma {:induction false} ZonesClean(zs: seq<Zone>, x: Newline)
    ensures x !in ZonesText(zs)
  {
    hide Dec;
    if zs == [] {
    } else {
      DecClean(zs[0].adjust, x);
      DecClean(zs[0].offset, x);
      ZonesClean(zs[1..], x);
    }
  }

  lemma {:induction false} ZoneItemsTidy(zs: seq<Zone>, x: Newline)
    ensures Tidy(ZoneItems(zs), x)
  {
    hide ZonesText;
    ZonesClean(zs, x);
  }

  lemma {:induction false} RepeatsClean(ln: Line, x: Newline)
    requires Clean(ln, x)
    ensures Clean(Repeats(ln).1, x)
    decreases Size(ln)
  {
    hide Clean, NextLine, RepeatOf;
    if !Has(ln, 'r') {
    } else {
      NextClean(ln, x);
      RepeatsClean(Next(ln), x);
    }
  }

  lemma {:induction false} TimesClean(ln: Line, x: Newline)
    requires Clean(ln, x) && ln.Line?
    ensures Clean(Times(ln).1, x)
    decreases Size(ln)
  {
    hide Clean, NextLine, Repeats, TimeOf;
    NextClean(ln, x);
    RepeatsClean(Next(ln), x);
    var l := Repeats(Next(ln)).1;
    if !Has(l, 't') {
    } else {
      TimesClean(l, x);
    }
  }

  lemma {:induction false} InfoClean(v: string, x: Newline)
    requires x !in v
    ensures x !in InfoText(InfoOf(v))
  {
    hide Split, StrToL, Wrap32, Numbers, NumbersText, Dec;
    SplitClean(v, ' ', [Str], x);
    var s := Split(v, ' ', [Str]).1;
    var t := PortOf(s).2;
    SplitClean(t, ' ', [Str], x);
    var m := InfoOf(v);
    DecClean(m.port, x);
    DecClean(m.portN, x);
    NumbersClean(m.fmts, x);
  }

  lemma {:induction false} MediaClean(ln: Line, x: Newline)
    requires Clean(ln, x) && Has(ln, 'm')
    ensures var r := MediaFrom(ln.value, Next(ln)); Clean(r.1, x) && Tidy(MediaItems(r.0), x)
  {
    hide Clean, Tidy, NextLine, InfoOf, InfoText, Opt, Conn, Bands, Many, IfAny, ConnItems, BandItems, Each;
    NextClean(ln, x);
    InfoClean(ln.value, x);
    var e := [Item('m', InfoText(InfoOf(ln.value)))];
    TidyOne('m', InfoText(InfoOf(ln.value)), x);
    var (title, l1) := Opt(Next(ln), 'i');
    OptClean(Next(ln), 'i', x);
    var (conn, l2) := Conn(l1);
    ConnClean(l1, x);
    var (bw, l3) := Bands(l2);
    BandsClean(l2, x);
    var (key, l4) := Opt(l3, 'k');
    OptClean(l3, 'k', x);
    ManyClean(l4, 'a', x);
    TidyBoth(e, IfAny('i', title), x);
    TidyBoth(e + IfAny('i', title), ConnItems(conn), x);
    TidyBoth(e + IfAny('i', title) + ConnItems(conn), BandItems(bw), x);
    TidyBoth(e + IfAny('i', title) + ConnItems(conn) + BandItems(bw), IfAny('k', key), x);
    TidyBoth(e + IfAny('i', title) + ConnItems(conn) + BandItems(bw) + IfAny('k', key), Each('a', Many(l4, 'a').0), x);
  }

  lemma {:induction false} MediasClean(ln: Line, x: Newline)
    requires Clean(ln, x)
    ensures Tidy(MediasItems(Medias(ln)), x)
    decreases Size(ln)
  {
    hide Clean, Tidy, NextLine, MediaFrom, MediaItems;
    if Has(ln, 'm') {
      MediaClean(ln, x);
      var (m, l) := MediaFrom(ln.value, Next(ln));
      MediasClean(l, x);
      assert Medias(ln)[1..] == Medias(l);
      TidyBoth(MediaItems(m), MediasItems(Medias(l)), x);
    } else {
      TidyNothing(x);
    }
  }

  lemma {:induction false} LateTidy(d: Payload, l9: Line, x: Newline)
    requires Clean(l9, x) && l9.Line?
    requires var l12 := Opt(Zones(Times(l9).1).1, 'k');
      d.encryptKey == l12.0 && d.attributes == Many(l12.1, 'a').0 && d.medias == Medias(Many(l12.1, 'a').1)
    ensures Tidy(After(d, 6), x)
  {
    hide Clean, Tidy, NextLine, Times, Zones, Opt, Many, Medias, TimeItems, ZoneItems, IfAny, Each, MediasItems;
    TimesClean(l9, x);
    var l10 := Times(l9).1;
    ZonesLineClean(l10, x);
    var l11 := Zones(l10).1;
    OptClean(l11, 'k', x);
    var l12 := Opt(l11, 'k').1;
    ManyClean(l12, 'a', x);
    MediasClean(Many(l12, 'a').1, x);
    TimeItemsTidy(d.times, x);
    ZoneItemsTidy(d.zones, x);
    TidyBoth(Each('a', d.attributes), After(d, 10), x);
    TidyBoth(IfAny('k', d.encryptKey), After(d, 9), x);
    TidyBoth(ZoneItems(d.zones), After(d, 8), x);
    TidyBoth(TimeItems(d.times), After(d, 7), x);
  }

  lemma {:induction false} ZonesLineClean(ln: Line, x: Newline)
    requires Clean(ln, x)
    ensures Clean(Zones(ln).1, x)
  {
    hide Clean, NextLine, ZonesOf;
    if Has(ln, 'z') {
      NextClean(ln, x);
    }
  }

  lemma {:induction false} SessionTidy(origin: Origin, name: string, l3: Line, x: Newline)
    requires Clean(l3, x) && Session(origin, name, l3).Parsed?
    ensures Tidy(After(Session(origin, name, l3).d, 0), x)
  {
    hide Clean, Tidy, NextLine, Times, Zones, Opt, Conn, Bands, Many, Medias, ConnItems, BandItems, IfAny, Each;
    var d := Session(origin, name, l3).d;
    OptClean(l3, 'i', x);
    var l4 := Opt(l3, 'i').1;
    OptClean(l4, 'u', x);
    var l5 := Opt(l4, 'u').1;
    ManyClean(l5, 'e', x);
    var l6 := Many(l5, 'e').1;
    ManyClean(l6, 'p', x);
    var l7 := Many(l6, 'p').1;
    ConnClean(l7, x);
    var l8 := Conn(l7).1;
    BandsClean(l8, x);
    LateTidy(d, Bands(l8).1, x);
    EarlyTidy(d, x);
  }

  lemma {:induction false} EarlyTidy(d: Payload, x: Newline)
    requires Tidy(After(d, 6), x) && Tidy(BandItems(d.bw), x) && Tidy(ConnItems(d.conn), x)
    requires Tidy(Each('p', d.phones), x)
    requires Tidy(Each('e', d.emails), x) && Tidy(IfAny('u', d.uri), x) && Tidy(IfAny('i', d.information), x)
    ensures Tidy(After(d, 0), x)
  {
    hide Tidy, ConnItems, BandItems, IfAny, Each;
    TidyBoth(BandItems(d.bw), After(d, 6), x);
    TidyBoth(ConnItems(d.conn), After(d, 5), x);
    TidyBoth(Each('p', d.phones), After(d, 4), x);
    TidyBoth(Each('e', d.emails), After(d, 3), x);
    TidyBoth(IfAny('u', d.uri), After(d, 2), x);
    TidyBoth(IfAny('i', d.information), After(d, 1), x);
  }

  // ---- The other direction

  lemma {:induction false} DumpStarts(d: Payload)
    ensures |Dump(d)| > 2 + |Dec(d.version)| && Dump(d)[..2] == "v="
    ensures Dump(d)[2..2 + |Dec(d.version)|] == Dec(d.version) && Dump(d)[2 + |Dec(d.version)|] == '\n'
  {
    hide Dec, After, OriginText;
    var e := Item('v', Dec(d.version));
    var rest := [Item('o', OriginText(d.origin))] + ([Item('s', d.sessionName)] + After(d, 0));
    assert ([e] + rest)[1..] == rest;
    assert Dump(d) == LineText(e) + Text(rest);
  }

  /** A carriage return and line feed anywhere would end the first line there, not behind the version. */
  lemma {:induction false} CrLfRejected(d: Payload, i: nat)
    requires CrLfAt(Dump(d), i)
    ensures Parse(Dump(d)) == Rejected
  {
    hide Dec, SkipAll, Dump, Session;
    DumpStarts(d);
    DecStarts(d.version);
    var t, n := Dump(d), FirstCrLf(Dump(d));
    assert n < |t| by {
      assert n == |t| ==> !CrLfAt(t, i);
    }
    if Has(NextLine(t), 'v') && NextLine(t).value == "0" {
      assert t[2..n] == "0";
      assert t[n] == '\r' && n == 3;
      VersionEnds(t, Dec(d.version));
    }
  }

  lemma {:induction false} VersionEnds(t: string, v: string)
    requires |t| > 2 + |v| && t[2..2 + |v|] == v && t[2 + |v|] == '\n' && v != ""
    requires forall i :: 0 <= i < |v| ==> IsDigit(v[i]) || v[i] == '-'
    ensures t[3] != '\r'
  {
    assert |v| > 1 ==> t[3] == v[1];
  }

  /** What comes out of a text prints no newline character of its own that the text keeps out. */
  lemma {:induction false} ParsedTidy(t: string, x: Newline)
    requires Free(t, x) && Parse(t).Parsed?
    ensures Tidy(Items(Parse(t).d), x)
  {
    hide Tidy, Clean, Free, NextLine, Session, After, Dec, OriginText, OriginOf;
    var d := Parse(t).d;
    LineClean(t, x);
    var l0 := NextLine(t);
    NextClean(l0, x);
    var l1 := Next(l0);
    NextClean(l1, x);
    var l2 := Next(l1);
    NextClean(l2, x);
    SessionTidy(OriginOf(l1.value), l2.value, Next(l2), x);
    OriginKept(OriginOf(l1.value), l2.value, Next(l2));
    NameKept(OriginOf(l1.value), l2.value, Next(l2));
    OriginClean(l1.value, x);
    DecClean(d.version, x);
    TidyOne('v', Dec(d.version), x);
    TidyOne('o', OriginText(d.origin), x);
    TidyOne('s', d.sessionName, x);
    TidyBoth([Item('s', d.sessionName)], After(d, 0), x);
    TidyBoth([Item('o', OriginText(d.origin))], [Item('s', d.sessionName)] + After(d, 0), x);
    TidyBoth([Item('v', Dec(d.version))],
             [Item('o', OriginText(d.origin))] + ([Item('s', d.sessionName)] + After(d, 0)), x);
  }

  lemma {:induction false} NameKept(origin: Origin, name: string, l3: Line)
    requires Session(origin, name, l3).Parsed?
    ensures Session(origin, name, l3).d.sessionName == name
  {
    hide Opt, Many, Conn, Bands, Times, Zones, Medias;
  }

  lemma {:induction false} OriginClean(v: string, x: Newline)
    requires x !in v
    ensures x !in OriginText(OriginOf(v))
  {
    hide Split, Dec;
    SplitClean(v, ' ', [Str, Long, Long, Str, Str, Str], x);
    DecClean(OriginOf(v).sessId, x);
    DecClean(OriginOf(v).sessVersion, x);
  }

  /** A value that ends in a carriage return makes one with the line feed behind it. */
  lemma {:induction false} CrBeforeLf(es: seq<Item>, i: nat) returns (j: nat)
    requires i < |es| && es[i].value != "" && es[i].value[|es[i].value| - 1] == '\r'
    ensures CrLfAt(Text(es), j)
  {
    var l := LineText(es[0]);
    if i == 0 {
      j := |l| - 2;
    } else {
      var k := CrBeforeLf(es[1..], i - 1);
      j := |l| + k;
      assert Text(es)[j] == Text(es[1..])[k] && Text(es)[j + 1] == Text(es[1..])[k + 1];
    }
  }

  lemma {:induction false} DumpPrintable(d: Payload)
    requires NoCrLf(Dump(d)) && Tidy(Items(d), '\n')
    ensures Printable(Items(d))
  {
    hide Items;
    var es := Items(d);
    forall i | 0 <= i < |es| ensures OnOneLine(es[i].value) {
      if es[i].value != "" && es[i].value[|es[i].value| - 1] == '\r' {
        var j := CrBeforeLf(es, i);
        assert false;
      }
    }
  }

  lemma {:induction false} OriginNamed(o: Origin)
    ensures OriginOf(OriginText(o)).username != ""
  {
    hide Split, Dec;
    var fmt := [Str, Long, Long, Str, Str, Str];
    var v, j := OriginText(o), |o.username| + 1;
    DecStarts(o.sessId);
    assert v[j] == Dec(o.sessId)[0];
    FirstNotEmpty(v, ' ', fmt, j);
  }

  lemma {:induction false} InfoNamed(m: Info)
    ensures InfoOf(InfoText(m)).kind != ""
  {
    hide Split, Dec, PortOf, Numbers, NumbersText;
    var v, j := InfoText(m), |m.kind| + 1;
    DecStarts(m.port);
    assert v[j] == Dec(m.port)[0];
    FirstNotEmpty(v, ' ', [Str], j);
  }

  /** A media list that comes back has no empty type: the port would be taken for it. */
  lemma {:induction false} MediasNamed(ms: seq<Media>, i: nat)
    requires Printable(MediasItems(ms)) && Medias(Start(MediasItems(ms))) == ms && i < |ms|
    ensures ms[i].info.kind != ""
    decreases i
  {
    hide OnOneLine, Printable, NextLine, Text, InfoOf, InfoText, MediaFits, Dec;
    var more := MediasItems(ms[1..]);
    var m := ms[0];
    var es := MediasItems(ms);
    FirstMedia(ms);
    var ln := Start(es);
    InfoNamed(m.info);
    assert InfoOf(ln.value) == m.info;
    if i == 0 {
    } else {
      MediasFitting(ln, 0);
      MediasHead(ms[1..]);
      MediaBack(m, more);
      assert Medias(ln)[1..] == Medias(Start(more));
      MediasNamed(ms[1..], i - 1);
    }
  }

  lemma {:induction false} FirstMedia(ms: seq<Media>)
    requires Printable(MediasItems(ms)) && ms != []
    ensures var ln := Start(MediasItems(ms)); Has(ln, 'm') && ln.value == InfoText(ms[0].info)
  {
    hide OnOneLine, NextLine, Text, InfoText, Printable, IfAny, ConnItems, BandItems, Each;
    StartIs(MediasItems(ms));
  }

  lemma {:induction false} AllNamed(d: Payload)
    requires Printable(Items(d)) && Parse(Dump(d)) == Parsed(d)
    ensures Named(d)
  {
    hide OnOneLine, Printable, NextLine, Session, After, Dec, OriginText, Dump, OriginOf, Start, Medias, MediasItems,
      Items, OriginFits, ConnectionFits, BandwidthFits, TimeFits, ZonesFit, MediaFits;
    var t := Dump(d);
    HeadLines(d);
    var l2 := Next(Next(NextLine(t)));
    OriginKept(OriginOf(OriginText(d.origin)), l2.value, Next(l2));
    OriginNamed(d.origin);
    SessionFitting(d.origin, l2.value, Next(l2));
    OriginFitting(OriginText(d.origin));
    ParseDump(d);
    MediasPrinted(d);
    forall i | 0 <= i < |d.medias| ensures d.medias[i].info.kind != "" {
      MediasNamed(d.medias, i);
    }
  }

  /** Printing and parsing gives a description back exactly when it is well formed. */
  lemma {:induction false} RoundTripExactly(d: Payload)
    ensures Parse(Dump(d)) == Parsed(d) <==> WellFormed(d)
  {
    hide Parse, Dump, Items, Printable, PartsFit, Tidy, Named;
    if WellFormed(d) {
      RoundTrip(d);
    }
    if Parse(Dump(d)) == Parsed(d) {
      forall i: nat ensures !CrLfAt(Dump(d), i) {
        if CrLfAt(Dump(d), i) {
          CrLfRejected(d, i);
        }
      }
      ParsedTidy(Dump(d), '\n');
      DumpPrintable(d);
      AllNamed(d);
      ParsedFits(Dump(d));
    }
  }

  lemma {:induction false} NoReturnNoPair(t: string)
    requires '\r' !in t
    ensures Free(t, '\n') && Free(t, '\r')
  {}

  lemma {:induction false} TidyPrintable(es: seq<Item>)
    requires Tidy(es, '\n') && Tidy(es, '\r')
    ensures Printable(es)
  {}

  /** Parsing what was printed of a parsed text: nothing changes exactly when the user name and every
      media type are there. */
  lemma {:induction false} ReparsedExactly(t: string)
    requires '\r' !in t && Parse(t).Parsed?
    ensures Parse(Dump(Parse(t).d)) == Parse(t) <==> Named(Parse(t).d)
  {
    hide Parse, Dump, Items, Printable, PartsFit, Tidy, Named, Free;
    var d := Parse(t).d;
    NoReturnNoPair(t);
    ParsedTidy(t, '\n');
    ParsedTidy(t, '\r');
    TidyPrintable(Items(d));
    RoundTripExactly(d);
    if Named(d) {
      ParsedFits(t);
    }
    if Parse(Dump(d)) == Parse(t) {
      AllNamed(d);
    }
  }

  /** The comment in the source asks for a time line, but the key of the first one is never looked at. */
  lemma {:induction false} FirstTimeKeyUnchecked(origin: Origin, name: string, k: char, v: string, rest: string)
    requires k !in ['i', 'u', 'e', 'p', 'c', 'b']
    ensures Session(origin, name, Line(k, v, rest)) == Session(origin, name, Line('t', v, rest))
    ensures Session(origin, name, Line(k, v, rest)).Parsed?
  {
    hide NextLine, Repeats, Zones, Medias, TimeOf;
    SkippedToTimes(origin, name, Line(k, v, rest));
    SkippedToTimes(origin, name, Line('t', v, rest));
    assert Times(Line(k, v, rest)) == Times(Line('t', v, rest));
  }

  lemma {:induction false} SkippedToTimes(origin: Origin, name: string, ln: Line)
    requires ln.Line? && ln.key !in ['i', 'u', 'e', 'p', 'c', 'b']
    ensures var (times, l10) := Times(ln);
      var (zones, l11) := Zones(l10);
      var (key, l12) := Opt(l11, 'k');
      var (attributes, l13) := Many(l12, 'a');
      Session(origin, name, ln)
        == Parsed(Payload(0, origin, name, None, None, [], [], None, [], times, zones, key, attributes, Medias(l13)))
  {
    hide NextLine, Times, Zones, Medias;
    assert !Has(ln, 'i') && !Has(ln, 'u') && !Has(ln, 'e') && !Has(ln, 'p') && !Has(ln, 'c') && !Has(ln, 'b');
    assert Many(ln, 'e') == ([], ln) && Many(ln, 'p') == ([], ln) && Bands(ln) == ([], ln);
  }
}
