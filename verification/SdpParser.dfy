/** sdp_parse, on its own copy of the text, cut up in place. */
module SdpParser {
  import opened Decimal
  import opened SdpText
  import opened SdpTokens
  import opened Sdp
  import opened Options

  /** The rest of the text still stands at next, whatever became of the current value. */
  ghost predicate Pending(s: string, cur: Cursor, ln: Line) {
    ln.Line? && cur.Entry? && Terminated(s) && cur.next < |s| && CStr(s, cur.next) == ln.rest
  }

  lemma {:induction false} ShownIsPending(s: string, cur: Cursor, ln: Line)
    requires Shows(s, cur, ln)
    ensures Terminated(s) && (cur.Entry? <==> ln.Line?)
    ensures cur.Entry? ==> cur.key == ln.key && cur.value < |s| && CStr(s, cur.value) == ln.value && Pending(s, cur, ln)
  {
    hide CStr;
  }

  /** Cutting up the value leaves the rest of the text, and the strings that end before the cursor. */
  lemma {:induction false} StillPending(s: string, u: string, cur: Cursor, ln: Line, q: nat, at: seq<nat>,
                                        ts: seq<string>)
    requires Shows(s, cur, ln) && cur.Entry? && Within(s, u, cur.value, q) && Pins(u, at, ts, q)
    ensures Pending(u, cur, ln) && Pins(u, at, ts, cur.next)
  {
    hide CStr, Pins;
    var t := ln.rest;
    CStrEnds(s, cur.next);
    forall k | 0 <= k < |t| ensures u[cur.next + k] == t[k] {
      CStrAt(s, cur.next, k);
    }
    CStrIs(u, cur.next, t);
    PinsLater(u, at, ts, q, cur.next);
  }

  /** How far the strings taken so far may reach: to the current value, or to the end. */
  function Bound(cur: Cursor, size: nat): nat {
    if cur.Entry? then cur.value else size
  }

  /** The strings that the pointers at lead to, while the parser stands at cur. */
  ghost predicate Kept(s: string, cur: Cursor, at: seq<nat>, ts: seq<string>) {
    Pins(s, at, ts, Bound(cur, |s|))
  }

  /** The whole value becomes a string of its own. */
  lemma {:induction false} WholeValue(s: string, cur: Cursor, ln: Line, at: seq<nat>, ts: seq<string>)
    requires Shows(s, cur, ln) && cur.Entry? && Kept(s, cur, at, ts)
    ensures Pins(s, at + [cur.value], ts + [ln.value], cur.next)
  {
    hide CStr, Pins;
    PinsLater(s, at, ts, cur.value, cur.next);
    PinOne(s, at, ts, cur.next, cur.value);
  }

  /** With no line left nothing is written any more. */
  lemma {:induction false} KeptNext(s: string, u: string, p: nat, next: Cursor, at: seq<nat>, ts: seq<string>)
    requires Pins(s, at, ts, p) && p < |s| && Terminated(u) && |u| == |s| && u[..p] == s[..p]
    requires forall i :: 0 <= i < |s| && s[i] == NUL ==> u[i] == NUL
    requires next.Entry? ==> next.value == p + 2
    ensures Kept(u, next, at, ts)
  {
    hide CStr, Pins;
    PinsNext(s, u, at, ts, p);
    PinsLater(u, at, ts, p, Bound(next, |u|));
  }

  method NextEntry(text: array<char>, cur: Cursor, ghost ln: Line, ghost at: seq<nat>, ghost ts: seq<string>)
    returns (next: Cursor)
    requires Pending(text[..], cur, ln) && Pins(text[..], at, ts, cur.next)
    modifies text
    ensures Shows(text[..], next, Next(ln)) && Kept(text[..], next, at, ts)
  {
    hide CStr, NextLine, Shows, Pins, Kept;
    ghost var s := text[..];
    next := LoadNextEntry(text, cur.next);
    assert text[..][..cur.next] == text[..cur.next] == s[..cur.next];
    KeptNext(s, text[..], cur.next, next, at, ts);
  }

  predicate KeyIs(cur: Cursor, k: char) {
    cur.Entry? && cur.key == k
  }

  // ---- The strings of each part, in the order in which their pointers are set

  function OptStrings(o: Option<string>): seq<string> {
    if o.Some? then [o.value] else []
  }

  function ConnStrings(o: Option<Connection>): seq<string> {
    if o.Some? then [o.value.nettype, o.value.addrtype, o.value.address] else []
  }

  function BandStrings(bs: seq<Bandwidth>): seq<string> {
    if bs == [] then []
    else
      var l := |bs| - 1;
      BandStrings(bs[..l]) + [bs[l].bwtype, bs[l].bandwidth]
  }

  function MediaStrings(m: Media): seq<string> {
    [m.info.kind] + [m.info.proto] + OptStrings(m.title) + ConnStrings(m.conn) + BandStrings(m.bw)
    + OptStrings(m.encryptKey) + m.attributes
  }

  function MediasStrings(ms: seq<Media>): seq<string> {
    if ms == [] then []
    else
      var l := |ms| - 1;
      MediasStrings(ms[..l]) + MediaStrings(ms[l])
  }

  function OriginStrings(o: Origin): seq<string> {
    [o.username, o.nettype, o.addrtype, o.addr]
  }

  function FrontStrings(d: Payload): seq<string> {
    OriginStrings(d.origin) + [d.sessionName] + OptStrings(d.information) + OptStrings(d.uri) + d.emails + d.phones
    + ConnStrings(d.conn) + BandStrings(d.bw)
  }

  function AllStrings(d: Payload): seq<string> {
    FrontStrings(d) + OptStrings(d.encryptKey) + d.attributes + MediasStrings(d.medias)
  }

  lemma {:induction false} TwoStrings(toks: seq<Token>)
    requires |toks| == 2 && toks[0].S? && toks[1].S?
    ensures Strings(toks) == [toks[0].s, toks[1].s]
  {
    hide Strings;
    OneString(toks[..1]);
    StringsSnoc(toks[..1], toks[1]);
    assert toks == toks[..1] + [toks[1]];
  }

  lemma {:induction false} OneString(toks: seq<Token>)
    requires |toks| == 1 && toks[0].S?
    ensures Strings(toks) == [toks[0].s]
  {
    StringsSnoc([], toks[0]);
    assert toks == [] + [toks[0]];
  }

  lemma {:induction false} ThreeStrings(toks: seq<Token>)
    requires |toks| == 3 && toks[0].S? && toks[1].S? && toks[2].S?
    ensures Strings(toks) == [toks[0].s, toks[1].s, toks[2].s]
  {
    TwoStrings(toks[..2]);
    StringsSnoc(toks[..2], toks[2]);
    assert toks == toks[..2] + [toks[2]];
  }

  lemma {:induction false} SixStrings(toks: seq<Token>)
    requires |toks| == 6 && toks[0].S? && toks[1].N? && toks[2].N? && toks[3].S? && toks[4].S? && toks[5].S?
    ensures Strings(toks) == [toks[0].s, toks[3].s, toks[4].s, toks[5].s]
  {
    hide Strings;
    OneString(toks[..1]);
    StringsSnoc(toks[..1], toks[1]);
    StringsSnoc(toks[..2], toks[2]);
    StringsSnoc(toks[..3], toks[3]);
    StringsSnoc(toks[..4], toks[4]);
    StringsSnoc(toks[..5], toks[5]);
    assert toks[..2] == toks[..1] + [toks[1]] && toks[..3] == toks[..2] + [toks[2]];
    assert toks[..4] == toks[..3] + [toks[3]] && toks[..5] == toks[..4] + [toks[4]] && toks == toks[..5] + [toks[5]];
  }

  lemma {:induction false} BandStringsSnoc(bs: seq<Bandwidth>, b: Bandwidth)
    ensures BandStrings(bs + [b]) == BandStrings(bs) + [b.bwtype, b.bandwidth]
  {
    assert (bs + [b])[..|bs|] == bs;
  }

  lemma {:induction false} MediasStringsSnoc(ms: seq<Media>, m: Media)
    ensures MediasStrings(ms + [m]) == MediasStrings(ms) + MediaStrings(m)
  {
    hide MediaStrings;
    assert (ms + [m])[..|ms|] == ms;
  }

  /** LOAD_FACULTATIVE_STR */
  method LoadFacultative(text: array<char>, cur: Cursor, k: char, ghost ln: Line, ghost at0: seq<nat>,
                         ghost ts: seq<string>)
    returns (field: Option<string>, next: Cursor, ghost at: seq<nat>)
    requires Shows(text[..], cur, ln) && Kept(text[..], cur, at0, ts)
    modifies text
    ensures field == Opt(ln, k).0 && Shows(text[..], next, Opt(ln, k).1)
    ensures Kept(text[..], next, at, ts + OptStrings(field))
  {
    hide CStr, Shows, NextLine, Kept, Pins;
    ShownIsPending(text[..], cur, ln);
    field, next, at := None, cur, at0;
    assert ts + [] == ts;
    if KeyIs(cur, k) {
      WholeValue(text[..], cur, ln, at, ts);
      at := at + [cur.value];
      field := Some(CStr(text[..], cur.value));
      next := NextEntry(text, cur, ln, at, ts + [ln.value]);
    }
  }

  lemma {:induction false} ManyStep(ss: seq<string>, ln: Line, k: char, goal: (seq<string>, Line))
    requires goal == (ss + Many(ln, k).0, Many(ln, k).1)
    ensures Has(ln, k) ==> goal == (ss + [ln.value] + Many(Next(ln), k).0, Many(Next(ln), k).1)
    ensures !Has(ln, k) ==> goal == (ss, ln)
  {
    if Has(ln, k) {
      assert ss + ([ln.value] + Many(Next(ln), k).0) == ss + [ln.value] + Many(Next(ln), k).0;
    } else {
      assert ss + [] == ss;
    }
  }

  /** LOAD_MULTIPLE_FACULTATIVE_STR */
  method LoadMultiple(text: array<char>, cur: Cursor, k: char, ghost ln: Line, ghost at0: seq<nat>,
                      ghost ts: seq<string>)
    returns (field: seq<string>, next: Cursor, ghost at: seq<nat>)
    requires Shows(text[..], cur, ln) && Kept(text[..], cur, at0, ts)
    modifies text
    ensures field == Many(ln, k).0 && Shows(text[..], next, Many(ln, k).1)
    ensures Kept(text[..], next, at, ts + field)
  {
    hide CStr, Shows, NextLine, Many, Kept, Pins;
    ghost var l, goal := ln, Many(ln, k);
    field, next, at := [], cur, at0;
    assert [] + goal.0 == goal.0 && ts + [] == ts;
    while true
      invariant Shows(text[..], next, l) && Kept(text[..], next, at, ts + field)
      invariant goal == (field + Many(l, k).0, Many(l, k).1)
      decreases Size(l)
    {
      ShownIsPending(text[..], next, l);
      ManyStep(field, l, k, goal);
      if !KeyIs(next, k) {
        return;
      }
      WholeValue(text[..], next, l, at, ts + field);
      assert ts + field + [l.value] == ts + (field + [l.value]);
      at := at + [next.value];
      field := field + [CStr(text[..], next.value)];
      next := NextEntry(text, next, l, at, ts + field);
      l := Next(l);
    }
  }

  /** GET_CONN_INFO */
  method GetConnInfo(text: array<char>, cur: Cursor, ghost ln: Line, ghost at0: seq<nat>, ghost ts: seq<string>)
    returns (c: Option<Connection>, next: Cursor, ghost at: seq<nat>)
    requires Shows(text[..], cur, ln) && Kept(text[..], cur, at0, ts)
    modifies text
    ensures c == Conn(ln).0 && Shows(text[..], next, Conn(ln).1)
    ensures Kept(text[..], next, at, ts + ConnStrings(c))
  {
    hide CStr, Shows, NextLine, Split, Within, Pins, Strings;
    ghost var s := text[..];
    ShownIsPending(s, cur, ln);
    c, next, at := None, cur, at0;
    assert ts + [] == ts;
    if KeyIs(cur, 'c') {
      var toks, q;
      toks, q, at := SplitValues(text, cur.value, ' ', [Str, Str, Str], at0, ts);
      ThreeStrings(toks);
      StillPending(s, text[..], cur, ln, q, at, ts + Strings(toks));
      c := Some(Connection(toks[0].s, toks[1].s, toks[2].s));
      next := NextEntry(text, cur, ln, at, ts + ConnStrings(c));
    }
  }

  lemma {:induction false} BandsStep(bs: seq<Bandwidth>, ln: Line, goal: (seq<Bandwidth>, Line))
    requires goal == (bs + Bands(ln).0, Bands(ln).1)
    ensures Has(ln, 'b') ==> goal == (bs + [BandwidthOf(ln.value)] + Bands(Next(ln)).0, Bands(Next(ln)).1)
    ensures !Has(ln, 'b') ==> goal == (bs, ln)
  {
    hide BandwidthOf;
    if Has(ln, 'b') {
      assert bs + ([BandwidthOf(ln.value)] + Bands(Next(ln)).0) == bs + [BandwidthOf(ln.value)] + Bands(Next(ln)).0;
    } else {
      assert bs + [] == bs;
    }
  }

  /** GET_BANDWIDTH_INFO */
  method GetBandwidthInfo(text: array<char>, cur: Cursor, ghost ln: Line, ghost at0: seq<nat>, ghost ts: seq<string>)
    returns (bw: seq<Bandwidth>, next: Cursor, ghost at: seq<nat>)
    requires Shows(text[..], cur, ln) && Kept(text[..], cur, at0, ts)
    modifies text
    ensures bw == Bands(ln).0 && Shows(text[..], next, Bands(ln).1)
    ensures Kept(text[..], next, at, ts + BandStrings(bw))
  {
    hide CStr, Shows, NextLine, Bands, Split, Within, Pins, Strings, BandStrings;
    ghost var l, goal := ln, Bands(ln);
    bw, next, at := [], cur, at0;
    NoBandStrings(ts);
    assert [] + goal.0 == goal.0;
    while true
      invariant Shows(text[..], next, l) && Kept(text[..], next, at, ts + BandStrings(bw))
      invariant goal == (bw + Bands(l).0, Bands(l).1)
      decreases Size(l)
    {
      ghost var s := text[..];
      ShownIsPending(s, next, l);
      BandsStep(bw, l, goal);
      if !KeyIs(next, 'b') {
        return;
      }
      ghost var ts' := ts + BandStrings(bw);
      var toks, q;
      toks, q, at := SplitValues(text, next.value, ':', [Str, Str], at, ts');
      TwoStrings(toks);
      StillPending(s, text[..], next, l, q, at, ts' + Strings(toks));
      BandStringsSnoc(bw, Bandwidth(toks[0].s, toks[1].s));
      assert ts + (BandStrings(bw) + Strings(toks)) == ts' + Strings(toks);
      bw := bw + [Bandwidth(toks[0].s, toks[1].s)];
      next := NextEntry(text, next, l, at, ts + BandStrings(bw));
      l := Next(l);
    }
  }

  lemma {:induction false} NoBandStrings(ts: seq<string>)
    ensures ts + BandStrings([]) == ts
  {}

  lemma {:induction false} NoPins(s: string, p: nat)
    requires Terminated(s)
    ensures Pins(s, [], [], p)
  {}

  /** The loop over the numbers left on a line. */
  method LoadNumbers(text: array<char>, p: nat, c: Conv) returns (ns: seq<int>, q: nat)
    requires Terminated(text[..]) && p < text.Length && !c.Str?
    modifies text
    ensures Within(old(text[..]), text[..], p, q) && ns == Numbers(old(CStr(text[..], p)), c)
  {
    hide CStr, Split, Within, Numbers, Pins, Strings;
    ghost var s, goal := text[..], Numbers(CStr(text[..], p), c);
    ns, q := [], p;
    Moved(s, p, 0);
    assert [] + goal == goal;
    while text[q] != NUL
      invariant Terminated(text[..]) && q < text.Length && Within(s, text[..], p, q)
      invariant goal == ns + Numbers(CStr(text[..], q), c)
      decreases |CStr(text[..], q)|
    {
      ghost var u := text[..];
      NumbersStep(ns, u, q, c);
      NoPins(u, q);
      var toks, r, _ := SplitValues(text, q, ' ', [c], [], []);
      WithinAgain(s, u, text[..], p, q, r);
      ns, q := ns + [toks[0].n], r;
    }
    NumbersOver(ns, text[..], q, c);
  }

  lemma {:induction false} NumbersStep(ns: seq<int>, s: string, q: nat, c: Conv)
    requires Terminated(s) && q < |s| && s[q] != NUL && !c.Str?
    ensures var (t, rest) := Split(CStr(s, q), ' ', [c]);
      |rest| < |CStr(s, q)| && ns + Numbers(CStr(s, q), c) == ns + [t[0].n] + Numbers(rest, c)
  {
    hide Split;
    SplitShortens(CStr(s, q), ' ', [c]);
    var (t, rest) := Split(CStr(s, q), ' ', [c]);
    assert ns + ([t[0].n] + Numbers(rest, c)) == ns + [t[0].n] + Numbers(rest, c);
  }

  lemma {:induction false} NumbersOver(ns: seq<int>, s: string, q: nat, c: Conv)
    requires Terminated(s) && q < |s| && s[q] == NUL && !c.Str?
    ensures ns + Numbers(CStr(s, q), c) == ns
  {}

  lemma {:induction false} RepeatsStep(rs: seq<Repeat>, ln: Line, goal: (seq<Repeat>, Line))
    requires goal == (rs + Repeats(ln).0, Repeats(ln).1)
    ensures Has(ln, 'r') ==> goal == (rs + [RepeatOf(ln.value)] + Repeats(Next(ln)).0, Repeats(Next(ln)).1)
    ensures !Has(ln, 'r') ==> goal == (rs, ln)
  {
    hide RepeatOf;
    if Has(ln, 'r') {
      assert rs + ([RepeatOf(ln.value)] + Repeats(Next(ln)).0) == rs + [RepeatOf(ln.value)] + Repeats(Next(ln)).0;
    } else {
      assert rs + [] == rs;
    }
  }

  /** The repeat lines of one time. */
  method LoadRepeats(text: array<char>, cur: Cursor, ghost ln: Line, ghost at: seq<nat>, ghost ts: seq<string>)
    returns (repeats: seq<Repeat>, next: Cursor)
    requires Shows(text[..], cur, ln) && Kept(text[..], cur, at, ts)
    modifies text
    ensures repeats == Repeats(ln).0 && Shows(text[..], next, Repeats(ln).1)
    ensures Kept(text[..], next, at, ts)
  {
    hide CStr, Shows, NextLine, Repeats, Split, Within, Numbers, Pending, Pins, Strings;
    ghost var l, goal := ln, Repeats(ln);
    repeats, next := [], cur;
    assert [] + goal.0 == goal.0;
    while true
      invariant Shows(text[..], next, l) && Kept(text[..], next, at, ts)
      invariant goal == (repeats + Repeats(l).0, Repeats(l).1)
      decreases Size(l)
    {
      ghost var s := text[..];
      ShownIsPending(s, next, l);
      RepeatsStep(repeats, l, goal);
      if !KeyIs(next, 'r') {
        return;
      }
      NoPins(s, next.value);
      var toks, q, _ := SplitValues(text, next.value, ' ', [Time, Time], [], []);
      ghost var u := text[..];
      var offsets, q' := LoadNumbers(text, q, Time);
      WithinAgain(s, u, text[..], next.value, q, q');
      PinsWithin(s, text[..], at, ts, next.value, q');
      StillPending(s, text[..], next, l, q', at, ts);
      repeats := repeats + [Repeat(toks[0].n, toks[1].n, offsets)];
      next := NextEntry(text, next, l, at, ts);
      l := Next(l);
    }
  }

  lemma {:induction false} TimesStep(ts: seq<TimeField>, ln: Line, goal: (seq<TimeField>, Line))
    requires ln.Line? && goal == (ts + Times(ln).0, Times(ln).1)
    ensures var (rs, l) := Repeats(Next(ln));
      var ts' := ts + [TimeOf(ln.value, rs)];
      if Has(l, 't') then goal == (ts' + Times(l).0, Times(l).1) else goal == (ts', l)
  {
    hide TimeOf, Repeats;
    var (rs, l) := Repeats(Next(ln));
    var tf := TimeOf(ln.value, rs);
    if Has(l, 't') {
      assert ts + ([tf] + Times(l).0) == ts + [tf] + Times(l).0;
    }
  }

  /** The time lines: a loop that tests its key only behind the first line. */
  method LoadTimes(text: array<char>, cur: Cursor, ghost ln: Line, ghost at: seq<nat>, ghost ts: seq<string>)
    returns (times: seq<TimeField>, next: Cursor)
    requires Shows(text[..], cur, ln) && ln.Line? && Kept(text[..], cur, at, ts)
    modifies text
    ensures times == Times(ln).0 && Shows(text[..], next, Times(ln).1)
    ensures Kept(text[..], next, at, ts)
  {
    hide CStr, Shows, NextLine, Repeats, Times, Split, Within, Pending, Pins, Strings;
    ghost var l, goal := ln, Times(ln);
    times, next := [], cur;
    assert [] + goal.0 == goal.0;
    while true
      invariant Shows(text[..], next, l) && l.Line? && Kept(text[..], next, at, ts)
      invariant goal == (times + Times(l).0, Times(l).1)
      decreases Size(l)
    {
      ghost var s := text[..];
      ShownIsPending(s, next, l);
      TimesStep(times, l, goal);
      NoPins(s, next.value);
      var toks, q, _ := SplitValues(text, next.value, ' ', [Time, Time], [], []);
      PinsWithin(s, text[..], at, ts, next.value, q);
      StillPending(s, text[..], next, l, q, at, ts);
      next := NextEntry(text, next, l, at, ts);
      var repeats;
      repeats, next := LoadRepeats(text, next, Next(l), at, ts);
      times := times + [TimeField(toks[0].n, toks[1].n, repeats)];
      l := Repeats(Next(l)).1;
      ShownIsPending(text[..], next, l);
      if !KeyIs(next, 't') {
        return;
      }
    }
  }

  lemma {:induction false} ZonesStep(zs: seq<Zone>, s: string, q: nat)
    requires Terminated(s) && q < |s| && s[q] != NUL
    ensures var (t, rest) := Split(CStr(s, q), ' ', [Time, Time]);
      |rest| < |CStr(s, q)| && zs + ZonesOf(CStr(s, q)) == zs + [Zone(t[0].n, t[1].n)] + ZonesOf(rest)
  {
    hide Split;
    SplitShortens(CStr(s, q), ' ', [Time, Time]);
    var (t, rest) := Split(CStr(s, q), ' ', [Time, Time]);
    assert zs + ([Zone(t[0].n, t[1].n)] + ZonesOf(rest)) == zs + [Zone(t[0].n, t[1].n)] + ZonesOf(rest);
  }

  lemma {:induction false} ZonesOver(zs: seq<Zone>, s: string, q: nat)
    requires Terminated(s) && q < |s| && s[q] == NUL
    ensures zs + ZonesOf(CStr(s, q)) == zs
  {}

  method LoadZones(text: array<char>, cur: Cursor, ghost ln: Line, ghost at: seq<nat>, ghost ts: seq<string>)
    returns (zones: seq<Zone>, next: Cursor)
    requires Shows(text[..], cur, ln) && Kept(text[..], cur, at, ts)
    modifies text
    ensures zones == Zones(ln).0 && Shows(text[..], next, Zones(ln).1)
    ensures Kept(text[..], next, at, ts)
  {
    hide CStr, Shows, NextLine, Split, Within, ZonesOf, Pending, Pins, Strings;
    ghost var s := text[..];
    ShownIsPending(s, cur, ln);
    zones, next := [], cur;
    if KeyIs(cur, 'z') {
      ghost var goal := ZonesOf(ln.value);
      assert [] + goal == goal;
      var q: nat := cur.value;
      Moved(s, q, 0);
      while text[q] != NUL
        invariant Terminated(text[..]) && q < text.Length && Within(s, text[..], cur.value, q)
        invariant goal == zones + ZonesOf(CStr(text[..], q))
        decreases |CStr(text[..], q)|
      {
        ghost var u := text[..];
        ZonesStep(zones, u, q);
        NoPins(u, q);
        var toks, r, _ := SplitValues(text, q, ' ', [Time, Time], [], []);
        WithinAgain(s, u, text[..], cur.value, q, r);
        zones, q := zones + [Zone(toks[0].n, toks[1].n)], r;
      }
      ZonesOver(zones, text[..], q);
      PinsWithin(s, text[..], at, ts, cur.value, q);
      StillPending(s, text[..], cur, ln, q, at, ts);
      next := NextEntry(text, cur, ln, at, ts);
    }
  }

  /** Two calls of strtol, which writes nothing. */
  method LoadPort(text: array<char>, p: nat) returns (port: int, portN: int, q: nat)
    requires Terminated(text[..]) && p < text.Length
    ensures Within(text[..], text[..], p, q) && q < text.Length
    ensures (port, portN, CStr(text[..], q)) == PortOf(CStr(text[..], p))
  {
    hide CStr, Within, StrToL, Wrap32;
    var r := StrToL(CStr(text[..], p));
    port, portN := Wrap32(r.0), 0;
    q := p + r.1;
    Moved(text[..], p, r.1);
    CharAt(text[..], q);
    if text[q] == '/' {
      Moved(text[..], q, 1);
      var r' := StrToL(CStr(text[..], q + 1));
      portN := Wrap32(r'.0);
      Moved(text[..], q + 1, r'.1);
      WithinAgain(text[..], text[..], text[..], q, q + 1, q + 1 + r'.1);
      WithinAgain(text[..], text[..], text[..], p, q, q + 1 + r'.1);
      q := q + 1 + r'.1;
    }
  }

  lemma {:induction false} CharAt(s: string, q: nat)
    requires Terminated(s) && q < |s|
    ensures s[q] == if CStr(s, q) == "" then NUL else CStr(s, q)[0]
    ensures s[q] == NUL <==> CStr(s, q) == ""
  {}

  method LoadInfo(text: array<char>, p: nat, ghost at0: seq<nat>, ghost ts: seq<string>)
    returns (info: Info, q: nat, ghost at: seq<nat>)
    requires Terminated(text[..]) && p < text.Length && Pins(text[..], at0, ts, p)
    modifies text
    ensures Within(old(text[..]), text[..], p, q) && info == InfoOf(old(CStr(text[..], p)))
    ensures Pins(text[..], at, ts + [info.kind] + [info.proto], q)
  {
    hide CStr, Within, Split, PortOf, Numbers, Pins, Strings;
    ghost var s := text[..];
    var kind, a, proto, c;
    kind, a, at := SplitValues(text, p, ' ', [Str], at0, ts);
    OneString(kind);
    ghost var ts1 := ts + Strings(kind);
    var port, portN, b := LoadPort(text, a);
    WithinAgain(s, text[..], text[..], p, a, b);
    PinsWithin(text[..], text[..], at, ts1, a, b);
    ghost var u := text[..];
    proto, c, at := SplitValues(text, b, ' ', [Str], at, ts1);
    OneString(proto);
    WithinAgain(s, u, text[..], p, b, c);
    u := text[..];
    var fmts;
    fmts, q := LoadNumbers(text, c, Int);
    WithinAgain(s, u, text[..], p, c, q);
    PinsWithin(u, text[..], at, ts1 + Strings(proto), c, q);
    info := Info(kind[0].s, port, portN, proto[0].s, fmts);
  }

  method LoadMedia(text: array<char>, cur: Cursor, ghost ln: Line, ghost at0: seq<nat>, ghost ts: seq<string>)
    returns (m: Media, next: Cursor, ghost at: seq<nat>)
    requires Shows(text[..], cur, ln) && Has(ln, 'm') && Kept(text[..], cur, at0, ts)
    modifies text
    ensures m == MediaFrom(ln.value, Next(ln)).0 && Shows(text[..], next, MediaFrom(ln.value, Next(ln)).1)
    ensures Kept(text[..], next, at, ts + MediaStrings(m))
  {
    hide CStr, Shows, NextLine, InfoOf, Within, Pending, Opt, Conn, Bands, Many, Pins, OptStrings, ConnStrings,
      BandStrings;
    ghost var s, l0 := text[..], Next(ln);
    ShownIsPending(s, cur, ln);
    var info, q;
    info, q, at := LoadInfo(text, cur.value, at0, ts);
    ghost var t0 := ts + [info.kind] + [info.proto];
    StillPending(s, text[..], cur, ln, q, at, t0);
    next := NextEntry(text, cur, ln, at, t0);
    var title, conn, bw, key, attributes;
    ghost var l1 := Opt(l0, 'i').1;
    ghost var l2 := Conn(l1).1;
    ghost var l3 := Bands(l2).1;
    ghost var l4 := Opt(l3, 'k').1;
    title, next, at := LoadFacultative(text, next, 'i', l0, at, t0);
    ghost var t1 := t0 + OptStrings(title);
    conn, next, at := GetConnInfo(text, next, l1, at, t1);
    ghost var t2 := t1 + ConnStrings(conn);
    bw, next, at := GetBandwidthInfo(text, next, l2, at, t2);
    ghost var t3 := t2 + BandStrings(bw);
    key, next, at := LoadFacultative(text, next, 'k', l3, at, t3);
    ghost var t4 := t3 + OptStrings(key);
    attributes, next, at := LoadMultiple(text, next, 'a', l4, at, t4);
    m := Media(info, title, conn, bw, key, attributes);
    MediaStringsAre(ts, m);
  }

  lemma {:induction false} MediaStringsAre(ts: seq<string>, m: Media)
    ensures ts + [m.info.kind] + [m.info.proto] + OptStrings(m.title) + ConnStrings(m.conn) + BandStrings(m.bw)
            + OptStrings(m.encryptKey) + m.attributes == ts + MediaStrings(m)
  {
    hide OptStrings, ConnStrings, BandStrings;
    var a, b, c, d := [m.info.kind] + [m.info.proto], OptStrings(m.title), ConnStrings(m.conn), BandStrings(m.bw);
    var e := OptStrings(m.encryptKey);
    assert ts + [m.info.kind] + [m.info.proto] == ts + a;
    assert ts + a + b == ts + (a + b);
    assert ts + (a + b) + c == ts + (a + b + c);
    assert ts + (a + b + c) + d == ts + (a + b + c + d);
    assert ts + (a + b + c + d) + e == ts + (a + b + c + d + e);
    assert ts + (a + b + c + d + e) + m.attributes == ts + (a + b + c + d + e + m.attributes);
  }

  lemma {:induction false} MediasStep(ms: seq<Media>, ln: Line, goal: seq<Media>)
    requires goal == ms + Medias(ln)
    ensures Has(ln, 'm') ==> var (m, l) := MediaFrom(ln.value, Next(ln)); goal == ms + [m] + Medias(l)
    ensures !Has(ln, 'm') ==> goal == ms
  {
    hide MediaFrom;
    if Has(ln, 'm') {
      var (m, l) := MediaFrom(ln.value, Next(ln));
      assert ms + ([m] + Medias(l)) == ms + [m] + Medias(l);
    }
  }

  method LoadMedias(text: array<char>, cur: Cursor, ghost ln: Line, ghost at0: seq<nat>, ghost ts: seq<string>)
    returns (medias: seq<Media>, ghost at: seq<nat>)
    requires Shows(text[..], cur, ln) && Kept(text[..], cur, at0, ts)
    modifies text
    ensures medias == Medias(ln)
    ensures Pins(text[..], at, ts + MediasStrings(medias), text.Length)
  {
    hide CStr, Shows, NextLine, MediaFrom, Medias, Pending, Pins, Kept, MediaStrings, MediasStrings;
    ghost var l, goal := ln, Medias(ln);
    var next := cur;
    medias, at := [], at0;
    NoMediaStrings(ts);
    assert [] + goal == goal;
    while true
      invariant Shows(text[..], next, l) && goal == medias + Medias(l)
      invariant Kept(text[..], next, at, ts + MediasStrings(medias))
      decreases Size(l)
    {
      ShownIsPending(text[..], next, l);
      MediasStep(medias, l, goal);
      ghost var ts' := ts + MediasStrings(medias);
      if !KeyIs(next, 'm') {
        KeptToEnd(text[..], next, l, at, ts');
        return;
      }
      var m;
      m, next, at := LoadMedia(text, next, l, at, ts');
      MediasStringsSnoc(medias, m);
      assert ts' + MediaStrings(m) == ts + (MediasStrings(medias) + MediaStrings(m));
      medias := medias + [m];
      l := MediaFrom(l.value, Next(l)).1;
    }
  }

  lemma {:induction false} NoMediaStrings(ts: seq<string>)
    ensures ts + MediasStrings([]) == ts
  {}

  lemma {:induction false} KeptToEnd(s: string, cur: Cursor, ln: Line, at: seq<nat>, ts: seq<string>)
    requires Shows(s, cur, ln) && Kept(s, cur, at, ts)
    ensures Pins(s, at, ts, |s|)
  {
    hide CStr, Pins;
    PinsLater(s, at, ts, Bound(cur, |s|), |s|);
  }

  /** Everything behind the name. Where a description comes out, its pointers still lead to its strings. */
  method LoadSession(text: array<char>, cur: Cursor, origin: Origin, name: string, ghost l3: Line, ghost at0: seq<nat>)
    returns (r: Outcome, ghost at: seq<nat>)
    requires Shows(text[..], cur, l3) && Kept(text[..], cur, at0, OriginStrings(origin) + [name])
    modifies text
    ensures r == Session(origin, name, l3)
    ensures r.Parsed? ==> Pins(text[..], at, AllStrings(r.d), text.Length)
  {
    hide CStr, Shows, NextLine, Pending, Opt, Conn, Bands, Many, Times, Zones, Medias, Pins, Kept, OriginStrings,
      OptStrings, ConnStrings, BandStrings, MediasStrings;
    ghost var l4 := Opt(l3, 'i').1;
    ghost var l5 := Opt(l4, 'u').1;
    ghost var l6 := Many(l5, 'e').1;
    ghost var l7 := Many(l6, 'p').1;
    ghost var l8 := Conn(l7).1;
    ghost var l9 := Bands(l8).1;
    var next := cur;
    var information, uri, emails, phones, conn, bw;
    ghost var ts := OriginStrings(origin) + [name];
    information, next, at := LoadFacultative(text, next, 'i', l3, at0, ts);
    ts := ts + OptStrings(information);
    uri, next, at := LoadFacultative(text, next, 'u', l4, at, ts);
    ts := ts + OptStrings(uri);
    emails, next, at := LoadMultiple(text, next, 'e', l5, at, ts);
    ts := ts + emails;
    phones, next, at := LoadMultiple(text, next, 'p', l6, at, ts);
    ts := ts + phones;
    conn, next, at := GetConnInfo(text, next, l7, at, ts);
    ts := ts + ConnStrings(conn);
    bw, next, at := GetBandwidthInfo(text, next, l8, at, ts);
    ts := ts + BandStrings(bw);
    ShownIsPending(text[..], next, l9);
    if next.NoEntry? {
      return NullValue, at;
    }
    var times, zones, key, attributes, medias;
    ghost var l10 := Times(l9).1;
    ghost var l11 := Zones(l10).1;
    ghost var l12 := Opt(l11, 'k').1;
    ghost var l13 := Many(l12, 'a').1;
    times, next := LoadTimes(text, next, l9, at, ts);
    zones, next := LoadZones(text, next, l10, at, ts);
    key, next, at := LoadFacultative(text, next, 'k', l11, at, ts);
    attributes, next, at := LoadMultiple(text, next, 'a', l12, at, ts + OptStrings(key));
    medias, at := LoadMedias(text, next, l13, at, ts + OptStrings(key) + attributes);
    r := Parsed(Payload(0, origin, name, information, uri, emails, phones, conn, bw, times, zones, key, attributes,
                        medias));
  }

  lemma {:induction false} CopyShows(s: string, payload: string)
    requires NUL !in payload && s == payload + [NUL]
    ensures Terminated(s) && CStr(s, 0) == payload
  {
    assert forall k :: 0 <= k < |payload| ==> s[0 + k] == payload[k];
    CStrIs(s, 0, payload);
  }

  /** The value that the version line must have: a zero and nothing behind it. */
  lemma {:induction false} VersionAt(s: string, p: nat)
    requires Terminated(s) && p < |s|
    ensures CStr(s, p) == "0" <==> s[p] == '0' && s[p + 1] == NUL
  {
    CharAt(s, p);
    if s[p] == '0' {
      CharAt(s, p + 1);
      assert CStr(s, p) == "0" + CStr(s, p + 1);
    }
  }

  /** The outcome, and the buffer that a description's pointers lead into: at the end each of them still
      leads to its string. */
  method SdpParse(payload: string) returns (r: Outcome, text: array<char>, ghost at: seq<nat>)
    requires NUL !in payload
    ensures r == Parse(payload)
    ensures fresh(text) && text.Length == |payload| + 1
    ensures r.Parsed? ==> Pins(text[..], at, AllStrings(r.d), text.Length)
  {
    hide CStr, Shows, NextLine, Pending, Session, Split, Within, Pins, Kept, Strings;
    text := new char[|payload| + 1](i requires 0 <= i <= |payload| => if i < |payload| then payload[i] else NUL);
    at := [];
    assert text[..] == payload + [NUL];
    CopyShows(text[..], payload);
    var cur := LoadNextEntry(text, 0);
    ghost var l0 := NextLine(payload);
    ShownIsPending(text[..], cur, l0);
    if !KeyIs(cur, 'v') {
      return Rejected, text, at;
    }
    VersionAt(text[..], cur.value);
    if text[cur.value] != '0' || text[cur.value + 1] != NUL {
      return Rejected, text, at;
    }
    NoPins(text[..], cur.next);
    cur := NextEntry(text, cur, l0, [], []);
    ghost var l1 := Next(l0);
    ShownIsPending(text[..], cur, l1);
    if !KeyIs(cur, 'o') {
      return Rejected, text, at;
    }
    ghost var s := text[..];
    NoPins(s, cur.value);
    var o, q;
    o, q, at := SplitValues(text, cur.value, ' ', [Str, Long, Long, Str, Str, Str], [], []);
    SixStrings(o);
    var origin := Origin(o[0].s, o[1].n, o[2].n, o[3].s, o[4].s, o[5].s);
    assert [] + Strings(o) == OriginStrings(origin);
    StillPending(s, text[..], cur, l1, q, at, OriginStrings(origin));
    assert origin == OriginOf(l1.value);
    cur := NextEntry(text, cur, l1, at, OriginStrings(origin));
    ghost var l2 := Next(l1);
    ShownIsPending(text[..], cur, l2);
    if !KeyIs(cur, 's') {
      return Rejected, text, at;
    }
    WholeValue(text[..], cur, l2, at, OriginStrings(origin));
    at := at + [cur.value];
    var name := CStr(text[..], cur.value);
    cur := NextEntry(text, cur, l2, at, OriginStrings(origin) + [name]);
    r, at := LoadSession(text, cur, origin, name, Next(l2), at);
  }
}
