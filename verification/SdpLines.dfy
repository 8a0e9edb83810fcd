/** What sdp_parse makes of a text depends on its lines alone, not on how they end: line feeds, or
    carriage returns and line feeds as RFC 4566 asks for in section 5, with empty lines between, and
    anything behind the last one that is no line. */
module SdpLines {
  import opened Options
  import opened SdpText
  import opened SdpTokensBack
  import opened Sdp
  import opened SdpRoundTrip
  import opened SdpExact

  /** The lines from ln on, to the first text that is none. */
  function LinesOf(ln: Line): seq<(char, string)>
    decreases Size(ln)
  {
    if ln.NoLine? then [] else [(ln.key, ln.value)] + LinesOf(Next(ln))
  }

  // --- the order of the lines ---

  /** Where in the order of lines the parser stands. In front of the time lines the states 0 to 6 wait for
      i, u, e, p, c and b in that order, and any other line is a time; behind one, 7 to 12 wait for r, t,
      z, k, a and m; in a media description, 13 to 18 wait for i, c, b, k, a and the next m; 19 to 21 wait
      for v, o and s. Lines of e, p, b, r and a repeat. Nothing comes of a line that does not fit. */
  function NextState(q: nat, x: char): Option<nat> {
    if q <= 6 then
      Some(if q <= 0 && x == 'i' then 1 else if q <= 1 && x == 'u' then 2 else if q <= 2 && x == 'e' then 2
           else if q <= 3 && x == 'p' then 3 else if q <= 4 && x == 'c' then 5 else if q <= 5 && x == 'b' then 5
           else 7)
    else if q <= 12 then
      if q <= 7 && x == 'r' then Some(7) else if q <= 8 && x == 't' then Some(7)
      else if q <= 9 && x == 'z' then Some(10) else if q <= 10 && x == 'k' then Some(11)
      else if q <= 11 && x == 'a' then Some(11) else if x == 'm' then Some(13) else None
    else if q <= 18 then
      if q <= 13 && x == 'i' then Some(14) else if q <= 14 && x == 'c' then Some(15)
      else if q <= 15 && x == 'b' then Some(15) else if q <= 16 && x == 'k' then Some(17)
      else if q <= 17 && x == 'a' then Some(17) else if x == 'm' then Some(13) else None
    else if q == 19 && x == 'v' then Some(20)
    else if q == 20 && x == 'o' then Some(21)
    else if q == 21 && x == 's' then Some(0)
    else None
  }

  /** The lines from ln on that fit the order, from state q. */
  function Taken(ln: Line, q: nat): seq<(char, string)>
    decreases Size(ln)
  {
    if ln.NoLine? || NextState(q, ln.key).None? then []
    else [(ln.key, ln.value)] + Taken(Next(ln), NextState(q, ln.key).value)
  }

  ghost predicate Like(a: Line, b: Line, q: nat) {
    Taken(a, q) == Taken(b, q)
  }

  lemma {:induction false} LikeStep(a: Line, b: Line, q: nat, k: char)
    requires Like(a, b, q) && NextState(q, k).Some?
    ensures Has(a, k) <==> Has(b, k)
    ensures Has(a, k) ==> a.value == b.value && Like(Next(a), Next(b), NextState(q, k).value)
  {
    hide NextLine, NextState;
    var x, y := Taken(a, q), Taken(b, q);
    if Has(a, k) || Has(b, k) {
      assert x != [] && y != [] && x[0] == y[0] && x[1..] == y[1..];
    }
  }

  /** A state that waits for k, where no line of that key stands, might as well wait for the next. */
  lemma {:induction false} NoneThere(a: Line, q: nat, k: char)
    requires !Has(a, k) && forall x: char :: x != k ==> NextState(q, x) == NextState(q + 1, x)
    ensures Taken(a, q) == Taken(a, q + 1)
  {
    hide NextLine, NextState;
  }

  lemma {:induction false} OptLike(a: Line, b: Line, q: nat, k: char)
    requires Like(a, b, q) && NextState(q, k) == Some(q + 1)
    requires forall x: char :: x != k ==> NextState(q, x) == NextState(q + 1, x)
    ensures Opt(a, k).0 == Opt(b, k).0 && Like(Opt(a, k).1, Opt(b, k).1, q + 1)
  {
    hide NextLine, NextState, Taken;
    LikeStep(a, b, q, k);
    if !Has(a, k) {
      NoneThere(a, q, k);
      NoneThere(b, q, k);
    }
  }

  lemma {:induction false} ManyLike(a: Line, b: Line, q: nat, k: char)
    requires Like(a, b, q) && NextState(q, k) == Some(q)
    requires forall x: char :: x != k ==> NextState(q, x) == NextState(q + 1, x)
    ensures Many(a, k).0 == Many(b, k).0 && Like(Many(a, k).1, Many(b, k).1, q + 1)
    decreases Size(a)
  {
    hide NextLine, NextState, Taken;
    LikeStep(a, b, q, k);
    if Has(a, k) {
      ManyLike(Next(a), Next(b), q, k);
    } else {
      NoneThere(a, q, k);
      NoneThere(b, q, k);
    }
  }

  lemma {:induction false} ConnLike(a: Line, b: Line, q: nat)
    requires Like(a, b, q) && NextState(q, 'c') == Some(q + 1)
    requires forall x: char :: x != 'c' ==> NextState(q, x) == NextState(q + 1, x)
    ensures Conn(a).0 == Conn(b).0 && Like(Conn(a).1, Conn(b).1, q + 1)
  {
    hide NextLine, NextState, Taken, ConnectionOf;
    LikeStep(a, b, q, 'c');
    if !Has(a, 'c') {
      NoneThere(a, q, 'c');
      NoneThere(b, q, 'c');
    }
  }

  lemma {:induction false} BandsLike(a: Line, b: Line, q: nat)
    requires Like(a, b, q) && NextState(q, 'b') == Some(q)
    requires forall x: char :: x != 'b' ==> NextState(q, x) == NextState(q + 1, x)
    ensures Bands(a).0 == Bands(b).0 && Like(Bands(a).1, Bands(b).1, q + 1)
    decreases Size(a)
  {
    hide NextLine, NextState, Taken, BandwidthOf;
    LikeStep(a, b, q, 'b');
    if Has(a, 'b') {
      BandsLike(Next(a), Next(b), q);
    } else {
      NoneThere(a, q, 'b');
      NoneThere(b, q, 'b');
    }
  }

  lemma {:induction false} TimeStates()
    ensures NextState(7, 'r') == Some(7) && NextState(8, 't') == Some(7) && NextState(9, 'z') == Some(10)
    ensures forall x: char :: x != 'r' ==> NextState(7, x) == NextState(8, x)
    ensures forall x: char :: x != 't' ==> NextState(8, x) == NextState(9, x)
    ensures forall x: char :: x != 'z' ==> NextState(9, x) == NextState(10, x)
  {}

  lemma {:induction false} RepeatsLike(a: Line, b: Line)
    requires Like(a, b, 7)
    ensures Repeats(a).0 == Repeats(b).0 && Like(Repeats(a).1, Repeats(b).1, 8)
    decreases Size(a)
  {
    hide NextLine, NextState, Taken, RepeatOf;
    TimeStates();
    LikeStep(a, b, 7, 'r');
    if Has(a, 'r') {
      RepeatsLike(Next(a), Next(b));
    } else {
      NoneThere(a, 7, 'r');
      NoneThere(b, 7, 'r');
    }
  }

  /** Time lines, the first of which is there whatever its key. */
  lemma {:induction false} TimesLike(a: Line, b: Line)
    requires a.Line? && b.Line? && a.value == b.value && Like(Next(a), Next(b), 7)
    ensures Times(a).0 == Times(b).0 && Like(Times(a).1, Times(b).1, 9)
    decreases Size(a)
  {
    hide NextLine, NextState, Taken, Repeats, TimeOf;
    TimeStates();
    RepeatsLike(Next(a), Next(b));
    var l, m := Repeats(Next(a)).1, Repeats(Next(b)).1;
    LikeStep(l, m, 8, 't');
    if Has(l, 't') {
      TimesLike(l, m);
    } else {
      NoneThere(l, 8, 't');
      NoneThere(m, 8, 't');
    }
  }

  lemma {:induction false} ZonesLike(a: Line, b: Line)
    requires Like(a, b, 9)
    ensures Zones(a).0 == Zones(b).0 && Like(Zones(a).1, Zones(b).1, 10)
  {
    hide NextLine, NextState, Taken, ZonesOf;
    TimeStates();
    LikeStep(a, b, 9, 'z');
    if !Has(a, 'z') {
      NoneThere(a, 9, 'z');
      NoneThere(b, 9, 'z');
    }
  }

  lemma {:induction false} MediaLike(v: string, a: Line, b: Line)
    requires Like(a, b, 13)
    ensures MediaFrom(v, a).0 == MediaFrom(v, b).0 && Like(MediaFrom(v, a).1, MediaFrom(v, b).1, 18)
  {
    hide Like, Opt, Conn, Bands, Many, InfoOf;
    OptLike(a, b, 13, 'i');
    var a1, b1 := Opt(a, 'i').1, Opt(b, 'i').1;
    ConnLike(a1, b1, 14);
    var a2, b2 := Conn(a1).1, Conn(b1).1;
    BandsLike(a2, b2, 15);
    var a3, b3 := Bands(a2).1, Bands(b2).1;
    OptLike(a3, b3, 16, 'k');
    ManyLike(Opt(a3, 'k').1, Opt(b3, 'k').1, 17, 'a');
  }

  lemma {:induction false} MediasLike(a: Line, b: Line, q: nat)
    requires Like(a, b, q) && NextState(q, 'm') == Some(13)
    ensures Medias(a) == Medias(b)
    decreases Size(a)
  {
    hide NextLine, NextState, Taken, MediaFrom;
    LikeStep(a, b, q, 'm');
    if !Has(a, 'm') {
    } else {
      MediaLike(a.value, Next(a), Next(b));
      assert NextState(18, 'm') == Some(13) by { LastState(); }
      MediasLike(MediaFrom(a.value, Next(a)).1, MediaFrom(a.value, Next(b)).1, 18);
    }
  }

  lemma {:induction false} LastState()
    ensures NextState(18, 'm') == Some(13) && NextState(12, 'm') == Some(13)
  {}

  lemma {:induction false} LateLike(a: Line, b: Line)
    requires a.Line? && b.Line? && a.value == b.value && Like(Next(a), Next(b), 7)
    ensures Times(a).0 == Times(b).0 && Zones(Times(a).1).0 == Zones(Times(b).1).0
    ensures var k, m := Opt(Zones(Times(a).1).1, 'k'), Opt(Zones(Times(b).1).1, 'k');
      k.0 == m.0 && Many(k.1, 'a').0 == Many(m.1, 'a').0 && Medias(Many(k.1, 'a').1) == Medias(Many(m.1, 'a').1)
  {
    hide Like, Times, Zones, Opt, Many, Medias, NextLine;
    TimesLike(a, b);
    var a1, b1 := Times(a).1, Times(b).1;
    ZonesLike(a1, b1);
    var a2, b2 := Zones(a1).1, Zones(b1).1;
    OptLike(a2, b2, 10, 'k');
    var a3, b3 := Opt(a2, 'k').1, Opt(b2, 'k').1;
    ManyLike(a3, b3, 11, 'a');
    MediasLike(Many(a3, 'a').1, Many(b3, 'a').1, 12);
  }

  /** Where only a time line is left to come, any line is one. */
  lemma {:induction false} TimeLike(a: Line, b: Line)
    requires Like(a, b, 6)
    ensures a.Line? <==> b.Line?
    ensures a.Line? ==> a.value == b.value && Like(Next(a), Next(b), 7)
  {
    hide NextLine;
    var x, y := Taken(a, 6), Taken(b, 6);
    assert NextState(6, if a.Line? then a.key else ' ') == NextState(6, if b.Line? then b.key else ' ') == Some(7);
    if a.Line? || b.Line? {
      assert x != [] && y != [] && x[0] == y[0] && x[1..] == y[1..];
    }
  }

  lemma {:induction false} SessionLike(origin: Origin, name: string, a: Line, b: Line)
    requires Like(a, b, 0)
    ensures Session(origin, name, a) == Session(origin, name, b)
  {
    hide Like, Opt, Many, Conn, Bands, Times, Zones, Medias, NextLine;
    OptLike(a, b, 0, 'i');
    var a4, b4 := Opt(a, 'i').1, Opt(b, 'i').1;
    OptLike(a4, b4, 1, 'u');
    var a5, b5 := Opt(a4, 'u').1, Opt(b4, 'u').1;
    ManyLike(a5, b5, 2, 'e');
    var a6, b6 := Many(a5, 'e').1, Many(b5, 'e').1;
    ManyLike(a6, b6, 3, 'p');
    var a7, b7 := Many(a6, 'p').1, Many(b6, 'p').1;
    ConnLike(a7, b7, 4);
    var a8, b8 := Conn(a7).1, Conn(b7).1;
    BandsLike(a8, b8, 5);
    var a9, b9 := Bands(a8).1, Bands(b8).1;
    TimeLike(a9, b9);
    if a9.Line? {
      LateLike(a9, b9);
    }
  }

  /** The outcome is decided by the lines that fit the order: whatever stands behind the first one that
      does not is never looked at. */
  lemma {:induction false} OrderDecides(t: string, u: string)
    requires Taken(NextLine(t), 19) == Taken(NextLine(u), 19)
    ensures Parse(t) == Parse(u)
  {
    hide Like, NextLine, Session, OriginOf, Taken;
    var a, b := NextLine(t), NextLine(u);
    assert Like(a, b, 19) by { LikeIs(a, b); }
    LikeStep(a, b, 19, 'v');
    if Has(a, 'v') {
      LikeStep(Next(a), Next(b), 20, 'o');
      if Has(Next(a), 'o') {
        LikeStep(Next(Next(a)), Next(Next(b)), 21, 's');
        if Has(Next(Next(a)), 's') {
          var l2, m2 := Next(Next(a)), Next(Next(b));
          SessionLike(OriginOf(Next(a).value), l2.value, Next(l2), Next(m2));
        }
      }
    }
  }

  lemma {:induction false} LikeIs(a: Line, b: Line)
    requires Taken(a, 19) == Taken(b, 19)
    ensures Like(a, b, 19)
  {}

  // --- lines and their order ---

  /** The lines of a list that fit the order, from state q. */
  function Fitting(ls: seq<(char, string)>, q: nat): seq<(char, string)> {
    if ls == [] || NextState(q, ls[0].0).None? then []
    else [ls[0]] + Fitting(ls[1..], NextState(q, ls[0].0).value)
  }

  lemma {:induction false} TakenIsFitting(ln: Line, q: nat)
    ensures Taken(ln, q) == Fitting(LinesOf(ln), q)
    decreases Size(ln)
  {
    hide NextLine, NextState;
    if ln.NoLine? {
    } else {
      assert LinesOf(ln)[1..] == LinesOf(Next(ln)) && LinesOf(ln)[0] == (ln.key, ln.value);
      if NextState(q, ln.key).Some? {
        TakenIsFitting(Next(ln), NextState(q, ln.key).value);
      }
    }
  }

  /** Texts with the same lines have the same outcome. */
  lemma {:induction false} LinesDecide(t: string, u: string)
    requires LinesOf(NextLine(t)) == LinesOf(NextLine(u))
    ensures Parse(t) == Parse(u)
  {
    hide NextLine, Parse, Taken, Fitting, LinesOf;
    TakenIsFitting(NextLine(t), 19);
    TakenIsFitting(NextLine(u), 19);
    OrderDecides(t, u);
  }

  /** The state behind these lines, if all of them fit. */
  function StateBehind(ls: seq<(char, string)>, q: nat): Option<nat> {
    if ls == [] then Some(q)
    else if NextState(q, ls[0].0).None? then None
    else StateBehind(ls[1..], NextState(q, ls[0].0).value)
  }

  lemma {:induction false} FittingFront(a: seq<(char, string)>, b: seq<(char, string)>, q: nat)
    requires StateBehind(a, q).Some?
    requires b != [] && NextState(StateBehind(a, q).value, b[0].0).None?
    ensures Fitting(a + b, q) == Fitting(a, q)
    decreases |a|
  {
    hide NextState;
    if a == [] {
      assert a + b == b;
    } else {
      assert (a + b)[0] == a[0] && (a + b)[1..] == a[1..] + b;
      FittingFront(a[1..], b, NextState(q, a[0].0).value);
    }
  }

  lemma {:induction false} PairsBoth(a: seq<Item>, b: seq<Item>)
    ensures Pairs(a + b) == Pairs(a) + Pairs(b)
  {
    if a == [] {
      assert a + b == b;
    } else {
      assert (a + b)[0] == a[0] && (a + b)[1..] == a[1..] + b;
      PairsBoth(a[1..], b);
    }
  }

  /** The first line that does not fit ends the description. */
  lemma {:induction false} FirstMisfitEnds(front: seq<Item>, more: seq<Item>)
    requires Printable(front + more) && more != [] && StateBehind(Pairs(front), 19).Some?
    requires NextState(StateBehind(Pairs(front), 19).value, more[0].key).None?
    ensures Parse(Text(front + more)) == Parse(Text(front))
  {
    hide NextLine, Parse, Text, OnOneLine, NextState, Taken, Fitting, StateBehind, LinesOf;
    var a, b := NextLine(Text(front + more)), NextLine(Text(front));
    PrintableParts(front, more);
    PrintedLines(front + more);
    PrintedLines(front);
    PairsBoth(front, more);
    TakenIsFitting(a, 19);
    TakenIsFitting(b, 19);
    FittingFront(Pairs(front), Pairs(more), 19);
    OrderDecides(Text(front + more), Text(front));
  }

  // --- lines that end in various ways ---

  function Body(e: Item): string {
    [e.key, '='] + e.value
  }

  /** Lines, each with what ends it, and what stands behind the last one. */
  function Ended(es: seq<Item>, ends: seq<string>, tail: string): string
    requires |es| == |ends|
  {
    if es == [] then tail else Body(es[0]) + (ends[0] + Ended(es[1..], ends[1..], tail))
  }

  function Pairs(es: seq<Item>): seq<(char, string)> {
    if es == [] then [] else [(es[0].key, es[0].value)] + Pairs(es[1..])
  }

  /** Nothing, or a text whose second character is not an equals sign. */
  predicate Junk(tail: string) {
    tail == "" || (tail[0] !in {'\r', '\n'} && (|tail| < 2 || tail[1] != '='))
  }

  /** What can end a line: newline characters that begin with a line feed, or, where there is a pair
      anywhere, with a carriage return and line feed. */
  predicate Newlines(end: string, paired: bool) {
    && end != "" && (forall i :: 0 <= i < |end| ==> end[i] in {'\r', '\n'})
    && if paired then |end| > 1 && end[0] == '\r' && end[1] == '\n' else end[0] == '\n'
  }

  /** Every line ends so, but the last one may end with the text. */
  ghost predicate EndsRight(ends: seq<string>, tail: string, paired: bool) {
    forall i :: 0 <= i < |ends| ==> Newlines(ends[i], paired) || (ends[i] == tail == "" && i == |ends| - 1)
  }

  lemma {:induction false} JunkIsNoLine(tail: string)
    requires Junk(tail)
    ensures NextLine(tail) == NoLine
  {}

  lemma {:induction false} SkipEnd(end: string, rest: string)
    requires (forall i :: 0 <= i < |end| ==> end[i] in {'\r', '\n'}) && (rest == "" || rest[0] !in {'\r', '\n'})
    ensures SkipAll(end + rest, NEWLINES) == rest
  {
    if end == "" {
      assert end + rest == rest;
    } else {
      assert (end + rest)[1..] == end[1..] + rest;
      SkipEnd(end[1..], rest);
    }
  }

  lemma {:induction false} FirstPairAt(body: string, rest: string)
    requires rest != "" && |rest| > 1 && rest[0] == '\r' && rest[1] == '\n' && NoCrLf(body)
    ensures FirstCrLf(body + rest) == |body|
  {
    hide FirstCrLf;
    var t := body + rest;
    assert CrLfAt(t, |body|);
    forall i: nat | i < |body| ensures !CrLfAt(t, i) {
      assert !CrLfAt(body, i);
    }
  }

  lemma {:induction false} BodyNoCrLf(e: Item)
    requires e.key !in {'\r', '\n'} && '\n' !in e.value
    ensures NoCrLf(Body(e)) && '\n' !in Body(e)
  {}

  /** One line is found whatever ends it. */
  lemma {:induction false} LineFound(e: Item, end: string, rest: string, paired: bool)
    requires e.key !in {'\r', '\n'} && '\n' !in e.value && (Newlines(end, paired) || end == rest == "")
    requires rest == "" || rest[0] !in {'\r', '\n'}
    requires !paired ==> NoCrLf(Body(e) + (end + rest))
    ensures NextLine(Body(e) + (end + rest)) == Line(e.key, e.value, rest)
  {
    hide SkipAll, FirstCrLf, IndexOf;
    var b, t := Body(e), Body(e) + (end + rest);
    BodyNoCrLf(e);
    if paired && end != "" {
      FirstPairAt(b, end + rest);
    } else {
      assert end == "" ==> t == b;
      CrLfNowhere(t);
      IndexOfIs(b, end + rest, '\n');
    }
    assert t[|b|..] == end + rest && t[2..|b|] == e.value && t[1] == '=';
    SkipEnd(end, rest);
  }

  lemma {:induction false} EndedStarts(es: seq<Item>, ends: seq<string>, tail: string)
    requires |es| == |ends| && Junk(tail) && forall i :: 0 <= i < |es| ==> es[i].key !in {'\r', '\n'}
    ensures var t := Ended(es, ends, tail); t == "" || t[0] !in {'\r', '\n'}
  {}

  lemma {:induction false} EndedNoCrLf(a: string, b: string)
    requires NoCrLf(a + b)
    ensures NoCrLf(b)
  {
    forall i: nat ensures !CrLfAt(b, i) {
      assert !CrLfAt(a + b, |a| + i);
    }
  }

  /** However its lines end, a text has exactly those lines. */
  lemma {:induction false} EndedLines(es: seq<Item>, ends: seq<string>, tail: string, paired: bool)
    requires |es| == |ends| && Printable(es) && Junk(tail) && EndsRight(ends, tail, paired)
    requires !paired ==> NoCrLf(Ended(es, ends, tail))
    ensures LinesOf(NextLine(Ended(es, ends, tail))) == Pairs(es)
    decreases |es|
  {
    hide NextLine, Newlines, Body, NoCrLf, Junk;
    if es == [] {
      JunkIsNoLine(tail);
    } else {
      var rest := Ended(es[1..], ends[1..], tail);
      EndedStarts(es[1..], ends[1..], tail);
      LineFound(es[0], ends[0], rest, paired);
      if !paired {
        Regrouped(Body(es[0]), ends[0], rest);
        EndedNoCrLf(Body(es[0]) + ends[0], rest);
      }
      EndedLines(es[1..], ends[1..], tail, paired);
    }
  }

  lemma {:induction false} Regrouped(a: string, b: string, c: string)
    ensures a + (b + c) == (a + b) + c
  {}

  /** The lines of a printed text. */
  lemma {:induction false} PrintedLines(es: seq<Item>)
    requires Printable(es)
    ensures LinesOf(NextLine(Text(es))) == Pairs(es)
    decreases |es|
  {
    hide NextLine, OnOneLine, Text;
    if es == [] {
      NothingPrinted();
    } else {
      StartIs(es);
      PrintedLines(es[1..]);
    }
  }

  lemma {:induction false} NothingPrinted()
    ensures NextLine(Text([])) == NoLine
  {}

  /** A description is read the same from lines that end in line feeds, or all in carriage return and
      line feed, with any further newline characters behind them and any text that is no line at the end. */
  lemma {:induction false} EndsDoNotMatter(es: seq<Item>, ends: seq<string>, tail: string, paired: bool)
    requires |es| == |ends| && Printable(es) && Junk(tail) && EndsRight(ends, tail, paired)
    requires !paired ==> NoCrLf(Ended(es, ends, tail))
    ensures Parse(Ended(es, ends, tail)) == Parse(Text(es))
  {
    hide NextLine, Parse, Text, Printable, EndsRight, LinesOf, Ended, NoCrLf;
    EndedLines(es, ends, tail, paired);
    PrintedLines(es);
    LinesDecide(Ended(es, ends, tail), Text(es));
  }

  /** The round trip with any of these line ends. */
  lemma {:induction false} RoundTripAnyEnds(d: Payload, ends: seq<string>, tail: string, paired: bool)
    requires WellFormed(d) && |ends| == |Items(d)| && Junk(tail) && EndsRight(ends, tail, paired)
    requires !paired ==> NoCrLf(Ended(Items(d), ends, tail))
    ensures Parse(Ended(Items(d), ends, tail)) == Parsed(d)
  {
    hide Parse, Items, Printable, PartsFit, EndsRight, Ended, NoCrLf, Text, Junk;
    RoundTrip(d);
    EndsDoNotMatter(Items(d), ends, tail, paired);
  }
}
