/** The other direction of the round trip, line by line: a line whose values stand with one separator
    between them is printed as it was read. */
module SdpReprint {
  import opened Decimal
  import opened SdpTokens
  import opened SdpTokensBack
  import opened Sdp
  import opened SdpRoundTrip

  /** An origin line, the user name, two numbers and three strings. */
  lemma {:induction false} OriginReprinted(toks: seq<Token>)
    requires Fits(toks, [Str, Long, Long, Str, Str, Str], ' ') && TokenText(toks[0]) != ""
    ensures OriginText(OriginOf(Joined(toks, ' '))) == Joined(toks, ' ')
  {
    hide Split, Joined, Dec;
    var x := Joined(toks, ' ');
    SplitJoined(toks, [Str, Long, Long, Str, Str, Str], ' ', "");
    assert x + "" == x && toks == [toks[0], toks[1], toks[2], toks[3], toks[4], toks[5]];
    OriginJoined(toks[0], toks[1], toks[2], toks[3], toks[4], toks[5]);
  }

  /** A connection line, three strings. */
  lemma {:induction false} ConnectionReprinted(toks: seq<Token>)
    requires Fits(toks, [Str, Str, Str], ' ')
    ensures ConnectionText(ConnectionOf(Joined(toks, ' '))) == Joined(toks, ' ')
  {
    hide Split, Joined;
    var x := Joined(toks, ' ');
    SplitJoined(toks, [Str, Str, Str], ' ', "");
    assert x + "" == x && toks == [toks[0], toks[1], toks[2]];
    Joined3(toks[0], toks[1], toks[2], ' ');
  }

  /** A bandwidth line, two strings with a colon between. */
  lemma {:induction false} BandwidthReprinted(toks: seq<Token>)
    requires Fits(toks, [Str, Str], ':')
    ensures BandwidthText(BandwidthOf(Joined(toks, ':'))) == Joined(toks, ':')
  {
    hide Split, Joined;
    var x := Joined(toks, ':');
    SplitJoined(toks, [Str, Str], ':', "");
    assert x + "" == x && toks == [toks[0], toks[1]];
    Joined2(toks[0], toks[1], ':');
  }

  // --- numbers ---

  function Tokens(ns: seq<int>): (ts: seq<Token>)
    ensures |ts| == |ns| && forall i :: 0 <= i < |ns| ==> ts[i] == N(ns[i])
  {
    seq(|ns|, i requires 0 <= i < |ns| => N(ns[i]))
  }

  function NumberLine(ns: seq<int>): string {
    Joined(Tokens(ns), ' ')
  }

  ghost predicate AllLong(ns: seq<int>) {
    forall i :: 0 <= i < |ns| ==> LONG_MIN <= ns[i] <= LONG_MAX
  }

  lemma {:induction false} JoinedOne(t: Token, sep: char)
    ensures Joined([t], sep) == TokenText(t)
  {}

  lemma {:induction false} NumberLineMore(n: int, ns: seq<int>)
    ensures NumberLine([n] + ns) == Dec(n) + if ns == [] then "" else " " + NumberLine(ns)
  {
    hide Dec, Joined;
    assert Tokens([n] + ns) == [N(n)] + Tokens(ns);
    if ns == [] {
      JoinedOne(N(n), ' ');
      assert Tokens([n] + ns) == [N(n)] && Dec(n) + "" == Dec(n);
    } else {
      JoinedCons(N(n), Tokens(ns), ' ');
    }
  }

  lemma {:induction false} NumbersJoined(ns: seq<int>)
    ensures NumbersText(ns) == if ns == [] then "" else " " + NumberLine(ns)
    decreases |ns|
  {
    hide Dec, NumberLine;
    if ns == [] {
    } else {
      NumbersJoined(ns[1..]);
      NumberLineMore(ns[0], ns[1..]);
      assert [ns[0]] + ns[1..] == ns;
    }
  }

  lemma {:induction false} TwoThenMore(a: int, b: int, ns: seq<int>)
    ensures NumberLine([a, b] + ns) == Dec(a) + " " + Dec(b) + NumbersText(ns)
  {
    hide Dec, NumberLine, NumbersText;
    NumbersJoined(ns);
    NumberLineMore(b, ns);
    NumberLineMore(a, [b] + ns);
    assert [a] + ([b] + ns) == [a, b] + ns;
  }

  /** A repeat line of two numbers or more. */
  lemma {:induction false} RepeatReprinted(ns: seq<int>)
    requires |ns| >= 2 && AllLong(ns)
    ensures RepeatText(RepeatOf(NumberLine(ns))) == NumberLine(ns)
  {
    hide Dec, NumberLine, NumbersText, RepeatOf;
    var r := Repeat(ns[0], ns[1], ns[2..]);
    TwoThenMore(ns[0], ns[1], ns[2..]);
    assert [ns[0], ns[1]] + ns[2..] == ns;
    RepeatBack(r);
  }

  /** A time line of two numbers. */
  lemma {:induction false} TimeReprinted(a: int, b: int, repeats: seq<Repeat>)
    requires AllLong([a, b])
    ensures TimeText(TimeOf(NumberLine([a, b]), repeats)) == NumberLine([a, b])
  {
    hide Dec, NumberLine, TimeOf;
    TwoThenMore(a, b, []);
    assert [a, b] + [] == [a, b] && [a, b][0] == a && [a, b][1] == b;
    var t := TimeField(a, b, []);
    assert Dec(a) + " " + Dec(b) + "" == TimeText(t);
    TimeBack(t);
    TimesOnly(TimeText(t), repeats, []);
  }

  lemma {:induction false} TimesOnly(v: string, a: seq<Repeat>, b: seq<Repeat>)
    ensures TimeText(TimeOf(v, a)) == TimeText(TimeOf(v, b))
  {
    hide Split;
  }

  function ZonesIn(ns: seq<int>): seq<Zone>
    requires |ns| % 2 == 0
  {
    if ns == [] then [] else [Zone(ns[0], ns[1])] + ZonesIn(ns[2..])
  }

  lemma {:induction false} ZonesJoined(ns: seq<int>)
    requires |ns| % 2 == 0 && AllLong(ns)
    ensures ZonesText(ZonesIn(ns)) == NumberLine(ns) && ZonesFit(ZonesIn(ns))
    decreases |ns|
  {
    hide Dec, NumberLine;
    if ns == [] {
      NoNumbers();
    } else {
      var a, b, rest := ns[0], ns[1], ns[2..];
      ZonesJoined(rest);
      TwoThenMore(a, b, rest);
      NumbersJoined(rest);
      assert [a, b] + rest == ns;
      var zs := ZonesIn(ns);
      assert zs[1..] == ZonesIn(rest) && zs[0] == Zone(a, b);
      assert |zs| > 1 <==> rest != [];
    }
  }

  lemma {:induction false} NoNumbers()
    ensures NumberLine([]) == ""
  {}

  /** A zone line of an even number of numbers. */
  lemma {:induction false} ZonesReprinted(ns: seq<int>)
    requires |ns| % 2 == 0 && AllLong(ns)
    ensures ZonesText(ZonesOf(NumberLine(ns))) == NumberLine(ns)
  {
    hide NumberLine, ZonesText, ZonesOf, ZonesFit;
    ZonesJoined(ns);
    ZonesBack(ZonesIn(ns));
  }

  // --- media ---

  lemma {:induction false} PlainLine(kind: string, port: string, count: string, proto: string, fmts: string)
    ensures kind + " " + port + count + " " + proto + (" " + fmts)
         == kind + " " + port + count + " " + proto + " " + fmts
  {}

  /** A media line: type, port, perhaps a slash and a count other than zero, protocol, formats. */
  lemma {:induction false} InfoReprinted(kind: string, port: int, count: int, proto: string, fmts: seq<int>)
    requires InfoFits(Info(kind, port, count, proto, fmts)) && fmts != []
    ensures InfoText(InfoOf(MediaLine(kind, port, count, proto, fmts))) == MediaLine(kind, port, count, proto, fmts)
  {
    hide Dec, NumberLine, NumbersText, InfoOf, InfoFits;
    var m, c := Info(kind, port, count, proto, fmts), if count == 0 then "" else "/" + Dec(count);
    NumbersJoined(fmts);
    InfoBack(m);
    PlainLine(kind, Dec(port), c, proto, NumberLine(fmts));
    assert InfoText(m) == MediaLine(kind, port, count, proto, fmts);
  }

  function MediaLine(kind: string, port: int, count: int, proto: string, fmts: seq<int>): string {
    kind + " " + Dec(port) + (if count == 0 then "" else "/" + Dec(count)) + " " + proto + " " + NumberLine(fmts)
  }

  // --- the text as a whole ---

  /** No newline character stands in front, and no two in a row. */
  ghost predicate NoEmptyLines(t: string) {
    && (t != "" ==> t[0] !in {'\r', '\n'})
    && forall i: nat :: i + 1 < |t| ==> t[i] !in {'\r', '\n'} || t[i + 1] !in {'\r', '\n'}
  }

  lemma {:induction false} LineThenLines(e: Item, t: string)
    requires OneLine(e.value) && e.key !in {'\r', '\n'} && NoEmptyLines(t)
    ensures NoEmptyLines(LineText(e) + t)
  {
    var l := LineText(e);
    forall i: nat | i + 1 < |l + t|
      ensures (l + t)[i] !in {'\r', '\n'} || (l + t)[i + 1] !in {'\r', '\n'}
    {
      if i + 1 < |l| {
        assert l[i + 1] == (l + t)[i + 1] && l[i] == (l + t)[i];
        assert 2 <= i < |l| - 1 ==> l[i] == e.value[i - 2];
      } else if i + 1 > |l| {
        assert (l + t)[i] == t[i - |l|] && (l + t)[i + 1] == t[i - |l| + 1];
      }
    }
  }

  predicate OneLine(v: string) {
    '\n' !in v && '\r' !in v
  }

  /** A printed text without a newline character in any part has no empty line and ends with a line feed. */
  lemma {:induction false} PrintedWithoutEmptyLines(es: seq<Item>)
    requires forall i :: 0 <= i < |es| ==> OneLine(es[i].value) && es[i].key !in {'\r', '\n'}
    ensures NoEmptyLines(Text(es)) && (es != [] ==> Text(es) != "" && Text(es)[|Text(es)| - 1] == '\n')
  {
    hide OneLine, NoEmptyLines, LineText;
    if es == [] {
      NothingIsEmpty();
    } else {
      PrintedWithoutEmptyLines(es[1..]);
      LineThenLines(es[0], Text(es[1..]));
      LineEndsWithFeed(es[0]);
    }
  }

  lemma {:induction false} NothingIsEmpty()
    ensures NoEmptyLines("")
  {}

  lemma {:induction false} LineEndsWithFeed(e: Item)
    ensures LineText(e) != "" && LineText(e)[|LineText(e)| - 1] == '\n'
  {}
}
