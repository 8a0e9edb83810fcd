/** When sdp_parse accepts a text, and what it makes of the rule that a time line is mandatory. */
module SdpTimeRule {
  import opened SdpText
  import opened SdpTokens
  import opened Sdp
  import opened SdpRoundTrip
  import opened SdpExact

  // --- the keys of a text ---

  /** The keys of the lines from ln on, to the first text that is no line. */
  function KeysFrom(ln: Line): (ks: string)
    ensures ln.Line? ==> ks != [] && ks[0] == ln.key
    decreases Size(ln)
  {
    if ln.NoLine? then [] else [ln.key] + KeysFrom(Next(ln))
  }

  function Keys(t: string): string {
    KeysFrom(NextLine(t))
  }

  /** The line k lines further on. */
  function Ahead(ln: Line, k: nat): Line
    requires k <= |KeysFrom(ln)|
    decreases k
  {
    if k == 0 then ln else Ahead(Next(ln), k - 1)
  }

  lemma {:induction false} AheadKeys(ln: Line, k: nat)
    requires k <= |KeysFrom(ln)|
    ensures KeysFrom(Ahead(ln, k)) == KeysFrom(ln)[k..]
    ensures Ahead(ln, k).Line? <==> k < |KeysFrom(ln)|
    decreases k
  {
    hide NextLine;
    if k == 0 {
    } else {
      AheadKeys(Next(ln), k - 1);
    }
  }

  lemma {:induction false} AheadOne(ln: Line, k: nat)
    requires k < |KeysFrom(ln)|
    ensures Ahead(ln, k).Line? && Ahead(ln, k).key == KeysFrom(ln)[k] && Ahead(ln, k + 1) == Next(Ahead(ln, k))
    decreases k
  {
    hide NextLine;
    if k == 0 {
    } else {
      AheadOne(Next(ln), k - 1);
    }
  }

  // --- what may stand between the session name and the times ---

  /** The place of a key in the order i, u, e, p, c, b; 6 for any other key. */
  function Rank(k: char): nat {
    if k == 'i' then 0 else if k == 'u' then 1 else if k == 'e' then 2
    else if k == 'p' then 3 else if k == 'c' then 4 else if k == 'b' then 5 else 6
  }

  predicate Repeatable(k: char) {
    k == 'e' || k == 'p' || k == 'b'
  }

  /** Key b may stand behind key a. */
  predicate Follows(a: char, b: char) {
    Rank(a) < Rank(b) || (a == b && Repeatable(a))
  }

  /** i? u? e* p* c? b* */
  predicate Prelude(ks: string) {
    && (forall i :: 0 <= i < |ks| ==> Rank(ks[i]) < 6)
    && (forall i :: 0 <= i < |ks| - 1 ==> Follows(ks[i], ks[i + 1]))
  }

  /** The length of the longest prefix of that shape. */
  function PreludeLength(ks: string): (n: nat)
    ensures n <= |ks| && Prelude(ks[..n])
    decreases |ks|
  {
    if Prelude(ks) then assert ks[..|ks|] == ks; |ks|
    else
      var l := |ks| - 1;
      var n := PreludeLength(ks[..l]);
      assert ks[..l][..n] == ks[..n];
      n
  }

  lemma {:induction false} PreludePrefix(ks: string, n: nat)
    requires Prelude(ks) && n <= |ks|
    ensures Prelude(ks[..n])
  {
    hide Rank, Follows;
  }

  /** It is the one prefix of that shape that the next key does not continue. */
  lemma {:induction false} PreludeLengthIs(ks: string, n: nat)
    requires n <= |ks| && Prelude(ks[..n]) && (n < |ks| ==> !Prelude(ks[..n + 1]))
    ensures PreludeLength(ks) == n
    decreases |ks|
  {
    hide Prelude;
    if n == |ks| {
      assert ks[..n] == ks;
    } else {
      if Prelude(ks) {
        PreludePrefix(ks, n + 1);
      }
      var front := ks[..|ks| - 1];
      assert front[..n] == ks[..n];
      if n < |front| {
        assert front[..n + 1] == ks[..n + 1];
      }
      PreludeLengthIs(front, n);
    }
  }

  // --- how far the parser gets ---

  /** With the keys up to rank r dealt with, n lines are taken and the next does not belong to them. */
  ghost predicate Taken(ks: string, n: nat, r: int) {
    && n <= |ks| && Prelude(ks[..n])
    && (n > 0 ==> Rank(ks[n - 1]) <= r)
    && (n < |ks| && Rank(ks[n]) <= r ==> n > 0 && !Follows(ks[n - 1], ks[n]))
  }

  /** Taking one more line, of a key that may stand here. */
  lemma {:induction false} PreludeGrows(ks: string, n: nat)
    requires n < |ks| && Prelude(ks[..n]) && Rank(ks[n]) < 6 && (n > 0 ==> Follows(ks[n - 1], ks[n]))
    ensures Prelude(ks[..n + 1])
  {
    hide Rank, Follows;
    var a, b := ks[..n], ks[..n + 1];
    forall i | 0 <= i < |b| - 1 ensures Follows(b[i], b[i + 1]) {
      if i < n - 1 {
        assert Follows(a[i], a[i + 1]);
      }
    }
  }

  lemma {:induction false} SkipStage(ks: string, n: nat, r: int, k: char)
    requires Taken(ks, n, r) && Rank(k) == r + 1 < 6 && (n < |ks| ==> ks[n] != k)
    ensures Taken(ks, n, r + 1)
  {
    hide Prelude;
  }

  /** One line of the next rank, the last of its key. */
  lemma {:induction false} TakeStage(ks: string, n: nat, r: int, k: char)
    requires Taken(ks, n, r) && Rank(k) == r + 1 < 6 && n < |ks| && ks[n] == k
    requires !Repeatable(k) || n + 1 == |ks| || ks[n + 1] != k
    ensures Taken(ks, n + 1, r + 1)
  {
    hide Prelude;
    PreludeGrows(ks, n);
  }

  /** The line after the lines of the next key. */
  lemma {:induction false} OptTaken(ln: Line, n: nat, r: int, k: char) returns (n': nat)
    requires n <= |KeysFrom(ln)| && Taken(KeysFrom(ln), n, r) && Rank(k) == r + 1 < 6 && !Repeatable(k)
    ensures n' <= |KeysFrom(ln)| && Taken(KeysFrom(ln), n', r + 1)
    ensures Ahead(ln, n') == if Has(Ahead(ln, n), k) then Next(Ahead(ln, n)) else Ahead(ln, n)
  {
    hide NextLine, Taken, KeysFrom, Ahead;
    var ks := KeysFrom(ln);
    AheadKeys(ln, n);
    if n < |ks| {
      AheadOne(ln, n);
    }
    if Has(Ahead(ln, n), k) {
      TakeStage(ks, n, r, k);
      n' := n + 1;
    } else {
      SkipStage(ks, n, r, k);
      n' := n;
    }
  }

  /** Some lines of the next key are taken already, perhaps none. */
  ghost predicate Taking(ks: string, n: nat, r: int, k: char) {
    && n <= |ks| && Prelude(ks[..n])
    && (n > 0 ==> Rank(ks[n - 1]) <= r || ks[n - 1] == k)
    && (n < |ks| && Rank(ks[n]) <= r ==> n > 0 && !Follows(ks[n - 1], ks[n]))
  }

  lemma {:induction false} TakingOne(ks: string, n: nat, r: int, k: char)
    requires Taking(ks, n, r, k) && Rank(k) == r + 1 < 6 && Repeatable(k) && n < |ks| && ks[n] == k
    ensures Taking(ks, n + 1, r, k)
  {
    hide Prelude;
    PreludeGrows(ks, n);
  }

  lemma {:induction false} TakingEnds(ks: string, n: nat, r: int, k: char)
    requires Taking(ks, n, r, k) && Rank(k) == r + 1 < 6 && (n < |ks| ==> ks[n] != k)
    ensures Taken(ks, n, r + 1)
  {
    hide Prelude;
  }

  lemma {:induction false} TakingStarts(ks: string, n: nat, r: int, k: char)
    requires Taken(ks, n, r)
    ensures Taking(ks, n, r, k)
  {
    hide Prelude, Rank, Follows;
  }

  lemma {:induction false} ManyTaken(ln: Line, n: nat, r: int, k: char) returns (n': nat)
    requires n <= |KeysFrom(ln)| && Taking(KeysFrom(ln), n, r, k) && Rank(k) == r + 1 < 6 && Repeatable(k)
    ensures n' <= |KeysFrom(ln)| && Taken(KeysFrom(ln), n', r + 1)
    ensures Ahead(ln, n') == Many(Ahead(ln, n), k).1
    decreases |KeysFrom(ln)| - n
  {
    hide NextLine, Taken, Taking, KeysFrom, Ahead;
    var ks := KeysFrom(ln);
    AheadKeys(ln, n);
    if n < |ks| {
      AheadOne(ln, n);
    }
    if Has(Ahead(ln, n), k) {
      TakingOne(ks, n, r, k);
      n' := ManyTaken(ln, n + 1, r, k);
    } else {
      TakingEnds(ks, n, r, k);
      n' := n;
    }
  }

  lemma {:induction false} BandsAreMany(ln: Line)
    ensures Bands(ln).1 == Many(ln, 'b').1
    decreases Size(ln)
  {
    hide NextLine, BandwidthOf;
    if !Has(ln, 'b') {
    } else {
      BandsAreMany(Next(ln));
    }
  }

  /** The line at which the parser starts to read times. */
  function TimeLine(l3: Line): Line {
    var l5 := Opt(Opt(l3, 'i').1, 'u').1;
    var l7 := Many(Many(l5, 'e').1, 'p').1;
    Bands(Conn(l7).1).1
  }

  lemma {:induction false} NothingTaken(ks: string)
    ensures Taken(ks, 0, -1)
  {}

  lemma {:induction false} PreludeNext(ks: string, n: nat)
    requires n < |ks| && Prelude(ks[..n + 1])
    ensures Rank(ks[n]) < 6 && (n > 0 ==> Follows(ks[n - 1], ks[n]))
  {
    hide Rank, Follows;
    var b := ks[..n + 1];
    assert b[n] == ks[n];
    assert n > 0 ==> Follows(b[n - 1], b[n]);
  }

  lemma {:induction false} AllTaken(ks: string, n: nat)
    requires Taken(ks, n, 5)
    ensures PreludeLength(ks) == n
  {
    hide Prelude, Follows, PreludeLength;
    if n < |ks| && Prelude(ks[..n + 1]) {
      PreludeNext(ks, n);
      assert false;
    }
    PreludeLengthIs(ks, n);
  }

  /** It is the first line behind the longest prelude. */
  lemma {:induction false} TimeLineIs(l3: Line)
    ensures TimeLine(l3) == Ahead(l3, PreludeLength(KeysFrom(l3)))
  {
    hide NextLine, Taken, Taking, KeysFrom, Many, Bands, PreludeLength;
    var ks := KeysFrom(l3);
    NothingTaken(ks);
    var n1 := OptTaken(l3, 0, -1, 'i');
    var n2 := OptTaken(l3, n1, 0, 'u');
    TakingStarts(ks, n2, 1, 'e');
    var n3 := ManyTaken(l3, n2, 1, 'e');
    TakingStarts(ks, n3, 2, 'p');
    var n4 := ManyTaken(l3, n3, 2, 'p');
    var n5 := OptTaken(l3, n4, 3, 'c');
    TakingStarts(ks, n5, 4, 'b');
    var n6 := ManyTaken(l3, n5, 4, 'b');
    BandsAreMany(Ahead(l3, n5));
    AllTaken(ks, n6);
  }

  lemma {:induction false} SessionIs(origin: Origin, name: string, l3: Line)
    ensures TimeLine(l3).NoLine? ==> Session(origin, name, l3) == NullValue
    ensures TimeLine(l3).Line? ==> Session(origin, name, l3).Parsed?
    ensures TimeLine(l3).Line? ==> Session(origin, name, l3).d.times == Times(TimeLine(l3)).0
  {
    hide NextLine, Opt, Many, Conn, Bands, Times, Zones, Medias;
  }

  // --- the outcomes, for every text ---

  /** The version, origin and name lines are what the parser asks for. */
  predicate HeadRight(t: string) {
    |Keys(t)| >= 3 && Keys(t)[..3] == "vos" && NextLine(t).Line? && NextLine(t).value == "0"
  }

  lemma {:induction false} KeysOne(ln: Line)
    ensures KeysFrom(ln) == if ln.NoLine? then [] else [ln.key] + KeysFrom(Next(ln))
  {}

  lemma {:induction false} HeadParsed(t: string)
    ensures HeadRight(t) <==> Parse(t) != Rejected
    ensures HeadRight(t) ==> Next(NextLine(t)).Line? && Next(Next(NextLine(t))).Line?
    ensures HeadRight(t) ==> Ahead(NextLine(t), 3) == Next(Next(Next(NextLine(t))))
    ensures HeadRight(t) ==> Keys(t)[3..] == KeysFrom(Next(Next(Next(NextLine(t)))))
    ensures HeadRight(t) ==> var l1 := Next(NextLine(t)); var l2 := Next(l1);
      Parse(t) == Session(OriginOf(l1.value), l2.value, Next(l2))
  {
    hide NextLine, OriginOf, Session, KeysFrom;
    var l0 := NextLine(t);
    var ks := Keys(t);
    KeysOne(l0);
    if l0.Line? {
      var l1 := Next(l0);
      KeysOne(l1);
      if l1.Line? {
        var l2 := Next(l1);
        KeysOne(l2);
        if l2.Line? {
          AheadKeys(l0, 3);
          assert ks[..3] == [l0.key, l1.key, l2.key];
          SessionIs(OriginOf(l1.value), l2.value, Next(l2));
        }
      }
    }
  }

  /** The null read: the text goes wrong exactly when nothing but a prelude follows the name. */
  lemma {:induction false} NullValueExactly(t: string)
    ensures Parse(t) == NullValue <==> HeadRight(t) && Prelude(Keys(t)[3..])
  {
    hide NextLine, OriginOf, Session, KeysFrom, Keys, HeadRight, Prelude, Parse, PreludeLength, Ahead, TimeLine;
    ParsedExactly(t);
    if HeadRight(t) {
      HeadKeys(t);
      PreludeWhole(Keys(t)[3..]);
    }
  }

  lemma {:induction false} HeadKeys(t: string)
    requires HeadRight(t)
    ensures |Keys(t)| >= 3
  {}

  lemma {:induction false} PreludeWhole(ks: string)
    ensures PreludeLength(ks) == |ks| <==> Prelude(ks)
  {
    hide Prelude;
    assert ks[..|ks|] == ks;
  }

  /** A description is parsed exactly when one more line, of any key, follows the longest prelude;
      without one the outcome is the null read. */
  lemma {:induction false} ParsedExactly(t: string)
    ensures HeadRight(t) ==> |Keys(t)| >= 3
    ensures Parse(t).Parsed? <==> HeadRight(t) && PreludeLength(Keys(t)[3..]) < |Keys(t)| - 3
    ensures Parse(t) == NullValue <==> HeadRight(t) && PreludeLength(Keys(t)[3..]) == |Keys(t)| - 3
    ensures Parse(t) == Rejected <==> !HeadRight(t)
  {
    hide NextLine, OriginOf, Session, KeysFrom, Parse, PreludeLength, Ahead, TimeLine;
    HeadParsed(t);
    if HeadRight(t) {
      var l1 := Next(NextLine(t));
      var l3 := Next(Next(l1));
      TimeLineIs(l3);
      AheadKeys(l3, PreludeLength(KeysFrom(l3)));
      SessionIs(OriginOf(l1.value), Next(l1).value, l3);
    }
  }

  /** The first time is read from that line, whatever its key. */
  lemma {:induction false} FirstTimeRead(t: string)
    requires Parse(t).Parsed?
    ensures |Keys(t)| >= 3 && Ahead(NextLine(t), 3 + PreludeLength(Keys(t)[3..])).Line?
    ensures var ln, first := Ahead(NextLine(t), 3 + PreludeLength(Keys(t)[3..])), Parse(t).d.times[0];
      first == TimeOf(ln.value, first.repeats)
  {
    hide NextLine, OriginOf, Session, KeysFrom, PreludeLength, Ahead, TimeLine, TimeOf;
    ParsedExactly(t);
    HeadParsed(t);
    var l1 := Next(NextLine(t));
    var l3 := Next(Next(l1));
    var n := PreludeLength(KeysFrom(l3));
    TimeLineIs(l3);
    AheadKeys(NextLine(t), 3 + n);
    AheadTwice(NextLine(t), 3, n);
    SessionIs(OriginOf(l1.value), Next(l1).value, l3);
    TimesFirst(TimeLine(l3));
  }

  lemma {:induction false} AheadTwice(ln: Line, j: nat, k: nat)
    requires j + k <= |KeysFrom(ln)|
    ensures k <= |KeysFrom(Ahead(ln, j))| && Ahead(ln, j + k) == Ahead(Ahead(ln, j), k)
    decreases j
  {
    hide NextLine;
    AheadKeys(ln, j);
    if j == 0 {
    } else {
      AheadTwice(Next(ln), j - 1, k);
    }
  }

  lemma {:induction false} TimesFirst(ln: Line)
    requires ln.Line?
    ensures var first := Times(ln).0[0]; first == TimeOf(ln.value, first.repeats)
  {
    hide NextLine, Repeats, TimeOf;
    TimeOfKeeps(ln.value, Repeats(Next(ln)).0);
  }

  lemma {:induction false} TimeOfKeeps(v: string, rs: seq<Repeat>)
    ensures TimeOf(v, rs).repeats == rs
  {}

  /** What the comment in the source asks for: a time line behind the prelude. */
  predicate MeetsRule(t: string) {
    && HeadRight(t) && PreludeLength(Keys(t)[3..]) < |Keys(t)| - 3
    && Keys(t)[3 + PreludeLength(Keys(t)[3..])] == 't'
  }

  /** The parser keeps that rule exactly when the line behind the prelude, if there is one, is not of
      another key. */
  lemma {:induction false} MandatoryTimeExactly(t: string)
    ensures HeadRight(t) ==> |Keys(t)| >= 3
    ensures (Parse(t).Parsed? <==> MeetsRule(t))
       <==> !(HeadRight(t) && PreludeLength(Keys(t)[3..]) < |Keys(t)| - 3
              && Keys(t)[3 + PreludeLength(Keys(t)[3..])] != 't')
  {
    hide NextLine, Parse, KeysFrom, PreludeLength;
    ParsedExactly(t);
  }

  /** A printed text, read as far as its name. */
  lemma {:induction false} ThreeLines(origin: string, name: string, more: seq<Item>)
    requires Printable([Item('v', "0")] + ([Item('o', origin)] + ([Item('s', name)] + more)))
    ensures Parse(Text([Item('v', "0")] + ([Item('o', origin)] + ([Item('s', name)] + more))))
         == Session(OriginOf(origin), name, Start(more)) && Printable(more)
  {
    hide OnOneLine, Printable, NextLine, Text, OriginOf, Session;
    NextIs(Item('v', "0"), [Item('o', origin)] + ([Item('s', name)] + more));
    NextIs(Item('o', origin), [Item('s', name)] + more);
    NextIs(Item('s', name), more);
  }

  /** The first three lines of a printed text, and what is behind them. */
  lemma {:induction false} HeadText(origin: string, more: seq<Item>)
    ensures Text([Item('v', "0")] + ([Item('o', origin)] + ([Item('s', "x")] + more)))
         == "v=0\n" + ("o=" + origin + "\n" + ("s=x\n" + Text(more)))
  {
    hide Text;
    var v, o, s := Item('v', "0"), Item('o', origin), Item('s', "x");
    TextMore(s, more);
    TextMore(o, [s] + more);
    TextMore(v, [o] + ([s] + more));
    assert LineText(v) == "v=0\n" && LineText(o) == "o=" + origin + "\n" && LineText(s) == "s=x\n";
  }

  lemma {:induction false} LastText()
    ensures Text([Item('a', "1")]) == "a=1\n"
  {
    hide Text;
    var a := Item('a', "1");
    TextMore(a, []);
    TextNone();
    assert [a] + [] == [a] && LineText(a) == "a=1\n";
  }

  lemma {:induction false} TextNone()
    ensures Text([]) == ""
  {}

  lemma {:induction false} TextMore(e: Item, es: seq<Item>)
    ensures Text([e] + es) == LineText(e) + Text(es)
  {
    hide LineText;
    assert ([e] + es)[1..] == es;
  }

  lemma {:induction false} ThreeJoined()
    ensures "v=0\n" + ("o=" + "a 1 1 IN IP4 h" + "\n" + ("s=x\n" + "")) == "v=0\no=a 1 1 IN IP4 h\ns=x\n"
  {}

  lemma {:induction false} FourJoined()
    ensures "v=0\n" + ("o=" + "a 1 1 IN IP4 h" + "\n" + ("s=x\n" + "a=1\n"))
         == "v=0\no=a 1 1 IN IP4 h\ns=x\na=1\n"
  {}

  lemma {:induction false} SamplePrintable(more: seq<Item>)
    requires more == [] || more == [Item('a', "1")]
    ensures Printable([Item('v', "0")] + ([Item('o', "a 1 1 IN IP4 h")] + ([Item('s', "x")] + more)))
  {}

  /** A text that ends behind its name runs into the null read, and with any line there it is parsed. */
  lemma {:induction false} WithoutTime()
    ensures Parse("v=0\no=a 1 1 IN IP4 h\ns=x\n") == NullValue
    ensures Parse("v=0\no=a 1 1 IN IP4 h\ns=x\na=1\n").Parsed?
  {
    hide OnOneLine, Printable, NextLine, Text, OriginOf, Session, Parse;
    HeadText("a 1 1 IN IP4 h", []);
    HeadText("a 1 1 IN IP4 h", [Item('a', "1")]);
    TextNone();
    LastText();
    ThreeJoined();
    FourJoined();
    SamplePrintable([]);
    SamplePrintable([Item('a', "1")]);
    ThreeLines("a 1 1 IN IP4 h", "x", []);
    ThreeLines("a 1 1 IN IP4 h", "x", [Item('a', "1")]);
    var origin := OriginOf("a 1 1 IN IP4 h");
    StartIs([]);
    StartIs([Item('a', "1")]);
    NothingBehind(origin, "x");
    FirstTimeKeyUnchecked(origin, "x", 'a', "1", Text([Item('a', "1")][1..]));
  }

  lemma {:induction false} NoUsername()
    ensures OriginOf("").username == ""
  {
    hide SplitFrom, ToNumber;
    assert Split("", ' ', [Str, Long, Long, Str, Str, Str]).0[0] == S("") by {
      FirstOfNothing([Str, Long, Long, Str, Str, Str]);
    }
  }

  lemma {:induction false} FirstOfNothing(fmt: seq<Conv>)
    requires fmt != [] && fmt[0] == Str
    ensures SkipAll("", {' '}) == "" && SplitFrom("", ' ', fmt).0[0] == S("")
  {
    hide SkipAll;
    OneOfNothing(' ');
  }

  /** An origin line without a user name is parsed, and what is then printed has the next field in its
      place: the description does not come back. */
  lemma {:induction false} WithoutUsername()
    ensures var r := Parse("v=0\no=\ns=x\na=1\n"); r.Parsed? && Parse(Dump(r.d)) != r
  {
    hide OnOneLine, Printable, NextLine, Text, OriginOf, Session, Parse, Dump;
    var v, o, s, a := Item('v', "0"), Item('o', ""), Item('s', "x"), Item('a', "1");
    HeadText("", [a]);
    LastText();
    var t := Text([v] + ([o] + ([s] + [a])));
    assert t == "v=0\no=\ns=x\na=1\n";
    assert Printable([v] + ([o] + ([s] + [a]))) by { EmptyOriginPrintable(); }
    ThreeLines("", "x", [a]);
    StartIs([a]);
    FirstTimeKeyUnchecked(OriginOf(""), "x", 'a', "1", Text([a][1..]));
    OriginKept(OriginOf(""), "x", Start([a]));
    NoUsername();
    ReparsedExactly(t);
  }

  lemma {:induction false} EmptyOriginPrintable()
    ensures Printable([Item('v', "0")] + ([Item('o', "")] + ([Item('s', "x")] + [Item('a', "1")])))
  {}

  lemma {:induction false} NothingBehind(origin: Origin, name: string)
    ensures Session(origin, name, NoLine) == NullValue
  {}

  // --- where a line ends ---

  lemma {:induction false} IndexOfFirst(t: string, c: char, i: nat)
    requires i < |t| && t[i] == c
    ensures IndexOf(t, c) <= i
  {
    if t[0] == c {
    } else {
      IndexOfFirst(t[1..], c, i - 1);
    }
  }

  /** A line ends at its first line feed, or at the carriage return in front of that, exactly when it
      is such a pair or no such pair stands anywhere behind it. */
  lemma {:induction false} LineEndExactly(t: string)
    requires '\n' in t
    ensures var f := IndexOf(t, '\n');
      var paired := f > 0 && t[f - 1] == '\r';
      LineEnd(t) == (if paired then f - 1 else f) <==> paired || forall i: nat :: i > f ==> !CrLfAt(t, i)
  {
    hide IndexOf, FirstCrLf;
    var f, n := IndexOf(t, '\n'), FirstCrLf(t);
    assert f < |t|;
    assert f > 0 && t[f - 1] == '\r' ==> CrLfAt(t, f - 1);
    if n < |t| {
      IndexOfFirst(t, '\n', n + 1);
    }
  }

  /** A line feed that ends no line, as a pair follows: it stays in the line's value. */
  lemma {:induction false} LineFeedPassedOver()
    ensures LineEnd("a\nb\r\n") == 3
    ensures NextLine("k=\nb\r\n") == Line('k', "\nb", "")
  {
    hide FirstCrLf, IndexOf;
    var t, u := "a\nb\r\n", "k=\nb\r\n";
    assert CrLfAt(t, 3) && CrLfAt(u, 4);
    assert LineEnd(t) == 3 && LineEnd(u) == 4;
    assert u[4..][1..][1..] == "" && u[4..][0] == '\r' && u[4..][1..][0] == '\n';
    assert SkipAll(u[4..][1..], NEWLINES) == "" && u[2..4] == "\nb";
  }
}
