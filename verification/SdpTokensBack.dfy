/** Splitting a line of printed tokens gives the tokens back. */
module SdpTokensBack {
  import opened Decimal
  import opened SdpText
  import opened SdpTokens

  function TokenText(t: Token): string {
    match t
    case S(s) => s
    case N(n) => Dec(n)
  }

  function Joined(toks: seq<Token>, sep: char): string {
    if toks == [] then ""
    else if |toks| == 1 then TokenText(toks[0])
    else TokenText(toks[0]) + [sep] + Joined(toks[1..], sep)
  }

  /** A separator that no number can take for its own. */
  predicate Separator(sep: char) {
    sep == ' ' || sep == ':'
  }

  /** What a conversion can give back: no separator inside a string, no number out of range. */
  predicate Suits(t: Token, c: Conv, sep: char) {
    match c
    case Str => t.S? && sep !in t.s
    case Int => t.N? && -0x8000_0000 <= t.n < 0x8000_0000
    case _ => t.N? && LONG_MIN <= t.n <= LONG_MAX
  }

  /** Each token suits its conversion, and an empty one is followed by empty ones only. */
  predicate Fits(toks: seq<Token>, fmt: seq<Conv>, sep: char) {
    && |toks| == |fmt|
    && (forall i :: 0 <= i < |toks| ==> Suits(toks[i], fmt[i], sep))
    && (forall i :: 0 <= i < |toks| - 1 && TokenText(toks[i]) == "" ==> TokenText(toks[i + 1]) == "")
  }

  predicate Ends(y: string, sep: char) {
    y == "" || y[0] == sep
  }

  lemma {:induction false} IndexOfIs(w: string, y: string, sep: char)
    requires sep !in w && Ends(y, sep)
    ensures IndexOf(w + y, sep) == |w|
  {
    if w == "" {
      assert w + y == y;
    } else {
      assert (w + y)[1..] == w[1..] + y;
      IndexOfIs(w[1..], y, sep);
    }
  }

  lemma {:induction false} TakeString(w: string, y: string, sep: char)
    requires sep !in w && Ends(y, sep)
    ensures One(w + y, sep, Str) == (S(w), SkipAll(y, {sep}))
  {
    hide IndexOf, SkipAll;
    IndexOfIs(w, y, sep);
    assert (w + y)[..|w|] == w && (w + y)[|w|..] == y;
  }

  lemma {:induction false} TakeDecimal(n: int, y: string, sep: char, c: Conv)
    requires Separator(sep) && Ends(y, sep) && !c.Str? && Suits(N(n), c, sep)
    ensures One(Dec(n) + y, sep, c) == (N(n), y)
  {
    hide Dec, StrToL;
    DecRead(n, y);
    DecStarts(n);
    assert (Dec(n) + y)[|Dec(n)|..] == y;
  }

  lemma {:induction false} SplitSkips(z: string, sep: char, fmt: seq<Conv>)
    ensures Split([sep] + z, sep, fmt) == Split(z, sep, fmt)
  {
    hide SplitFrom;
    assert ([sep] + z)[1..] == z;
  }

  /** One token and what stands behind it. */
  lemma {:induction false} SplitStep(t: Token, y: string, sep: char, fmt: seq<Conv>)
    requires Separator(sep) && fmt != [] && Suits(t, fmt[0], sep) && TokenText(t) != "" && Ends(y, sep)
    ensures var r := Split(y, sep, fmt[1..]); Split(TokenText(t) + y, sep, fmt) == ([t] + r.0, r.1)
  {
    hide One, SkipAll, Dec;
    var s := TokenText(t) + y;
    if t.S? {
      TakeString(t.s, y, sep);
      SkipNone(SkipAll(y, {sep}), {sep});
    } else {
      DecStarts(t.n);
      TakeDecimal(t.n, y, sep, fmt[0]);
    }
    assert s[0] == TokenText(t)[0] != sep;
    SkipNone(s, {sep});
  }

  /** Nothing but separators. */
  lemma {:induction false} SplitEmpty(toks: seq<Token>, fmt: seq<Conv>, sep: char)
    requires Fits(toks, fmt, sep) && (toks == [] || TokenText(toks[0]) == "")
    ensures SkipAll(Joined(toks, sep), {sep}) == ""
    ensures SplitFrom("", sep, fmt) == (toks, "")
  {
    if toks == [] {
    } else {
      if toks[0].N? {
        DecStarts(toks[0].n);
      }
      FitsTail(toks, fmt, sep);
      SplitEmpty(toks[1..], fmt[1..], sep);
      assert toks == [toks[0]] + toks[1..];
      if |toks| > 1 {
        assert Joined(toks, sep)[1..] == Joined(toks[1..], sep);
      }
    }
  }

  lemma {:induction false} FitsTail(toks: seq<Token>, fmt: seq<Conv>, sep: char)
    requires Fits(toks, fmt, sep) && toks != []
    ensures Fits(toks[1..], fmt[1..], sep) && Suits(toks[0], fmt[0], sep)
    ensures |toks| > 1 && TokenText(toks[0]) == "" ==> TokenText(toks[1..][0]) == ""
  {
    hide Suits;
  }

  /** Splitting inverts joining, whatever stands behind the last token. */
  lemma {:induction false} SplitJoined(toks: seq<Token>, fmt: seq<Conv>, sep: char, x: string)
    requires Separator(sep) && Fits(toks, fmt, sep) && toks != [] && Ends(x, sep)
    requires x != "" ==> TokenText(toks[|toks| - 1]) != ""
    ensures Split(Joined(toks, sep) + x, sep, fmt) == (toks, SkipAll(x, {sep}))
  {
    hide SkipAll, Suits, TokenText, One, SplitFrom;
    FitsTail(toks, fmt, sep);
    assert toks == [toks[0]] + toks[1..];
    if TokenText(toks[0]) == "" {
      SplitEmpty(toks, fmt, sep);
      LastEmpty(toks, fmt, sep);
      assert Joined(toks, sep) + x == Joined(toks, sep);
      SkipNone("", {sep});
    } else if |toks| == 1 {
      SplitStep(toks[0], x, sep, fmt);
      SplitNothing(x, sep);
    } else {
      var y := [sep] + (Joined(toks[1..], sep) + x);
      assert Joined(toks, sep) + x == TokenText(toks[0]) + y;
      SplitStep(toks[0], y, sep, fmt);
      SplitSkips(Joined(toks[1..], sep) + x, sep, fmt[1..]);
      SplitJoined(toks[1..], fmt[1..], sep, x);
    }
  }

  lemma {:induction false} SplitNothing(x: string, sep: char)
    ensures Split(x, sep, []) == ([], SkipAll(x, {sep}))
  {}

  lemma {:induction false} LastEmpty(toks: seq<Token>, fmt: seq<Conv>, sep: char)
    requires Fits(toks, fmt, sep) && toks != [] && TokenText(toks[0]) == ""
    ensures TokenText(toks[|toks| - 1]) == ""
  {
    hide Suits, TokenText;
    if |toks| <= 1 {
    } else {
      FitsTail(toks, fmt, sep);
      LastEmpty(toks[1..], fmt[1..], sep);
    }
  }
}
