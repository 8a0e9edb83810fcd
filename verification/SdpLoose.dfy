/** split_values and the numbers of sdp.c on values that no printer writes: more separators than one,
    numbers that are too wide or not there, a media line without a port. */
module SdpLoose {
  import opened Decimal
  import opened SdpText
  import opened SdpTokens
  import opened SdpTokensBack
  import opened Sdp
  import opened SdpRoundTrip

  // --- truncation ---

  /** An int takes the low 32 bits of a long. */
  lemma {:induction false} WrapIs(n: int)
    ensures -0x8000_0000 <= Wrap32(n) < 0x8000_0000 && (Wrap32(n) - n) % 0x1_0000_0000 == 0
    ensures LONG_MIN <= Wrap64(n) <= LONG_MAX && (Wrap64(n) - n) % 0x1_0000_0000_0000_0000 == 0
  {}

  /** A number of a format list that is too wide for an int is read modulo its width. */
  lemma {:induction false} IntTruncates(n: int, y: string)
    requires LONG_MIN <= n <= LONG_MAX && Ends(y, ' ')
    ensures var r := One(Dec(n) + y, ' ', Int);
      r.1 == y && -0x8000_0000 <= r.0.n < 0x8000_0000 && (r.0.n - n) % 0x1_0000_0000 == 0
  {
    hide Dec, StrToL, Wrap32;
    DecRead(n, y);
    DecStarts(n);
    WrapIs(n);
    assert (Dec(n) + y)[|Dec(n)|..] == y;
  }

  // --- numbers that are not there ---

  /** Nothing read: zeros and empty strings. */
  function Blank(fmt: seq<Conv>): seq<Token> {
    if fmt == [] then [] else [if fmt[0].Str? then S("") else N(0)] + Blank(fmt[1..])
  }

  lemma {:induction false} NothingRead()
    ensures StrToL("") == (0, 0)
  {}

  lemma {:induction false} SplitNothing(sep: char, fmt: seq<Conv>)
    ensures SplitFrom("", sep, fmt) == (Blank(fmt), "")
    decreases |fmt|
  {
    hide StrToL;
    NothingRead();
    if fmt == [] {
    } else {
      SplitNothing(sep, fmt[1..]);
    }
  }

  /** Where a number should stand and none does, it is read as zero and the rest of the line as nothing. */
  lemma {:induction false} MissingNumber(sign: string, t: string, sep: char, c: Conv, fmt: seq<Conv>)
    requires !c.Str? && sign in ["", "+", "-"] && StopsNumber(t)
    requires sign == "" && t != "" ==> !White(t[..1]) && t[0] != '+' && t[0] != '-'
    ensures SplitFrom(sign + t, sep, [c] + fmt) == ([N(0)] + Blank(fmt), "")
  {
    hide StrToL, SkipAll;
    var s := sign + t;
    assert "" + s == s;
    LongMissing("", sign, t);
    assert ([c] + fmt)[1..] == fmt;
    assert One(s, sep, c) == (N(0), "");
    SkipNone("", {sep});
    SplitNothing(sep, fmt);
  }

  // --- separators ---

  function Separators(k: nat, sep: char): string {
    if k == 0 then "" else [sep] + Separators(k - 1, sep)
  }

  /** Tokens with one separator between, and any number of further ones in front of each. */
  function Spaced(toks: seq<Token>, gaps: seq<nat>, sep: char): string
    requires |toks| == |gaps|
  {
    if toks == [] then ""
    else
      Separators(gaps[0], sep)
      + (TokenText(toks[0]) + if |toks| == 1 then "" else [sep] + Spaced(toks[1..], gaps[1..], sep))
  }

  lemma {:induction false} SplitSkipsAll(k: nat, z: string, sep: char, fmt: seq<Conv>)
    ensures Split(Separators(k, sep) + z, sep, fmt) == Split(z, sep, fmt)
    decreases k
  {
    hide Split;
    if k == 0 {
      assert "" + z == z;
    } else {
      assert Separators(k, sep) + z == [sep] + (Separators(k - 1, sep) + z);
      SplitSkips(Separators(k - 1, sep) + z, sep, fmt);
      SplitSkipsAll(k - 1, z, sep, fmt);
    }
  }

  ghost predicate Filled(toks: seq<Token>) {
    forall i :: 0 <= i < |toks| ==> TokenText(toks[i]) != ""
  }

  /** Further separators change nothing. */
  lemma {:induction false} SpacedOut(toks: seq<Token>, gaps: seq<nat>, fmt: seq<Conv>, sep: char)
    requires Separator(sep) && Fits(toks, fmt, sep) && Filled(toks) && |gaps| == |toks|
    ensures Split(Spaced(toks, gaps, sep), sep, fmt) == Split(Joined(toks, sep), sep, fmt)
    decreases |toks|
  {
    hide Split, TokenText, Suits;
    if toks == [] {
    } else {
      var t, rest := toks[0], Spaced(toks[1..], gaps[1..], sep);
      var y := if |toks| == 1 then "" else [sep] + rest;
      SplitSkipsAll(gaps[0], TokenText(t) + y, sep, fmt);
      FitsTail(toks, fmt, sep);
      SplitStep(t, y, sep, fmt);
      if |toks| == 1 {
        assert TokenText(t) + "" == TokenText(t);
      } else {
        var z := Joined(toks[1..], sep);
        SplitStep(t, [sep] + z, sep, fmt);
        SplitSkips(rest, sep, fmt[1..]);
        SplitSkips(z, sep, fmt[1..]);
        assert TokenText(t) + ([sep] + z) == Joined(toks, sep);
        SpacedOut(toks[1..], gaps[1..], fmt[1..], sep);
      }
    }
  }

  // --- the port of a media line ---

  /** Without a port nothing is taken, and behind a slash a count alone is read. */
  lemma {:induction false} PortMissing(t: string, n: int, y: string)
    requires IsInt(n) && Ends(y, ' ')
    ensures t != "" && !White(t[..1]) && !IsDigit(t[0]) && t[0] !in "+-/" ==> PortOf(t) == (0, 0, t)
    ensures PortOf("/" + (Dec(n) + y)) == (0, n, y)
  {
    hide Dec, StrToL, Wrap32;
    WrapSmall(n);
    WrapSmall(0);
    if t != "" && !White(t[..1]) && !IsDigit(t[0]) && t[0] !in "+-/" {
      assert "" + ("" + t) == t;
      LongMissing("", "", t);
      assert t[0..] == t;
    }
    var u := "/" + (Dec(n) + y);
    assert "" + ("" + u) == u && u[..1] == "/";
    LongMissing("", "", u);
    DecRead(n, y);
    assert u[0..] == u && u[1..] == Dec(n) + y && (Dec(n) + y)[|Dec(n)|..] == y;
  }

  /** A media line without a port: it is zero, and protocol and formats are read all the same. */
  lemma {:induction false} InfoWithoutPort(kind: string, proto: string, fmts: seq<int>)
    requires kind != "" && ' ' !in kind && InfoFits(Info(kind, 0, 0, proto, fmts))
    requires proto != "" && !White(proto[..1]) && !IsDigit(proto[0]) && proto[0] !in "+-/"
    ensures InfoOf(kind + " " + proto + NumbersText(fmts)) == Info(kind, 0, 0, proto, fmts)
  {
    hide Dec, Split, SkipAll, NumbersText, Numbers, PortOf, Suitable, White;
    var x := proto + NumbersText(fmts);
    assert kind + " " + proto + NumbersText(fmts) == kind + (" " + x);
    SplitWord(kind, " " + x);
    SkipSpace(x);
    assert x[0] == proto[0] && x[..1] == proto[..1];
    SkipNone(x, {' '});
    PortMissing(x, 0, "");
    SplitProto(proto, fmts);
    SplitSkips(x, ' ', [Str]);
    assert " " + proto + NumbersText(fmts) == [' '] + x;
  }
}
