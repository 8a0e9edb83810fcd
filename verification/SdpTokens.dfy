/** split_values of sdp.c: the values of a line, cut out in place at a separator. */
module SdpTokens {
  import opened Decimal
  import opened SdpText

  /** The letters of the format string: 's', 'l', 'i' and 't'. */
  datatype Conv = Str | Long | Int | Time

  datatype Token = S(s: string) | N(n: int)

  /** The low 32 bits of a long, as an int. */
  function Wrap32(n: int): int {
    (n + 0x8000_0000) % 0x1_0000_0000 - 0x8000_0000
  }

  function Wrap64(n: int): int {
    (n + 0x8000_0000_0000_0000) % 0x1_0000_0000_0000_0000 - 0x8000_0000_0000_0000
  }

  /** The suffixes of a typed time, in seconds. */
  function Unit(c: char): nat {
    if c == 'd' then 86400 else if c == 'h' then 3600 else if c == 'm' then 60 else 0
  }

  function ToTime(s: string): (r: (Token, string))
    ensures r.0.N? && |r.1| <= |s|
  {
    var (v, n) := StrToL(s);
    if n == 0 then (N(0), "")
    else if n < |s| && Unit(s[n]) != 0 then (N(Wrap64(v * Unit(s[n]))), s[n + 1..])
    else (N(v), s[n..])
  }

  function ToNumber(s: string, wide: bool): (r: (Token, string))
    ensures r.0.N? && |r.1| <= |s|
  {
    var (v, n) := StrToL(s);
    (N(if wide then v else Wrap32(v)), if n == 0 then "" else s[n..])
  }

  /** One conversion: its value and what it leaves; a number that is not there empties the rest. */
  function One(s: string, sep: char, c: Conv): (r: (Token, string))
    ensures (c.Str? <==> r.0.S?) && |r.1| <= |s|
  {
    match c
    case Str => var k := IndexOf(s, sep); (S(s[..k]), SkipAll(s[k..], {sep}))
    case Long => ToNumber(s, true)
    case Int => ToNumber(s, false)
    case Time => ToTime(s)
  }

  function SplitFrom(s: string, sep: char, fmt: seq<Conv>): (r: (seq<Token>, string))
    ensures |r.0| == |fmt| && |r.1| <= |s|
    ensures forall i :: 0 <= i < |fmt| ==> (fmt[i].Str? <==> r.0[i].S?)
    decreases |fmt|
  {
    if fmt == [] then ([], s)
    else
      var (tok, t) := One(s, sep, fmt[0]);
      var (toks, rest) := SplitFrom(SkipAll(t, {sep}), sep, fmt[1..]);
      ([tok] + toks, rest)
  }

  function Split(s: string, sep: char, fmt: seq<Conv>): (r: (seq<Token>, string))
    ensures |r.0| == |fmt| && |r.1| <= |s|
    ensures forall i :: 0 <= i < |fmt| ==> (fmt[i].Str? <==> r.0[i].S?)
  {
    SplitFrom(SkipAll(s, {sep}), sep, fmt)
  }

  /** The loops over a line end: a conversion takes something of any line that is not empty. */
  lemma {:induction false} SplitShortens(s: string, sep: char, fmt: seq<Conv>)
    requires s != "" && fmt != []
    ensures |Split(s, sep, fmt).1| < |s|
  {
    var t := SkipAll(s, {sep});
    if t != "" {
      OneShortens(t, sep, fmt[0]);
    }
  }

  lemma {:induction false} OneShortens(s: string, sep: char, c: Conv)
    requires s != "" && s[0] != sep
    ensures |One(s, sep, c).1| < |s|
  {}

  /** After writes from p on, which stay within the C string at p, the cursor stands at q in it. */
  ghost predicate Within(s: string, u: string, p: nat, q: nat) {
    && Terminated(s) && Terminated(u) && |s| == |u| && p <= q < |s|
    && q + |CStr(u, q)| <= p + |CStr(s, p)|
    && forall i :: 0 <= i < |s| && !(p <= i < p + |CStr(s, p)|) ==> u[i] == s[i]
  }

  lemma {:induction false} WithinAgain(s: string, u: string, w: string, p: nat, q: nat, r: nat)
    requires Within(s, u, p, q) && Within(u, w, q, r)
    ensures Within(s, w, p, r)
  {
    hide CStr;
  }

  /** Writes from p on leave what ends at p or in front of it. */
  lemma {:induction false} PinsWithin(s: string, u: string, at: seq<nat>, ts: seq<string>, p: nat, q: nat)
    requires Pins(s, at, ts, p) && Within(s, u, p, q)
    ensures Pins(u, at, ts, q)
  {
    hide CStr;
    if CStr(s, p) != "" {
      CStrAt(s, p, 0);
    }
    forall i | 0 <= i < |at| ensures CStr(u, at[i]) == ts[i] {
      CStrEnds(s, at[i]);
      CStrStays(s, u, at[i]);
    }
  }

  /** The strings among the tokens. */
  function Strings(toks: seq<Token>): seq<string> {
    if toks == [] then []
    else
      var l := |toks| - 1;
      Strings(toks[..l]) + if toks[l].S? then [toks[l].s] else []
  }

  lemma {:induction false} StringsSnoc(toks: seq<Token>, tok: Token)
    ensures Strings(toks + [tok]) == Strings(toks) + if tok.S? then [tok.s] else []
  {
    assert (toks + [tok])[..|toks|] == toks;
  }

  lemma {:induction false} Moved(s: string, p: nat, k: nat)
    requires Terminated(s) && p < |s| && k <= |CStr(s, p)|
    ensures Within(s, s, p, p + k) && p + k < |s| && CStr(s, p + k) == CStr(s, p)[k..]
  {
    hide CStr;
    CStrDrop(s, p, k);
  }

  lemma {:induction false} Cut(s: string, u: string, p: nat, k: nat, b: nat)
    requires Terminated(s) && p < |s| && k <= |CStr(s, p)| && p + k <= b < |s| && Blanked(s, u, p + k, b)
    requires b <= p + |CStr(s, p)| && (k < |CStr(s, p)| ==> p + k < b)
    ensures Within(s, u, p, b) && Terminated(u) && |u| == |s|
    ensures CStr(u, b) == CStr(s, b) && CStr(u, p) == CStr(s, p)[..k]
  {
    hide CStr;
    CutAt(s, u, p, p + k, b);
    KeptBehind(s, u, b, p + k, b);
    CStrDrop(s, p, b - p);
  }

  /** The 's' conversion: the token ends where the separators are overwritten. */
  method TakeToken(text: array<char>, p: nat, sep: char) returns (tok: string, q: nat)
    requires Terminated(text[..]) && p < text.Length && sep != NUL
    modifies text
    ensures Within(old(text[..]), text[..], p, q) && q < text.Length
    ensures Terminated(text[..]) && (S(tok), CStr(text[..], q)) == One(old(CStr(text[..], p)), sep, Str)
    ensures CStr(text[..], p) == tok && p + |tok| <= q
  {
    hide CStr, SkipAll, IndexOf, Within, Blanked, Skipped;
    ghost var s := text[..];
    var k := IndexOf(CStr(text[..], p), sep);
    q := BlankRun(text, p + k, {sep});
    TokenTaken(s, text[..], p, sep, q);
    tok := CStr(text[..], p);
  }

  lemma {:induction false} TokenTaken(s: string, u: string, p: nat, sep: char, q: nat)
    requires Terminated(s) && p < |s| && sep != NUL && q < |s| && s[q] !in {sep}
    requires var a := p + IndexOf(CStr(s, p), sep); Skipped(s, a, q, {sep}) && Blanked(s, u, a, q)
    ensures Within(s, u, p, q) && Terminated(u) && |u| == |s| && p + |CStr(u, p)| <= q
    ensures (S(CStr(u, p)), CStr(u, q)) == One(CStr(s, p), sep, Str)
  {
    hide CStr, SkipAll, IndexOf, Within, Blanked, Skipped;
    var t := CStr(s, p);
    var k := IndexOf(t, sep);
    CStrDrop(s, p, k);
    if k < |t| {
      CStrAt(s, p, k);
    }
    SkippedAll(s, p + k, q, {sep});
    Cut(s, u, p, k, q);
  }

  /** A failed number conversion: the rest becomes empty. */
  method Truncate(text: array<char>, p: nat)
    requires Terminated(text[..]) && p < text.Length
    modifies text
    ensures Within(old(text[..]), text[..], p, p) && Terminated(text[..]) && CStr(text[..], p) == ""
  {
    hide CStr, Within;
    ghost var s := text[..];
    text[p] := NUL;
    Truncated(s, text[..], p);
  }

  lemma {:induction false} Truncated(s: string, u: string, p: nat)
    requires Terminated(s) && p < |s| && u == s[p := NUL]
    ensures Within(s, u, p, p) && Terminated(u) && CStr(u, p) == ""
  {
    CStrEnds(s, p);
  }

  method TakeNumber(text: array<char>, p: nat, wide: bool) returns (v: int, q: nat)
    requires Terminated(text[..]) && p < text.Length
    modifies text
    ensures Within(old(text[..]), text[..], p, q) && q < text.Length
    ensures Terminated(text[..]) && (N(v), CStr(text[..], q)) == ToNumber(old(CStr(text[..], p)), wide)
  {
    hide CStr, Within, StrToL;
    var r := StrToL(CStr(text[..], p));
    v := if wide then r.0 else Wrap32(r.0);
    q := p;
    if r.1 == 0 {
      Truncate(text, p);
    } else {
      Moved(text[..], p, r.1);
      q := p + r.1;
    }
  }

  method TakeTime(text: array<char>, p: nat) returns (v: int, q: nat)
    requires Terminated(text[..]) && p < text.Length
    modifies text
    ensures Within(old(text[..]), text[..], p, q) && q < text.Length
    ensures Terminated(text[..]) && (N(v), CStr(text[..], q)) == ToTime(old(CStr(text[..], p)))
  {
    hide CStr, Within, StrToL, Unit;
    ghost var t := CStr(text[..], p);
    var r := StrToL(CStr(text[..], p));
    v, q := r.0, p;
    if r.1 == 0 {
      Truncate(text, p);
    } else {
      q := p + r.1;
      Moved(text[..], p, r.1);
      UnitAt(text[..], p, r.1);
      if Unit(text[q]) != 0 {
        v, q := Wrap64(v * Unit(text[q])), q + 1;
        Moved(text[..], p, r.1 + 1);
      }
    }
  }

  lemma {:induction false} UnitAt(s: string, p: nat, k: nat)
    requires Terminated(s) && p < |s| && k <= |CStr(s, p)|
    ensures Unit(s[p + k]) == if k < |CStr(s, p)| then Unit(CStr(s, p)[k]) else 0
  {
    hide CStr;
    CStrEnds(s, p);
    if k < |CStr(s, p)| {
      CStrAt(s, p, k);
    }
  }

  method SkipSeparators(text: array<char>, p: nat, sep: char) returns (q: nat)
    requires Terminated(text[..]) && p < text.Length && sep != NUL
    ensures Within(text[..], text[..], p, q) && q < text.Length
    ensures CStr(text[..], q) == SkipAll(CStr(text[..], p), {sep})
  {
    hide CStr, SkipAll, Within, Skipped;
    q := SkipRun(text, p, {sep});
    SkippedAll(text[..], p, q, {sep});
    Moved(text[..], p, q - p);
  }

  method Convert(text: array<char>, p: nat, sep: char, c: Conv) returns (tok: Token, q: nat)
    requires Terminated(text[..]) && p < text.Length && sep != NUL
    modifies text
    ensures Within(old(text[..]), text[..], p, q) && q < text.Length
    ensures Terminated(text[..]) && (tok, CStr(text[..], q)) == One(old(CStr(text[..], p)), sep, c)
    ensures c.Str? ==> p < text.Length && CStr(text[..], p) == tok.s && p + |tok.s| <= q
  {
    hide CStr, Within, ToNumber, ToTime, IndexOf, SkipAll;
    match c {
      case Str =>
        var t: string;
        t, q := TakeToken(text, p, sep);
        tok := S(t);
      case Time =>
        var v: int;
        v, q := TakeTime(text, p);
        tok := N(v);
      case _ =>
        var v: int;
        v, q := TakeNumber(text, p, c == Long);
        tok := N(v);
    }
  }

  /** With toks read and t still to be split, the whole result is known. */
  ghost predicate Splitting(toks: seq<Token>, t: string, sep: char, fmt: seq<Conv>, goal: (seq<Token>, string)) {
    var r := SplitFrom(t, sep, fmt);
    goal == (toks + r.0, r.1)
  }

  lemma {:induction false} SplittingOne(toks: seq<Token>, t: string, sep: char, fmt: seq<Conv>,
                                        goal: (seq<Token>, string), tok: Token, rest: string)
    requires Splitting(toks, t, sep, fmt, goal) && fmt != [] && (tok, rest) == One(t, sep, fmt[0])
    ensures Splitting(toks + [tok], SkipAll(rest, {sep}), sep, fmt[1..], goal)
  {
    hide One, SkipAll;
    var r := SplitFrom(SkipAll(rest, {sep}), sep, fmt[1..]);
    assert toks + ([tok] + r.0) == toks + [tok] + r.0;
  }

  lemma {:induction false} SplittingStarts(t: string, sep: char, fmt: seq<Conv>)
    ensures Splitting([], SkipAll(t, {sep}), sep, fmt, Split(t, sep, fmt))
  {
    hide SplitFrom, SkipAll;
    var r := Split(t, sep, fmt);
    assert [] + r.0 == r.0;
  }

  lemma {:induction false} SplittingEnds(toks: seq<Token>, t: string, sep: char, goal: (seq<Token>, string))
    requires Splitting(toks, t, sep, [], goal)
    ensures goal == (toks, t)
  {
    assert toks + [] == toks;
  }

  /** Strings that end in front of the value stay where they are, and those cut out join them. */
  method SplitValues(text: array<char>, p: nat, sep: char, fmt: seq<Conv>, ghost at0: seq<nat>, ghost ts0: seq<string>)
    returns (toks: seq<Token>, q: nat, ghost at: seq<nat>)
    requires Terminated(text[..]) && p < text.Length && sep != NUL && Pins(text[..], at0, ts0, p)
    modifies text
    ensures Within(old(text[..]), text[..], p, q) && q < text.Length
    ensures Terminated(text[..]) && (toks, CStr(text[..], q)) == Split(old(CStr(text[..], p)), sep, fmt)
    ensures Pins(text[..], at, ts0 + Strings(toks), q)
  {
    hide CStr, SkipAll, Within, Split, SplitFrom, One, Splitting, Pins, Strings;
    ghost var s, goal := text[..], Split(CStr(text[..], p), sep, fmt);
    q := SkipSeparators(text, p, sep);
    PinsWithin(s, s, at0, ts0, p, q);
    SplittingStarts(CStr(s, p), sep, fmt);
    toks, at := [], at0;
    NoStrings(ts0);
    var i := 0;
    assert fmt[0..] == fmt;
    while i < |fmt|
      invariant i <= |fmt| && Terminated(text[..]) && q < text.Length == |s| && Within(s, text[..], p, q)
      invariant Splitting(toks, CStr(text[..], q), sep, fmt[i..], goal)
      invariant Pins(text[..], at, ts0 + Strings(toks), q)
    {
      ghost var u := text[..];
      var tok, r := Convert(text, q, sep, fmt[i]);
      WithinAgain(s, u, text[..], p, q, r);
      SplittingOne(toks, CStr(u, q), sep, fmt[i..], goal, tok, CStr(text[..], r));
      assert fmt[i..][1..] == fmt[i + 1..];
      PinsWithin(u, text[..], at, ts0 + Strings(toks), q, r);
      TokenPinned(text[..], at, ts0, toks, q, r, tok);
      at := if tok.S? then at + [q] else at;
      toks, i := toks + [tok], i + 1;
      q := SkipSeparators(text, r, sep);
      PinsWithin(text[..], text[..], at, ts0 + Strings(toks), r, q);
      WithinAgain(s, text[..], text[..], p, r, q);
    }
    assert fmt[i..] == [];
    SplittingEnds(toks, CStr(text[..], q), sep, goal);
  }

  lemma {:induction false} NoStrings(ts: seq<string>)
    ensures ts + Strings([]) == ts
  {}

  lemma {:induction false} TokenPinned(s: string, at: seq<nat>, ts: seq<string>, toks: seq<Token>, q: nat, r: nat,
                                       tok: Token)
    requires Pins(s, at, ts + Strings(toks), r)
    requires tok.S? ==> q < |s| && CStr(s, q) == tok.s && q + |tok.s| <= r
    ensures Pins(s, if tok.S? then at + [q] else at, ts + Strings(toks + [tok]), r)
  {
    hide CStr, Pins, Strings;
    StringsSnoc(toks, tok);
    if tok.S? {
      PinOne(s, at, ts + Strings(toks), r, q);
      assert ts + (Strings(toks) + [tok.s]) == ts + Strings(toks) + [tok.s];
    } else {
      assert Strings(toks) + [] == Strings(toks);
    }
  }
}
