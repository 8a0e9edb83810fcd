/** The lines of a session description: load_next_entry of sdp.c on a NUL-terminated buffer,
    and the text that a list of lines makes. */
module SdpText {

  const NUL := '\0'

  predicate Terminated(s: string) {
    s != "" && s[|s| - 1] == NUL
  }

  /** The C string that starts at index i. */
  function CStr(s: string, i: nat): (t: string)
    requires Terminated(s) && i < |s|
    ensures i + |t| < |s|
    decreases |s| - i
  {
    if s[i] == NUL then "" else [s[i]] + CStr(s, i + 1)
  }

  lemma {:induction false} CStrEnds(s: string, i: nat)
    requires Terminated(s) && i < |s|
    ensures s[i + |CStr(s, i)|] == NUL && NUL !in CStr(s, i)
    decreases |s| - i
  {
    if s[i] == NUL {
    } else {
      CStrEnds(s, i + 1);
    }
  }

  lemma {:induction false} CStrAt(s: string, i: nat, k: nat)
    requires Terminated(s) && i < |s| && k < |CStr(s, i)|
    ensures s[i + k] == CStr(s, i)[k] != NUL
    decreases k
  {
    if k == 0 {
    } else {
      CStrAt(s, i + 1, k - 1);
    }
  }

  lemma {:induction false} CStrDrop(s: string, i: nat, k: nat)
    requires Terminated(s) && i < |s| && k <= |CStr(s, i)|
    ensures CStr(s, i + k) == CStr(s, i)[k..]
    decreases k
  {
    if k == 0 {
    } else {
      CStrDrop(s, i + 1, k - 1);
    }
  }

  /** A C string is known by its characters and the NUL behind them. */
  lemma {:induction false} CStrIs(s: string, i: nat, t: string)
    requires Terminated(s) && NUL !in t && i + |t| < |s| && s[i + |t|] == NUL
    requires forall k :: 0 <= k < |t| ==> s[i + k] == t[k]
    ensures CStr(s, i) == t
    decreases |t|
  {
    if t == "" {
    } else {
      assert s[i + 0] == t[0];
      assert forall k :: 0 <= k < |t[1..]| ==> s[i + 1 + k] == t[1..][k] by {
        assert forall k :: 0 <= k < |t[1..]| ==> t[1..][k] == t[k + 1] == s[i + (k + 1)];
      }
      CStrIs(s, i + 1, t[1..]);
    }
  }

  /** strchr; the length when there is none. */
  function IndexOf(t: string, c: char): (n: nat)
    ensures n <= |t| && c !in t[..n]
    ensures n < |t| ==> t[n] == c
  {
    if t == "" || t[0] == c then 0
    else
      var n := IndexOf(t[1..], c);
      assert t[..n + 1] == [t[0]] + t[1..][..n];
      n + 1
  }

  ghost predicate CrLfAt(t: string, i: nat) {
    i + 1 < |t| && t[i] == '\r' && t[i + 1] == '\n'
  }

  /** strstr for a carriage return and line feed; the length when there is none. */
  function FirstCrLf(t: string): (n: nat)
    ensures n <= |t| && (n < |t| ==> CrLfAt(t, n))
    ensures forall i: nat :: i < n ==> !CrLfAt(t, i)
  {
    if t == "" then 0
    else if |t| > 1 && t[0] == '\r' && t[1] == '\n' then 0
    else
      var n := FirstCrLf(t[1..]);
      assert forall i: nat :: 0 < i < n + 1 ==> (CrLfAt(t, i) <==> CrLfAt(t[1..], i - 1));
      assert n < |t[1..]| ==> CrLfAt(t, n + 1);
      n + 1
  }

  const NEWLINES: set<char> := {'\r', '\n'}

  /** A line feed ends a line only when no carriage return and line feed stand anywhere in the rest. */
  function LineEnd(t: string): (n: nat)
    ensures n <= |t| && (n < |t| ==> t[n] in NEWLINES)
  {
    var n := FirstCrLf(t);
    if n < |t| then n else IndexOf(t, '\n')
  }

  /** What is left behind the leading characters from cs. */
  function SkipAll(t: string, cs: set<char>): (u: string)
    ensures |u| <= |t|
    ensures u != "" ==> u[0] !in cs
  {
    if t != "" && t[0] in cs then SkipAll(t[1..], cs) else t
  }

  datatype Line = NoLine | Line(key: char, value: string, rest: string)

  function NextLine(t: string): (ln: Line)
    ensures ln.Line? ==> |ln.rest| + 2 <= |t|
  {
    var e := LineEnd(t);
    if e < 2 || t[1] != '=' then NoLine
    else Line(t[0], t[2..e], SkipAll(t[e..], NEWLINES))
  }

  /** What load_next_entry leaves in key, value and p; NoEntry when it fails. */
  datatype Cursor = NoEntry | Entry(key: char, value: nat, next: nat)

  ghost predicate Shows(s: string, cur: Cursor, ln: Line) {
    && Terminated(s)
    && match ln
       case NoLine => cur.NoEntry?
       case Line(k, v, r) =>
         && cur.Entry? && cur.key == k && cur.value + |v| <= cur.next < |s|
         && CStr(s, cur.value) == v && CStr(s, cur.next) == r
  }

  /** s with the newlines from a to b overwritten by NULs. */
  ghost predicate Blanked(s: string, u: string, a: nat, b: nat) {
    && a <= b <= |s| == |u|
    && (forall i :: 0 <= i < |s| && !(a <= i < b) ==> u[i] == s[i])
    && (forall i :: a <= i < b ==> u[i] == NUL)
  }

  lemma {:induction false} SkipOne(t: string, cs: set<char>)
    requires t != "" && t[0] in cs
    ensures SkipAll(t, cs) == SkipAll(t[1..], cs)
  {}

  lemma {:induction false} SkipNone(t: string, cs: set<char>)
    requires t == "" || t[0] !in cs
    ensures SkipAll(t, cs) == t
  {}

  lemma {:induction false} BlankOne(s: string, u: string, a: nat, i: nat)
    requires Blanked(s, u, a, i) && i < |s|
    ensures u[i] == s[i] && Blanked(s, u[i := NUL], a, i + 1)
  {}

  /** From a to i there are only characters from cs. */
  ghost predicate Skipped(s: string, a: nat, i: nat, cs: set<char>) {
    && NUL !in cs && Terminated(s) && a < |s| && a <= i <= a + |CStr(s, a)|
    && SkipAll(CStr(s, a), cs) == SkipAll(CStr(s, i), cs)
  }

  /** The loop that steps over characters from cs. */
  method SkipRun(text: array<char>, a: nat, cs: set<char>) returns (i: nat)
    requires Terminated(text[..]) && a < text.Length && NUL !in cs
    ensures Skipped(text[..], a, i, cs) && i < text.Length && text[i] !in cs
  {
    hide CStr, SkipAll, Skipped;
    i := a;
    NothingSkipped(text[..], a, cs);
    while text[i] in cs
      invariant Skipped(text[..], a, i, cs) && i < text.Length
      decreases text.Length - i
    {
      SkippedOne(text[..], a, i, cs);
      i := i + 1;
    }
  }

  /** The same loop where it overwrites each character it steps over. */
  method BlankRun(text: array<char>, a: nat, cs: set<char>) returns (i: nat)
    requires Terminated(text[..]) && a < text.Length && NUL !in cs
    modifies text
    ensures Skipped(old(text[..]), a, i, cs) && Blanked(old(text[..]), text[..], a, i)
    ensures i < text.Length && old(text[..])[i] !in cs
  {
    hide CStr, SkipAll, Skipped, Blanked;
    ghost var s := text[..];
    i := a;
    NothingSkipped(s, a, cs);
    while text[i] in cs
      invariant Skipped(s, a, i, cs) && i < |s| && text.Length == |s|
      invariant Blanked(s, text[..], a, i)
      decreases text.Length - i
    {
      ghost var u := text[..];
      BlankOne(s, u, a, i);
      SkippedOne(s, a, i, cs);
      text[i] := NUL;
      assert text[..] == u[i := NUL];
      i := i + 1;
    }
    BlankOne(s, text[..], a, i);
  }

  lemma {:induction false} NothingSkipped(s: string, a: nat, cs: set<char>)
    requires Terminated(s) && a < |s| && NUL !in cs
    ensures Skipped(s, a, a, cs) && Blanked(s, s, a, a)
  {}

  lemma {:induction false} SkippedOne(s: string, a: nat, i: nat, cs: set<char>)
    requires Skipped(s, a, i, cs) && i < |s| && s[i] in cs
    ensures Skipped(s, a, i + 1, cs) && i + 1 < |s|
  {
    hide CStr, SkipAll;
    CStrDrop(s, a, i - a);
    CStrHead(s, i);
    SkipOne(CStr(s, i), cs);
  }

  lemma {:induction false} CStrHead(s: string, i: nat)
    requires Terminated(s) && i < |s| && s[i] != NUL
    ensures i + 1 < |s| && CStr(s, i) == [s[i]] + CStr(s, i + 1)
  {}

  lemma {:induction false} SkippedAll(s: string, a: nat, i: nat, cs: set<char>)
    requires Skipped(s, a, i, cs) && i < |s| && s[i] !in cs
    ensures CStr(s, i) == SkipAll(CStr(s, a), cs)
    ensures a <= i <= a + |CStr(s, a)| && (s[a] in cs ==> a < i)
  {
    hide CStr, SkipAll;
    if CStr(s, i) != "" {
      CStrAt(s, i, 0);
    }
    SkipNone(CStr(s, i), cs);
  }

  lemma {:induction false} LineEndWithin(s: string, p: nat, e: nat)
    requires Terminated(s) && p < |s| && e == LineEnd(CStr(s, p))
    ensures e < |CStr(s, p)| ==> s[p + e] in NEWLINES
    ensures CStr(s, p + e) == CStr(s, p)[e..]
  {
    hide CStr, LineEnd;
    CStrDrop(s, p, e);
    if e < |CStr(s, p)| {
      CStrAt(s, p, e);
    }
  }

  /** Overwriting from a to b cuts a C string that reaches a there. */
  lemma {:induction false} CutAt(s: string, u: string, i: nat, a: nat, b: nat)
    requires Terminated(s) && Terminated(u) && i <= a < |s| && Blanked(s, u, a, b)
    requires a - i <= |CStr(s, i)| && (a - i < |CStr(s, i)| ==> a < b)
    ensures CStr(u, i) == CStr(s, i)[..a - i]
  {
    hide CStr;
    var t := CStr(s, i)[..a - i];
    CStrEnds(s, i);
    forall k | 0 <= k < |t| ensures u[i + k] == t[k] {
      CStrAt(s, i, k);
    }
    CStrIs(u, i, t);
  }

  lemma {:induction false} KeptBehind(s: string, u: string, i: nat, a: nat, b: nat)
    requires Terminated(s) && Terminated(u) && b <= i < |s| && Blanked(s, u, a, b)
    ensures CStr(u, i) == CStr(s, i)
  {
    hide CStr;
    var t := CStr(s, i);
    CStrEnds(s, i);
    forall k | 0 <= k < |t| ensures u[i + k] == t[k] {
      CStrAt(s, i, k);
    }
    CStrIs(u, i, t);
  }

  /** The line and the rest as C strings, once the newlines between them are overwritten. */
  lemma {:induction false} LineFound(s: string, u: string, p: nat, e: nat, endl: nat)
    requires Terminated(s) && p < |s| && e <= |CStr(s, p)|
    requires p + e <= endl < |s| && (e < |CStr(s, p)| ==> p + e < endl)
    requires Blanked(s, u, p + e, endl)
    ensures Terminated(u) && u[..p] == s[..p]
    ensures CStr(u, p) == CStr(s, p)[..e] && CStr(u, endl) == CStr(s, endl)
  {
    hide CStr;
    CutAt(s, u, p, p + e, endl);
    KeptBehind(s, u, endl, p + e, endl);
  }

  lemma {:induction false} KeyShown(u: string, p: nat, l: string)
    requires Terminated(u) && p < |u| && CStr(u, p) == l
    ensures u[p] == (if l == "" then NUL else l[0]) && (u[p] == NUL <==> l == "")
    ensures l != "" ==> p + 1 < |u| && u[p + 1] == if |l| == 1 then NUL else l[1]
    ensures |l| > 1 ==> p + 2 < |u| && CStr(u, p + 2) == l[2..]
  {
    hide CStr;
    CStrEnds(u, p);
    if l != "" {
      CStrAt(u, p, 0);
    }
    if |l| > 1 {
      CStrAt(u, p, 1);
      CStrDrop(u, p, 2);
    }
  }

  lemma {:induction false} ValueShown(u: string, p: nat, e: nat, endl: nat, t: string)
    requires Terminated(u) && p < |u| && endl < |u| && e == LineEnd(t) && p + e <= endl
    requires CStr(u, p) == t[..e] && CStr(u, endl) == SkipAll(t[e..], NEWLINES)
    ensures u[p] == NUL || p + 1 < |u|
    ensures u[p] == NUL || u[p + 1] != '=' ==> Shows(u, NoEntry, NextLine(t))
    ensures u[p] != NUL && u[p + 1] == '=' ==> Shows(u, Entry(u[p], p + 2, endl), NextLine(t))
  {
    hide CStr, LineEnd, SkipAll;
    KeyShown(u, p, t[..e]);
    assert e > 1 ==> t[..e][2..] == t[2..e];
  }

  lemma {:induction false} EntryFound(s: string, u: string, p: nat, endl: nat)
    requires Terminated(s) && p < |s| && endl < |s|
    requires var a := p + LineEnd(CStr(s, p)); Skipped(s, a, endl, NEWLINES) && Blanked(s, u, a, endl)
    requires s[endl] !in NEWLINES
    ensures Terminated(u) && u[..p] == s[..p] && (u[p] == NUL || p + 1 < |u|)
    ensures forall i :: 0 <= i < |s| && s[i] == NUL ==> u[i] == NUL
    ensures u[p] == NUL || u[p + 1] != '=' ==> Shows(u, NoEntry, NextLine(CStr(s, p)))
    ensures u[p] != NUL && u[p + 1] == '=' ==> Shows(u, Entry(u[p], p + 2, endl), NextLine(CStr(s, p)))
  {
    hide CStr, LineEnd, SkipAll, NextLine, Shows, Blanked, Skipped;
    var e := LineEnd(CStr(s, p));
    LineEndWithin(s, p, e);
    SkippedAll(s, p + e, endl, NEWLINES);
    LineFound(s, u, p, e, endl);
    ValueShown(u, p, e, endl, CStr(s, p));
    NulsStay(s, u, p + e, endl);
  }

  lemma {:induction false} NulsStay(s: string, u: string, a: nat, b: nat)
    requires Blanked(s, u, a, b)
    ensures |u| == |s| && forall i :: 0 <= i < |s| && s[i] == NUL ==> u[i] == NUL
  {}

  method LoadNextEntry(text: array<char>, p: nat) returns (cur: Cursor)
    requires Terminated(text[..]) && p < text.Length
    modifies text
    ensures Terminated(text[..]) && text[..p] == old(text[..p])
    ensures forall i :: 0 <= i < text.Length && old(text[i]) == NUL ==> text[i] == NUL
    ensures cur.Entry? ==> cur.value == p + 2
    ensures Shows(text[..], cur, NextLine(old(CStr(text[..], p))))
  {
    hide CStr, LineEnd, SkipAll, NextLine, Shows, Blanked, Skipped;
    ghost var s := text[..];
    var endl := BlankRun(text, p + LineEnd(CStr(text[..], p)), NEWLINES);
    EntryFound(s, text[..], p, endl);
    assert text[..p] == text[..][..p] == s[..p];
    assert forall i :: 0 <= i < text.Length ==> text[i] == text[..][i] && old(text[i]) == s[i];
    if text[p] == NUL || text[p + 1] != '=' {
      return NoEntry;
    }
    return Entry(text[p], p + 2, endl);
  }

  // ---- Strings that pointers lead to

  /** The strings ts stand in the buffer at the places at, and end no later than bound. */
  ghost predicate Pins(s: string, at: seq<nat>, ts: seq<string>, bound: nat) {
    && Terminated(s) && |at| == |ts|
    && forall i :: 0 <= i < |at| ==> at[i] < |s| && CStr(s, at[i]) == ts[i] && at[i] + |ts[i]| <= bound
  }

  lemma {:induction false} PinsLater(s: string, at: seq<nat>, ts: seq<string>, bound: nat, later: nat)
    requires Pins(s, at, ts, bound) && bound <= later
    ensures Pins(s, at, ts, later)
  {
    hide CStr;
  }

  lemma {:induction false} PinOne(s: string, at: seq<nat>, ts: seq<string>, bound: nat, p: nat)
    requires Pins(s, at, ts, bound) && p < |s| && p + |CStr(s, p)| <= bound
    ensures Pins(s, at + [p], ts + [CStr(s, p)], bound)
  {
    hide CStr;
  }

  /** A string stays as long as its characters and its NUL do. */
  lemma {:induction false} CStrStays(s: string, u: string, i: nat)
    requires Terminated(s) && Terminated(u) && |u| == |s| && i < |s|
    requires forall k :: i <= k < i + |CStr(s, i)| ==> u[k] == s[k]
    requires u[i + |CStr(s, i)|] == NUL
    ensures CStr(u, i) == CStr(s, i)
  {
    hide CStr;
    var t := CStr(s, i);
    CStrEnds(s, i);
    forall k | 0 <= k < |t| ensures u[i + k] == t[k] {
      CStrAt(s, i, k);
    }
    CStrIs(u, i, t);
  }

  /** Reading the next line leaves what ends in front of it. */
  lemma {:induction false} PinsNext(s: string, u: string, at: seq<nat>, ts: seq<string>, p: nat)
    requires Pins(s, at, ts, p) && Terminated(u) && |u| == |s| && p <= |s| && u[..p] == s[..p]
    requires forall i :: 0 <= i < |s| && s[i] == NUL ==> u[i] == NUL
    ensures Pins(u, at, ts, p)
  {
    hide CStr;
    forall i | 0 <= i < |at| ensures CStr(u, at[i]) == ts[i] {
      var t := CStr(s, at[i]);
      forall k | at[i] <= k < at[i] + |t| ensures u[k] == s[k] {
        assert u[..p][k] == s[..p][k];
      }
      CStrEnds(s, at[i]);
      CStrStays(s, u, at[i]);
    }
  }
}
