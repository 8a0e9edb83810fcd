/** Typed times of a session description (RFC 4566, section 5.10): a line in days, hours and minutes
    reads as the same line in seconds. */
module SdpUnits {
  import opened Decimal
  import opened SdpText
  import opened SdpTokens
  import opened SdpTokensBack
  import opened Sdp
  import opened SdpRoundTrip

  datatype Timed = Days(n: int) | Hours(n: int) | Minutes(n: int) | Seconds(n: int)

  /** A time as it is written. */
  function TimedText(t: Timed): string {
    match t
    case Days(n) => Dec(n) + "d"
    case Hours(n) => Dec(n) + "h"
    case Minutes(n) => Dec(n) + "m"
    case Seconds(n) => Dec(n)
  }

  /** The seconds it stands for: 24 hours to a day, 60 minutes to an hour, 60 seconds to a minute. */
  function InSeconds(t: Timed): int {
    match t
    case Days(n) => 24 * 60 * 60 * n
    case Hours(n) => 60 * 60 * n
    case Minutes(n) => 60 * n
    case Seconds(n) => n
  }

  predicate InRange(t: Timed) {
    LONG_MIN <= InSeconds(t) <= LONG_MAX
  }

  function AllSeconds(ts: seq<Timed>): seq<int> {
    if ts == [] then [] else [InSeconds(ts[0])] + AllSeconds(ts[1..])
  }

  function TimedLine(ts: seq<Timed>): string {
    if ts == [] then ""
    else if |ts| == 1 then TimedText(ts[0])
    else TimedText(ts[0]) + " " + TimedLine(ts[1..])
  }

  ghost predicate AllInRange(ts: seq<Timed>) {
    forall i :: 0 <= i < |ts| ==> InRange(ts[i])
  }

  lemma {:induction false} Unwrapped(n: int)
    requires LONG_MIN <= n <= LONG_MAX
    ensures Wrap64(n) == n
  {}

  /** A number with a letter behind it. */
  lemma {:induction false} ToTimeOf(n: int, c: char, t: string)
    requires LONG_MIN <= n <= LONG_MAX && c in ['d', 'h', 'm']
    ensures ToTime(Dec(n) + [c] + t) == (N(Wrap64(n * Unit(c))), t)
  {
    hide Dec, StrToL, Wrap64;
    var s := Dec(n) + [c] + t;
    assert s == Dec(n) + ([c] + t);
    DecRead(n, [c] + t);
    DecStarts(n);
    assert s[|Dec(n)|] == c && s[|Dec(n)| + 1..] == t;
  }

  /** One time is read in seconds, and what stands behind it is left. */
  lemma {:induction false} TimedRead(x: Timed, t: string)
    requires InRange(x) && Ends(t, ' ')
    ensures ToTime(TimedText(x) + t) == (N(InSeconds(x)), t)
  {
    hide Dec, StrToL, Wrap64, ToTime;
    Unwrapped(InSeconds(x));
    match x
    case Days(n) => ToTimeOf(n, 'd', t);
    case Hours(n) => ToTimeOf(n, 'h', t);
    case Minutes(n) => ToTimeOf(n, 'm', t);
    case Seconds(n) => TakeDecimal(n, t, ' ', Time);
  }

  /** Days, hours, minutes and seconds that amount to the same read the same. */
  lemma {:induction false} UnitsAgree(n: int, t: string)
    requires LONG_MIN <= 86400 * n <= LONG_MAX && Ends(t, ' ')
    ensures ToTime(Dec(n) + "d" + t) == ToTime(Dec(24 * n) + "h" + t) == ToTime(Dec(1440 * n) + "m" + t)
         == ToTime(Dec(86400 * n) + t) == (N(86400 * n), t)
  {
    hide Dec, ToTime;
    TimedRead(Days(n), t);
    TimedRead(Hours(24 * n), t);
    TimedRead(Minutes(1440 * n), t);
    TimedRead(Seconds(86400 * n), t);
  }

  // --- lines ---

  lemma {:induction false} TimedStarts(x: Timed)
    ensures TimedText(x) != "" && TimedText(x)[0] != ' '
  {
    hide Dec;
    DecStarts(x.n);
  }

  lemma {:induction false} LineStarts(ts: seq<Timed>)
    ensures SkipAll(TimedLine(ts), {' '}) == TimedLine(ts)
    ensures ts != [] ==> TimedLine(ts) != ""
  {
    hide TimedText;
    if ts != [] {
      TimedStarts(ts[0]);
    }
  }

  /** Reading one time off a line. */
  lemma {:induction false} LineStep(ts: seq<Timed>, fmt: seq<Conv>)
    requires ts != [] && AllInRange(ts) && fmt != [] && fmt[0] == Time
    ensures var r := Split(TimedLine(ts[1..]), ' ', fmt[1..]);
      Split(TimedLine(ts), ' ', fmt) == ([N(InSeconds(ts[0]))] + r.0, r.1)
  {
    hide TimedText, SkipAll, ToTime, InSeconds, InRange, SplitFrom;
    var x, rest := ts[0], TimedLine(ts[1..]);
    var y := if |ts| == 1 then "" else " " + rest;
    LineStarts(ts);
    LineStarts(ts[1..]);
    TimedRead(x, y);
    assert TimedLine(ts) == TimedText(x) + y;
    if |ts| == 1 {
      assert ts[1..] == [];
      SkipNone("", {' '});
    } else {
      SkipSpace(rest);
    }
    SplitFromTime(TimedText(x) + y, InSeconds(x), y, fmt);
  }

  lemma {:induction false} SplitFromTime(s: string, n: int, y: string, fmt: seq<Conv>)
    requires fmt != [] && fmt[0] == Time && ToTime(s) == (N(n), y)
    ensures var r := SplitFrom(SkipAll(y, {' '}), ' ', fmt[1..]); SplitFrom(s, ' ', fmt) == ([N(n)] + r.0, r.1)
  {
    hide ToTime, SkipAll;
  }

  lemma {:induction false} SplitNothing(s: string)
    ensures Split(s, ' ', []) == ([], SkipAll(s, {' '}))
  {}

  lemma {:induction false} TwoTimes(ts: seq<Timed>)
    requires |ts| >= 2 && AllInRange(ts)
    ensures Split(TimedLine(ts), ' ', [Time, Time])
         == ([N(InSeconds(ts[0])), N(InSeconds(ts[1]))], TimedLine(ts[2..]))
  {
    hide InSeconds, InRange, TimedLine, Split;
    var fmt, a, b := [Time, Time], N(InSeconds(ts[0])), N(InSeconds(ts[1]));
    assert fmt[1..] == [Time] && [Time][1..] == [] && ts[1..][1..] == ts[2..] && ts[1..][0] == ts[1];
    LineStep(ts, fmt);
    LineStep(ts[1..], [Time]);
    SplitNothing(TimedLine(ts[2..]));
    LineStarts(ts[2..]);
    assert [b] + [] == [b] && [a] + [b] == [a, b];
  }

  lemma {:induction false} NumbersTimed(ts: seq<Timed>)
    requires AllInRange(ts)
    ensures Numbers(TimedLine(ts), Time) == AllSeconds(ts)
    decreases |ts|
  {
    hide InSeconds, InRange, TimedLine, Split;
    LineStarts(ts);
    if ts == [] {
      NoTimes();
    } else {
      assert [Time][1..] == [];
      LineStep(ts, [Time]);
      SplitNothing(TimedLine(ts[1..]));
      LineStarts(ts[1..]);
      NumbersTimed(ts[1..]);
    }
  }

  lemma {:induction false} NoTimes()
    ensures TimedLine([]) == ""
  {}

  /** A repeat line in any units is the repeat in seconds. */
  lemma {:induction false} RepeatTimed(ts: seq<Timed>)
    requires |ts| >= 2 && AllInRange(ts)
    ensures RepeatOf(TimedLine(ts)) == Repeat(InSeconds(ts[0]), InSeconds(ts[1]), AllSeconds(ts[2..]))
  {
    hide InSeconds, InRange, TimedLine, Split, Numbers, AllSeconds;
    TwoTimes(ts);
    NumbersTimed(ts[2..]);
  }

  /** A time line in any units. */
  lemma {:induction false} TimeTimed(ts: seq<Timed>, repeats: seq<Repeat>)
    requires |ts| >= 2 && AllInRange(ts)
    ensures TimeOf(TimedLine(ts), repeats) == TimeField(InSeconds(ts[0]), InSeconds(ts[1]), repeats)
  {
    hide InSeconds, InRange, TimedLine, Split;
    TwoTimes(ts);
  }

  /** The adjustments and offsets of a zone line, two by two. */
  function Paired(xs: seq<int>): seq<Zone>
    requires |xs| % 2 == 0
  {
    if xs == [] then [] else [Zone(xs[0], xs[1])] + Paired(xs[2..])
  }

  lemma {:induction false} AllSecondsTwo(ts: seq<Timed>)
    ensures |AllSeconds(ts)| == |ts|
    ensures |ts| >= 2 ==>
      AllSeconds(ts)[0] == InSeconds(ts[0]) && AllSeconds(ts)[1] == InSeconds(ts[1])
      && AllSeconds(ts)[2..] == AllSeconds(ts[2..])
  {
    hide InSeconds;
    if ts == [] {
    } else {
      AllSecondsTwo(ts[1..]);
      if |ts| >= 2 {
        assert ts[1..][1..] == ts[2..] && ts[1..][0] == ts[1];
        assert AllSeconds(ts[1..]) == [InSeconds(ts[1])] + AllSeconds(ts[2..]);
      }
    }
  }

  /** A zone line in any units. */
  lemma {:induction false} ZonesTimed(ts: seq<Timed>)
    requires |ts| % 2 == 0 && AllInRange(ts)
    ensures |AllSeconds(ts)| == |ts| && ZonesOf(TimedLine(ts)) == Paired(AllSeconds(ts))
    decreases |ts|
  {
    hide InSeconds, InRange, TimedLine, Split, AllSeconds;
    AllSecondsTwo(ts);
    LineStarts(ts);
    if ts == [] {
      NoTimes();
    } else {
      TwoTimes(ts);
      ZonesTimed(ts[2..]);
    }
  }

  /** The example of the standard: once a week, for an hour, at the start and 25 hours later. */
  lemma {:induction false} WeeklyRepeat()
    ensures RepeatOf("7d 1h 0 25h") == Repeat(604800, 3600, [0, 90000])
  {
    hide RepeatOf, TimedLine, AllSeconds;
    var ts := [Days(7), Hours(1), Seconds(0), Hours(25)];
    RepeatTimed(ts);
    assert ts[2..] == [Seconds(0), Hours(25)];
    SampleLine();
    SampleSeconds();
  }

  lemma {:induction false} SampleSeconds()
    ensures AllSeconds([Seconds(0), Hours(25)]) == [0, 90000]
  {
    assert [Seconds(0), Hours(25)][1..] == [Hours(25)] && [Hours(25)][1..] == [];
    assert AllSeconds([Hours(25)]) == [90000];
  }

  lemma {:induction false} LineMore(x: Timed, ts: seq<Timed>)
    requires ts != []
    ensures TimedLine([x] + ts) == TimedText(x) + " " + TimedLine(ts)
  {
    hide TimedText;
    assert ([x] + ts)[1..] == ts;
  }

  lemma {:induction false} SampleLine()
    ensures TimedLine([Days(7), Hours(1), Seconds(0), Hours(25)]) == "7d 1h 0 25h"
  {
    hide TimedLine, Dec;
    SampleDigits();
    LineMore(Seconds(0), [Hours(25)]);
    LineMore(Hours(1), [Seconds(0), Hours(25)]);
    LineMore(Days(7), [Hours(1), Seconds(0), Hours(25)]);
    assert [Seconds(0)] + [Hours(25)] == [Seconds(0), Hours(25)];
    assert [Hours(1)] + [Seconds(0), Hours(25)] == [Hours(1), Seconds(0), Hours(25)];
    assert [Days(7)] + [Hours(1), Seconds(0), Hours(25)] == [Days(7), Hours(1), Seconds(0), Hours(25)];
    assert TimedLine([Hours(25)]) == "25h" by { LastOfLine(Hours(25)); }
  }

  lemma {:induction false} LastOfLine(x: Timed)
    ensures TimedLine([x]) == TimedText(x)
  {}

  lemma {:induction false} SampleDigits()
    ensures Dec(7) == "7" && Dec(1) == "1" && Dec(0) == "0" && Dec(25) == "25"
  {
    assert Digits(2) == "2" && Digits(25) == Digits(2) + "5";
  }
}
