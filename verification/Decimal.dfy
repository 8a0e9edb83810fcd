/** Decimal numbers as printf writes them and as strtol and strtoll read them. */
module Decimal {

  const LONG_MIN := -0x8000_0000_0000_0000
  const LONG_MAX := 0x7FFF_FFFF_FFFF_FFFF

  predicate IsDigit(c: char) {
    '0' <= c <= '9'
  }

  /** isspace of the C locale. */
  predicate IsSpace(c: char) {
    c == ' ' || '\t' <= c <= '\r'
  }

  function Digits(n: nat): (s: string)
    ensures s != "" && forall i :: 0 <= i < |s| ==> IsDigit(s[i])
  {
    (if n < 10 then "" else Digits(n / 10)) + [('0' as int + n % 10) as char]
  }

  /** What %d, %ld and %lld print. */
  function Dec(n: int): string {
    if n < 0 then "-" + Digits(-n) else Digits(n)
  }

  function Value(s: string): nat
    requires forall i :: 0 <= i < |s| ==> IsDigit(s[i])
  {
    if s == "" then 0
    else
      assert IsDigit(s[|s| - 1]);
      10 * Value(s[..|s| - 1]) + (s[|s| - 1] as int - '0' as int)
  }

  function Blanks(s: string): (n: nat)
    ensures n <= |s|
  {
    if s != "" && IsSpace(s[0]) then 1 + Blanks(s[1..]) else 0
  }

  /** How many digits s starts with. */
  function Run(s: string): (n: nat)
    ensures n <= |s| && forall i :: 0 <= i < n ==> IsDigit(s[i])
  {
    if s != "" && IsDigit(s[0]) then 1 + Run(s[1..]) else 0
  }

  /** Out of range values saturate. */
  function Clamp(n: int): int {
    if n < LONG_MIN then LONG_MIN else if n > LONG_MAX then LONG_MAX else n
  }

  /** strtol in base ten: the value, and how many characters were converted (none when there is no digit). */
  function StrToL(s: string): (r: (int, nat))
    ensures r.1 <= |s|
    ensures LONG_MIN <= r.0 <= LONG_MAX
    ensures r.1 == 0 ==> r.0 == 0
  {
    var w := Blanks(s);
    var signed := w < |s| && (s[w] == '-' || s[w] == '+');
    var k := if signed then w + 1 else w;
    var n := Run(s[k..]);
    if n == 0 then (0, 0)
    else
      var v: int := Value(s[k..][..n]);
      (Clamp(if signed && s[w] == '-' then -v else v), k + n)
  }

  lemma {:induction false} ValueOfDigits(n: nat)
    ensures Value(Digits(n)) == n
  {
    if n < 10 {
    } else {
      ValueOfDigits(n / 10);
      var s := Digits(n);
      assert s[..|s| - 1] == Digits(n / 10);
    }
  }

  predicate StopsNumber(t: string) {
    t == "" || !IsDigit(t[0])
  }

  lemma {:induction false} RunOfDigits(s: string, t: string)
    requires forall i :: 0 <= i < |s| ==> IsDigit(s[i])
    requires StopsNumber(t)
    ensures Run(s + t) == |s|
  {
    if s == "" {
      assert s + t == t;
    } else {
      RunOfDigits(s[1..], t);
      assert (s + t)[1..] == s[1..] + t;
    }
  }

  lemma {:induction false} ReadDigits(n: nat, k: nat, s: string, t: string)
    requires k <= |s| && s[k..] == Digits(n) + t && StopsNumber(t)
    ensures Run(s[k..]) == |Digits(n)| && s[k..][..|Digits(n)|] == Digits(n)
    ensures Value(s[k..][..|Digits(n)|]) == n
  {
    hide Digits, Value, Run;
    ValueOfDigits(n);
    RunOfDigits(Digits(n), t);
  }

  lemma {:induction false} ReadSign(s: string)
    requires s != "" && (IsDigit(s[0]) || s[0] == '-')
    ensures Blanks(s) == 0
  {}

  /** Reading back what was printed. */
  lemma {:induction false} DecRead(n: int, t: string)
    requires LONG_MIN <= n <= LONG_MAX && StopsNumber(t)
    ensures StrToL(Dec(n) + t) == (n, |Dec(n)|)
  {
    hide Digits, Value, Run, Blanks;
    var s := Dec(n) + t;
    ReadSign(s);
    if n < 0 {
      assert s[1..] == Digits(-n) + t;
      ReadDigits(-n, 1, s, t);
    } else {
      assert s[0..] == s;
      ReadDigits(n, 0, s, t);
    }
  }

  lemma {:induction false} DecStarts(n: int)
    ensures Dec(n) != "" && (IsDigit(Dec(n)[0]) || Dec(n)[0] == '-')
    ensures forall i :: 0 <= i < |Dec(n)| ==> IsDigit(Dec(n)[i]) || Dec(n)[i] == '-'
  {
    hide Digits;
  }

  // --- strtol on any text ---

  /** The characters that strtol passes over in front of a number. */
  predicate White(w: string) {
    forall i :: 0 <= i < |w| ==> w[i] in {' ', '\t', '\n', '\U{000B}', '\U{000C}', '\r'}
  }

  lemma {:induction false} BlanksOf(w: string, t: string)
    requires White(w) && (t == "" || !White(t[..1]))
    ensures Blanks(w + t) == |w|
  {
    if w == "" {
      assert w + t == t;
      assert t != "" ==> t[..1] == [t[0]];
    } else {
      BlanksOf(w[1..], t);
      assert (w + t)[1..] == w[1..] + t;
    }
  }

  /** Spaces, perhaps a sign, and digits: the value they stand for, kept within a long, and where they end. */
  lemma {:induction false} LongRead(w: string, sign: string, ds: string, t: string)
    requires White(w) && sign in ["", "+", "-"] && StopsNumber(t)
    requires ds != "" && forall i :: 0 <= i < |ds| ==> IsDigit(ds[i])
    ensures var (v, n) := StrToL(w + (sign + (ds + t)));
      var x: int := Value(ds);
      && n == |w| + |sign| + |ds|
      && (sign != "-" ==> v == if x < 0x8000_0000_0000_0000 then x else 0x7FFF_FFFF_FFFF_FFFF)
      && (sign == "-" ==> v == if x <= 0x8000_0000_0000_0000 then -x else -0x8000_0000_0000_0000)
  {
    hide Value, Run, Blanks;
    var u := sign + (ds + t);
    var s, k := w + u, |w| + |sign|;
    assert u[..1] == [u[0]] && !White(u[..1]);
    BlanksOf(w, u);
    assert s[|w|] == u[0] && s[k..] == ds + t;
    RunOfDigits(ds, t);
    assert s[k..][..|ds|] == ds;
  }

  /** Where no digits stand behind spaces and a sign, nothing is read. */
  lemma {:induction false} LongMissing(w: string, sign: string, t: string)
    requires White(w) && sign in ["", "+", "-"] && StopsNumber(t)
    requires sign == "" && t != "" ==> !White(t[..1]) && t[0] != '+' && t[0] != '-'
    ensures StrToL(w + (sign + t)) == (0, 0)
  {
    hide Value, Blanks;
    var u := sign + t;
    var s, k := w + u, |w| + |sign|;
    assert u != "" ==> u[..1] == [u[0]];
    assert sign == "" ==> u == t;
    BlanksOf(w, u);
    assert |w| < |s| ==> s[|w|] == u[0];
    assert s[k..] == t;
    assert Run(t) == 0;
  }
}
