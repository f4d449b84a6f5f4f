/** The numbering of a new season (app.js:1103-1105): the first run of decimal
    digits in the current season's name, read as a number, plus one; the number
    of seasons plus one when the name holds no digit. The result is written back
    into the name `Season N`. */
module SeasonNames {

  /** The characters `\d` matches (ASCII digits only). */
  predicate IsDigit(c: char) {
    '0' <= c <= '9'
  }

  predicate AllDigits(s: string) {
    forall k :: 0 <= k < |s| ==> IsDigit(s[k])
  }

  predicate NoDigit(s: string) {
    forall k :: 0 <= k < |s| ==> !IsDigit(s[k])
  }

  /** The longest prefix of `s` made of digits. */
  function DigitsFrom(s: string): (run: string)
    ensures |run| <= |s| && run == s[..|run|]
    ensures AllDigits(run)
    ensures |run| == |s| || !IsDigit(s[|run|])
  {
    if s == [] || !IsDigit(s[0]) then []
    else
      var rest := DigitsFrom(s[1..]);
      assert s[1..][..|rest|] == s[1..|rest| + 1];
      [s[0]] + rest
  }

  /** The position of the first digit of `s`; `|s|` when there is none. */
  function FirstDigit(s: string): (i: nat)
    ensures i <= |s| && (i < |s| ==> IsDigit(s[i]))
    ensures forall k :: 0 <= k < i ==> !IsDigit(s[k])
  {
    if s == [] || IsDigit(s[0]) then 0
    else
      var i := FirstDigit(s[1..]);
      assert forall k :: 1 <= k < i + 1 ==> s[k] == s[1..][k - 1];
      i + 1
  }

  /** What `(\d+)` captures: the first maximal run of digits, empty when there is
      none. */
  function FirstDigitRun(s: string): (run: string)
    ensures run == [] <==> NoDigit(s)
    ensures var i := FirstDigit(s);
            i + |run| <= |s| && s[i..i + |run|] == run && AllDigits(run)
            && (i + |run| == |s| || !IsDigit(s[i + |run|]))
  {
    var i := FirstDigit(s);
    var run := DigitsFrom(s[i..]);
    assert s[i..][..|run|] == s[i..i + |run|];
    assert |run| < |s[i..]| ==> s[i..][|run|] == s[i + |run|];
    run
  }

  function DigitValue(c: char): nat
    requires IsDigit(c)
  {
    (c as int) - ('0' as int)
  }

  function Digit(d: nat): (c: char)
    requires d < 10
    ensures IsDigit(c) && DigitValue(c) == d
  {
    ('0' as int + d) as char
  }

  /** `parseInt(run, 10)` on a run of digits. */
  function DecimalValue(run: string): nat
    requires AllDigits(run)
  {
    if run == [] then 0 else DecimalValue(run[..|run| - 1]) * 10 + DigitValue(run[|run| - 1])
  }

  /** The decimal spelling of `n`, as a template literal prints it. */
  function NatToString(n: nat): (s: string)
    ensures |s| >= 1 && AllDigits(s)
    ensures |s| > 1 ==> s[0] != '0'
  {
    if n < 10 then [Digit(n)] else NatToString(n / 10) + [Digit(n % 10)]
  }

  /** The number of the season that follows one named `name` in a league that
      has `count` seasons. */
  function NextNumber(name: string, count: nat): nat {
    var run := FirstDigitRun(name);
    if run == [] then count + 1 else DecimalValue(run) + 1
  }

  function SeasonName(n: nat): string {
    "Season " + NatToString(n)
  }

  /** Reading back a printed number gives the number. */
  lemma {:induction false} DecimalRoundTrip(n: nat)
    ensures DecimalValue(NatToString(n)) == n
  {
    if n >= 10 {
      var s := NatToString(n);
      assert s[..|s| - 1] == NatToString(n / 10);
      DecimalRoundTrip(n / 10);
    }
  }

  /** A run of digits is its own longest digit prefix. */
  lemma {:induction false} DigitsFromAll(s: string)
    requires AllDigits(s)
    ensures DigitsFrom(s) == s
  {
    if s != [] {
      DigitsFromAll(s[1..]);
    }
  }

  /** A digit-free prefix is skipped by the search. */
  lemma {:induction false} FirstDigitRunSkips(p: string, t: string)
    requires NoDigit(p)
    ensures FirstDigitRun(p + t) == FirstDigitRun(t)
  {
    FirstDigitShifts(p, t);
    assert (p + t)[|p| + FirstDigit(t)..] == t[FirstDigit(t)..];
  }

  lemma {:induction false} FirstDigitShifts(p: string, t: string)
    requires NoDigit(p)
    ensures FirstDigit(p + t) == |p| + FirstDigit(t)
  {
    if p != [] {
      assert (p + t)[1..] == p[1..] + t;
      FirstDigitShifts(p[1..], t);
    } else {
      assert p + t == t;
    }
  }

  /** The number of a season named by this rule, whatever the season count:
      each new season created from the newest one counts up by one. */
  lemma SeasonNumberCountsUp(n: nat, count: nat)
    ensures NextNumber(SeasonName(n), count) == n + 1
  {
    var ds := NatToString(n);
    FirstDigitRunSkips("Season ", ds);
    DigitsFromAll(ds);
    DecimalRoundTrip(n);
  }

  /** A name without digits falls back on the season count. */
  lemma NoDigitFallsBack(name: string, count: nat)
    requires NoDigit(name)
    ensures NextNumber(name, count) == count + 1
  {
  }
}
