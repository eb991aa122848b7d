/** Substituting years in one line of a licence header, and filling years into a template line. */
module HeaderLines {
  import opened Strings

  /** The current year; Python's datetime knows none beyond 9999. */
  type Year = y: int | 2014 <= y <= 9999 witness 2014

  const YEAR := "YEAR"

  predicate IsDigit(c: char) { '0' <= c <= '9' }

  function Digit(d: int): char
    requires 0 <= d < 10
  {
    ('0' as int + d) as char
  }

  function YearString(y: int): string
    requires 1000 <= y <= 9999
  {
    [Digit(y / 1000), Digit(y / 100 % 10), Digit(y / 10 % 10), Digit(y % 10)]
  }

  function Value(w: string): int
    requires |w| == 4
  {
    1000 * (w[0] as int - '0' as int) + 100 * (w[1] as int - '0' as int)
    + 10 * (w[2] as int - '0' as int) + (w[3] as int - '0' as int)
  }

  /** One of the alternatives of the date pattern. */
  predicate IsYear(w: string, now: Year) {
    && |w| == 4 && IsDigit(w[0]) && IsDigit(w[1]) && IsDigit(w[2]) && IsDigit(w[3])
    && 2014 <= Value(w) <= now
  }

  lemma DecimalDigits(a: int, b: int, c: int, d: int)
    requires 0 <= a < 10 && 0 <= b < 10 && 0 <= c < 10 && 0 <= d < 10
    ensures var y := 1000 * a + 100 * b + 10 * c + d;
            y / 1000 == a && y / 100 % 10 == b && y / 10 % 10 == c && y % 10 == d
  {
    var y := 1000 * a + 100 * b + 10 * c + d;
    assert y / 100 == 10 * a + b && y / 10 == 100 * a + 10 * b + c;
  }

  lemma YearStringOfValue(w: string, now: Year)
    requires IsYear(w, now)
    ensures w == YearString(Value(w))
  {
    var a, b := w[0] as int - '0' as int, w[1] as int - '0' as int;
    var c, d := w[2] as int - '0' as int, w[3] as int - '0' as int;
    DecimalDigits(a, b, c, d);
    assert w == [Digit(a), Digit(b), Digit(c), Digit(d)];
  }

  lemma DigitsOf(y: int)
    requires 1000 <= y <= 9999
    ensures y == 1000 * (y / 1000) + 100 * (y / 100 % 10) + 10 * (y / 10 % 10) + y % 10
    ensures 0 <= y / 1000 < 10
  {
    assert y / 10 / 10 == y / 100;
    assert y / 100 / 10 == y / 1000;
    assert y == 10 * (y / 10) + y % 10;
    assert y / 10 == 10 * (y / 100) + y / 10 % 10;
    assert y / 100 == 10 * (y / 1000) + y / 100 % 10;
  }

  lemma DigitValue(d: int)
    requires 0 <= d < 10
    ensures IsDigit(Digit(d)) && Digit(d) as int - '0' as int == d
  {
  }

  lemma YearStringIsYear(y: int, now: Year)
    requires 2014 <= y <= now
    ensures IsYear(YearString(y), now)
  {
    DigitsOf(y);
    DigitValue(y / 1000);
    DigitValue(y / 100 % 10);
    DigitValue(y / 10 % 10);
    DigitValue(y % 10);
  }

  /** The alternatives are the years from 2014 up to now, in decimal. */
  lemma YearsOfThePattern(w: string, now: Year)
    ensures IsYear(w, now) <==> exists y :: 2014 <= y <= now && w == YearString(y)
  {
    if IsYear(w, now) {
      YearStringOfValue(w, now);
    } else if y :| 2014 <= y <= now && w == YearString(y) {
      YearStringIsYear(y, now);
    }
  }

  predicate StartsWithYear(s: string, now: Year) { |s| >= 4 && IsYear(s[..4], now) }

  /** The line after every match of the date pattern is replaced, leftmost first. */
  function SubYears(s: string, now: Year): string {
    if s == "" then ""
    else if StartsWithYear(s, now) then YEAR + SubYears(s[4..], now)
    else [s[0]] + SubYears(s[1..], now)
  }

  /** The matches that are replaced. */
  function Years(s: string, now: Year): seq<string> {
    if s == "" then []
    else if StartsWithYear(s, now) then [s[..4]] + Years(s[4..], now)
    else Years(s[1..], now)
  }

  /** A template line with its YEAR slots filled, in order. */
  function Fill(t: string, ys: seq<string>): string {
    if t == "" then ""
    else if YEAR <= t && ys != [] then ys[0] + Fill(t[4..], ys[1..])
    else [t[0]] + Fill(t[1..], ys)
  }

  function Slots(t: string): nat {
    if t == "" then 0 else if YEAR <= t then 1 + Slots(t[4..]) else Slots(t[1..])
  }

  /** Filling replaces the first slot by the first year, and goes on behind it. */
  lemma {:induction false} FillFirstSlot(a: string, b: string, ys: seq<string>)
    requires ys != [] && forall i :: 0 <= i < |a| ==> !(YEAR <= (a + YEAR + b)[i..])
    ensures Fill(a + YEAR + b, ys) == a + ys[0] + Fill(b, ys[1..])
    ensures Slots(a + YEAR + b) == 1 + Slots(b)
  {
    var t := a + YEAR + b;
    assert t[0..] == t;
    if a == "" {
      assert YEAR <= t && t[4..] == b;
    } else {
      assert t[1..] == a[1..] + YEAR + b;
      forall i | 0 <= i < |a| - 1 ensures !(YEAR <= (a[1..] + YEAR + b)[i..]) {
        assert t[i + 1..] == (a[1..] + YEAR + b)[i..];
      }
      FillFirstSlot(a[1..], b, ys);
      assert a == [a[0]] + a[1..];
    }
  }

  ghost predicate AllYears(ys: seq<string>, now: Year) {
    forall i :: 0 <= i < |ys| ==> IsYear(ys[i], now)
  }

  ghost predicate DateFree(t: string, now: Year) {
    forall i :: 0 <= i <= |t| ==> !StartsWithYear(t[i..], now)
  }

  /** No digit stands right before a slot, where it could complete a year of its own. */
  ghost predicate DigitSafe(t: string) {
    forall i :: 0 <= i < |t| && IsDigit(t[i]) ==> !(YEAR <= t[i + 1..])
  }

  lemma {:induction false} SlotsIff(t: string)
    ensures Slots(t) > 0 <==> Contains(t, YEAR)
  {
    if t != "" && !(YEAR <= t) { SlotsIff(t[1..]); }
  }

  lemma {:induction false} DateFreeIff(t: string, now: Year)
    ensures DateFree(t, now) <==> Years(t, now) == []
    ensures DateFree(t, now) ==> SubYears(t, now) == t
  {
    assert t[0..] == t;
    if t != "" && !StartsWithYear(t, now) {
      DateFreeIff(t[1..], now);
      forall i | 0 <= i < |t| ensures t[1..][i..] == t[i + 1..] {}
      if DateFree(t, now) {
        forall i | 0 <= i < |t| ensures !StartsWithYear(t[1..][i..], now) {}
      }
      if DateFree(t[1..], now) {
        forall i | 0 < i <= |t| ensures !StartsWithYear(t[i..], now) {
          assert !StartsWithYear(t[1..][i - 1..], now);
        }
      }
    }
  }

  // ----- From a line to its template -----

  lemma {:induction false} SubKeepsPrefix(d: string, u: string, now: Year)
    requires 'Y' !in u && u <= SubYears(d, now)
    ensures u <= d
  {
    if u != "" {
      assert u[0] == SubYears(d, now)[0];
      assert !StartsWithYear(d, now);
      assert u[1..] <= SubYears(d[1..], now);
      SubKeepsPrefix(d[1..], u[1..], now);
    }
  }

  /** Refilling the years that were substituted gives the line back. */
  lemma {:induction false} FillAfterSub(d: string, now: Year)
    requires !Contains(d, YEAR)
    ensures Fill(SubYears(d, now), Years(d, now)) == d
    ensures Slots(SubYears(d, now)) == |Years(d, now)|
    ensures AllYears(Years(d, now), now)
  {
    if d == "" {
    } else if StartsWithYear(d, now) {
      assert d == d[..4] + d[4..];
      if Contains(d[4..], YEAR) { ContainsAfter(d[..4], d[4..], YEAR); }
      FillAfterSub(d[4..], now);
      assert (YEAR + SubYears(d[4..], now))[4..] == SubYears(d[4..], now);
    } else {
      FillAfterSub(d[1..], now);
      var t := [d[0]] + SubYears(d[1..], now);
      assert t[1..] == SubYears(d[1..], now);
      if YEAR <= t {
        assert "EAR" <= SubYears(d[1..], now) by { assert YEAR[1..] == "EAR" && YEAR[1..] <= t[1..]; }
        SubKeepsPrefix(d[1..], "EAR", now);
      }
    }
  }

  // ----- From a template to a line -----

  lemma DigitSafeTail(t: string, n: nat)
    requires DigitSafe(t) && n <= |t|
    ensures DigitSafe(t[n..])
  {
    forall i | 0 <= i < |t[n..]| && IsDigit(t[n..][i]) ensures !(YEAR <= t[n..][i + 1..]) {
      assert t[n + i + 1..] == t[n..][i + 1..];
    }
  }

  lemma {:induction false} FillKeepsDigits(t: string, ys: seq<string>, u: string)
    requires DigitSafe(t) && !(YEAR <= t)
    requires u <= Fill(t, ys) && forall c :: c in u ==> IsDigit(c)
    ensures u <= t
  {
    if u != "" {
      assert u[0] in u && u[0] == t[0];
      if |u| > 1 {
        DigitSafeTail(t, 1);
        assert u[1..] <= Fill(t[1..], ys);
        FillKeepsDigits(t[1..], ys, u[1..]);
      }
    }
  }

  lemma {:induction false} FillKeepsText(t: string, ys: seq<string>, u: string, now: Year)
    requires AllYears(ys, now)
    requires u <= Fill(t, ys) && forall c :: c in u ==> !IsDigit(c)
    ensures u <= t
  {
    if u != "" {
      assert u[0] in u && u[0] == Fill(t, ys)[0];
      if YEAR <= t && ys != [] {
        assert false;
      } else {
        assert u[1..] <= Fill(t[1..], ys);
        FillKeepsText(t[1..], ys, u[1..], now);
      }
    }
  }

  ghost predicate CleanLine(t: string, now: Year) { DateFree(t, now) && DigitSafe(t) }

  lemma CleanTail(t: string, n: nat, now: Year)
    requires CleanLine(t, now) && n <= |t|
    ensures CleanLine(t[n..], now)
  {
    DigitSafeTail(t, n);
    forall i | 0 <= i <= |t[n..]| ensures !StartsWithYear(t[n..][i..], now) {
      assert t[n..][i..] == t[n + i..];
    }
  }

  /** Filling the slots of a clean template line gives a line that substitutes back to it. */
  lemma {:induction false} SubAfterFill(t: string, ys: seq<string>, now: Year)
    requires CleanLine(t, now) && AllYears(ys, now) && |ys| == Slots(t)
    ensures SubYears(Fill(t, ys), now) == t
    ensures Years(Fill(t, ys), now) == ys
    ensures !Contains(Fill(t, ys), YEAR)
  {
    var d := Fill(t, ys);
    if t == "" {
    } else if YEAR <= t {
      CleanTail(t, 4, now);
      SubAfterFill(t[4..], ys[1..], now);
      assert IsYear(ys[0], now) && d[..4] == ys[0] && d[4..] == Fill(t[4..], ys[1..]);
      assert t == YEAR + t[4..];
      NoYearFieldAcross(ys[0], d[4..], now);
    } else {
      assert t[0..] == t;
      CleanTail(t, 1, now);
      SubAfterFill(t[1..], ys, now);
      assert d[1..] == Fill(t[1..], ys);
      if StartsWithYear(d, now) {
        FillKeepsDigits(t, ys, d[..4]);
      }
      if YEAR <= d {
        FillKeepsText(t, ys, YEAR, now);
      }
    }
  }

  lemma NoYearFieldAcross(y: string, rest: string, now: Year)
    requires IsYear(y, now) && !Contains(rest, YEAR)
    ensures !Contains(y + rest, YEAR)
  {
    var s := y + rest;
    assert s[1..][1..][1..][1..] == rest;
    assert !Contains(s[1..][1..][1..], YEAR);
    assert !Contains(s[1..][1..], YEAR);
    assert !Contains(s[1..], YEAR);
  }

  /** The lines a clean template line accepts are exactly its fillings with supported years. */
  lemma LineIff(t: string, d: string, now: Year)
    requires CleanLine(t, now)
    ensures !Contains(d, YEAR) && SubYears(d, now) == t
       <==> exists ys :: AllYears(ys, now) && |ys| == Slots(t) && d == Fill(t, ys)
  {
    if !Contains(d, YEAR) && SubYears(d, now) == t {
      FillAfterSub(d, now);
    }
    if ys :| AllYears(ys, now) && |ys| == Slots(t) && d == Fill(t, ys) {
      SubAfterFill(t, ys, now);
    }
  }
}
