/** itoa of internal/tui/styles.go and commaSep of bench.go. */
module Decimal {

  predicate Digits(s: string) { s != "" && forall i :: 0 <= i < |s| ==> '0' <= s[i] <= '9' }

  /** The number a string of decimal digits denotes. */
  function Value(s: string): nat
    requires forall i :: 0 <= i < |s| ==> '0' <= s[i] <= '9'
  {
    if s == "" then 0 else 10 * Value(s[..|s| - 1]) + (s[|s| - 1] as nat - '0' as nat)
  }

  /** The decimal numeral of n: its digits, no leading zero unless n is 0. */
  ghost predicate Numeral(s: string, n: nat) {
    Digits(s) && Value(s) == n && (n > 0 ==> s[0] != '0') && (n == 0 ==> s == "0")
  }

  function Digit(d: nat): char
    requires d < 10
  {
    ('0' as nat + d) as char
  }

  /** The digits of n, most significant first. */
  function Digits10(n: nat): string {
    (if n < 10 then "" else Digits10(n / 10)) + [Digit(n % 10)]
  }

  lemma ValueLast(s: string, d: nat)
    requires (forall i :: 0 <= i < |s| ==> '0' <= s[i] <= '9') && d < 10
    ensures Digits(s + [Digit(d)]) && Value(s + [Digit(d)]) == 10 * Value(s) + d
  {
    assert (s + [Digit(d)])[..|s|] == s;
  }

  lemma {:induction false} DigitsAreNumeral(n: nat)
    ensures Numeral(Digits10(n), n)
  {
    if n < 10 {
      ValueLast("", n);
      assert "" + [Digit(n)] == [Digit(n)];
    } else {
      DigitsAreNumeral(n / 10);
      ValueLast(Digits10(n / 10), n % 10);
    }
  }

  /** itoa: digits are prepended while n lasts. */
  method Itoa(n: nat) returns (s: string)
    ensures Numeral(s, n)
  {
    if n == 0 {
      DigitsAreNumeral(0);
      return "0";
    }
    var digits: string := "";
    var m := n;
    assert Digits10(n) + "" == Digits10(n);
    while m > 0
      invariant Digits10(n) == if m == 0 then digits else Digits10(m) + digits
    {
      PrependDigit(m, digits);
      digits := [Digit(m % 10)] + digits;
      m := m / 10;
    }
    DigitsAreNumeral(n);
    s := digits;
  }

  lemma PrependDigit(m: nat, digits: string)
    requires m > 0
    ensures var more := [Digit(m % 10)] + digits;
      Digits10(m) + digits == if m / 10 == 0 then more else Digits10(m / 10) + more
  {
    if m >= 10 { assert Digits10(m) + digits == Digits10(m / 10) + ([Digit(m % 10)] + digits); }
  }

  lemma {:induction false} LongIsLarge(s: string)
    requires Digits(s) && s[0] != '0'
    ensures Value(s) >= 1 && (|s| >= 2 ==> Value(s) >= 10)
    decreases |s|
  {
    if |s| >= 2 { LongIsLarge(s[..|s| - 1]); }
  }

  /** A number has one numeral only, so printing and reading are inverse. */
  lemma {:induction false} NumeralUnique(s: string, t: string, n: nat)
    requires Numeral(s, n) && Numeral(t, n)
    ensures s == t
    decreases n
  {
    if n > 0 {
      LongIsLarge(s);
      LongIsLarge(t);
      var a, b := s[..|s| - 1], t[..|t| - 1];
      assert s == a + [s[|s| - 1]] && t == b + [t[|t| - 1]];
      LastDigit(s);
      LastDigit(t);
      if |s| >= 2 && |t| >= 2 {
        LongIsLarge(a);
        LongIsLarge(b);
        NumeralUnique(a, b, n / 10);
      }
    }
  }

  lemma LastDigit(s: string)
    requires Digits(s)
    ensures Value(s) % 10 == s[|s| - 1] as nat - '0' as nat && Value(s) / 10 == Value(s[..|s| - 1])
  {
  }

  // ---- commas ----

  /** The comma, if any, that goes before digit i of a numeral of length len. */
  function Comma(len: nat, i: nat): string
    requires i < len
  {
    if i > 0 && (len - i) % 3 == 0 then "," else ""
  }

  /** What commaSep makes of the digits: a comma before each digit, but the first,
      whose distance from the end is a multiple of three. */
  function Grouped(s: string, n: nat): string
    requires n <= |s|
  {
    if n == 0 then "" else
    Grouped(s, n - 1) + Comma(|s|, n - 1) + [s[n - 1]]
  }

  /** commaSep; FormatUint returns the numeral of n, and NumeralUnique says there is
      only one. */
  method CommaSep(n: nat) returns (out: string)
    ensures exists s :: Numeral(s, n) && out == Grouped(s, |s|)
    ensures Numeral(Strip(out), n)
  {
    var s := Itoa(n);
    out := "";
    for i := 0 to |s|
      invariant out == Grouped(s, i)
    {
      if i > 0 && (|s| - i) % 3 == 0 { out := out + ","; }
      out := out + [s[i]];
    }
    CommaSepMeans(s, n);
  }

  function Strip(t: string): string {
    if t == "" then "" else
    Strip(t[..|t| - 1]) + if t[|t| - 1] == ',' then "" else [t[|t| - 1]]
  }

  lemma {:induction false} StripAppend(t: string, u: string)
    ensures Strip(t + u) == Strip(t) + Strip(u)
    decreases |u|
  {
    if u == "" {
      assert t + u == t;
    } else {
      var n := |u| - 1;
      assert (t + u)[..|t + u| - 1] == t + u[..n];
      StripAppend(t, u[..n]);
    }
  }

  /** How many commas stand among the first n digits of a numeral of length len. */
  function Commas(len: nat, n: nat): nat
    requires n <= len
  {
    if n == 0 then 0
    else Commas(len, n - 1) + |Comma(len, n - 1)|
  }

  lemma StripOne(c: char)
    ensures Strip([c]) == if c == ',' then "" else [c]
  {
    assert [c][..0] == "";
  }

  lemma StripDigit(t: string, comma: string, c: char)
    requires (comma == "" || comma == ",") && c != ','
    ensures Strip(t + comma + [c]) == Strip(t) + [c]
  {
    StripAppend(t + comma, [c]);
    StripAppend(t, comma);
    StripOne(c);
    StripOne(',');
    assert Strip(t) + "" == Strip(t);
  }

  lemma {:induction false} GroupedParts(s: string, n: nat)
    requires n <= |s| && ',' !in s
    ensures Strip(Grouped(s, n)) == s[..n] && |Grouped(s, n)| == n + Commas(|s|, n)
  {
    if n > 0 {
      GroupedParts(s, n - 1);
      StripNext(Grouped(s, n - 1), Comma(|s|, n - 1), s, n - 1);
    }
  }

  lemma StripNext(t: string, comma: string, s: string, n: nat)
    requires n < |s| && s[n] != ',' && (comma == "" || comma == ",") && Strip(t) == s[..n]
    ensures Strip(t + comma + [s[n]]) == s[..n + 1]
  {
    StripDigit(t, comma, s[n]);
    assert s[..n + 1] == s[..n] + [s[n]];
  }

  /** Among digits at distance len..len-n+1 from the end, every third but the first
      carries a comma. */
  lemma {:induction false} CommaCount(len: nat, n: nat)
    requires 1 <= n <= len
    ensures Commas(len, n) == (len - 1) / 3 - (len - n) / 3
  {
    if n == 1 {
      assert Commas(len, 0) == 0;
    } else {
      CommaCount(len, n - 1);
      var d := len - (n - 1);
      assert (d - 1) / 3 == if d % 3 == 0 then d / 3 - 1 else d / 3;
    }
  }

  /** Position of digit i in the output. */
  function Place(len: nat, i: nat): nat
    requires i < len
  {
    i + Commas(len, i + 1)
  }

  /** What stands before the last digit of the first n. */
  lemma LastPlace(s: string, n: nat)
    requires 0 < n <= |s| && ',' !in s
    ensures var g := Grouped(s, n); var k := Place(|s|, n - 1);
      && k == |g| - 1 && g[k] == s[n - 1]
      && (n > 1 ==> k > 0 && ((|s| - (n - 1)) % 3 == 0 <==> g[k - 1] == ','))
  {
    GroupedParts(s, n);
    GroupedParts(s, n - 1);
    if n > 1 {
      assert Grouped(s, n - 1)[|Grouped(s, n - 1)| - 1] == s[n - 2];
    }
  }

  lemma {:induction false} GroupedPlaces(s: string, n: nat, i: nat)
    requires i < n <= |s| && ',' !in s
    ensures Place(|s|, i) < |Grouped(s, n)| && Grouped(s, n)[Place(|s|, i)] == s[i]
    ensures i > 0 ==>
      Place(|s|, i) > 0 && ((|s| - i) % 3 == 0 <==> Grouped(s, n)[Place(|s|, i) - 1] == ',')
  {
    if i == n - 1 {
      LastPlace(s, n);
    } else {
      GroupedPlaces(s, n - 1, i);
      Longer(Grouped(s, n - 1), Comma(|s|, n - 1) + [s[n - 1]], Place(|s|, i));
      assert Grouped(s, n) == Grouped(s, n - 1) + (Comma(|s|, n - 1) + [s[n - 1]]);
    }
  }

  lemma Longer(t: string, more: string, k: nat)
    requires k < |t|
    ensures (t + more)[k] == t[k] && (k > 0 ==> (t + more)[k - 1] == t[k - 1])
  {
  }

  /** Removing the commas gives the numeral back, so its value is n; there are
      (d-1)/3 of them; and one stands before digit i exactly when the number of
      digits from i on is a multiple of three. */
  lemma CommaSepMeans(s: string, n: nat)
    requires Numeral(s, n)
    ensures var t := Grouped(s, |s|);
      && Numeral(Strip(t), n) && |t| == |s| + (|s| - 1) / 3
      && forall i :: 0 < i < |s| ==>
           && Place(|s|, i) < |t| && t[Place(|s|, i)] == s[i]
           && (t[Place(|s|, i) - 1] == ',' <==> (|s| - i) % 3 == 0)
  {
    GroupedParts(s, |s|);
    assert s[..|s|] == s;
    CommaCount(|s|, |s|);
    forall i | 0 < i < |s|
      ensures Place(|s|, i) < |Grouped(s, |s|)| && Grouped(s, |s|)[Place(|s|, i)] == s[i]
      ensures Grouped(s, |s|)[Place(|s|, i) - 1] == ',' <==> (|s| - i) % 3 == 0
    {
      GroupedPlaces(s, |s|, i);
    }
  }
}
