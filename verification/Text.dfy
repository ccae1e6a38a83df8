/** The text functions the Go side borrows from its library, stated by what they
    return: hexadecimal numbers, whitespace fields, path base names. */
module Text {
  import opened Bpf

  // ---- hexadecimal ----

  function HexDigit(d: nat): char
    requires d < 16
  {
    "0123456789abcdef"[d]
  }

  function DigitValue(c: char): Option<nat> {
    if '0' <= c <= '9' then Some(c as nat - '0' as nat)
    else if 'a' <= c <= 'f' then Some(c as nat - 'a' as nat + 10)
    else if 'A' <= c <= 'F' then Some(c as nat - 'A' as nat + 10)
    else None
  }

  /** %x. */
  function ToHex(n: nat): (s: string)
    ensures s != ""
  {
    if n < 16 then [HexDigit(n)] else ToHex(n / 16) + [HexDigit(n % 16)]
  }

  /** The number a string of hex digits denotes, None if some character is no digit. */
  function HexValue(s: string): Option<nat> {
    if s == "" then Some(0) else
    var high, low := HexValue(s[..|s| - 1]), DigitValue(s[|s| - 1]);
    if high.Some? && low.Some? then Some(16 * high.value + low.value) else None
  }

  /** strconv.ParseUint(s, 16, 64). */
  function ParseHex(s: string): Option<nat> {
    if s == "" then None else
    var v := HexValue(s);
    if v.Some? && v.value < TWO64 then v else None
  }

  function Zeros(n: nat): string {
    seq(n, i => '0')
  }

  predicate HexText(s: string) {
    forall i :: 0 <= i < |s| ==> '0' <= s[i] <= '9' || 'a' <= s[i] <= 'f'
  }

  lemma HexDigitText(d: nat)
    requires d < 16
    ensures DigitValue(HexDigit(d)) == Some(d) && HexText([HexDigit(d)])
  {
  }

  lemma {:induction false} HexOfPadded(zeros: nat, n: nat)
    ensures HexValue(Zeros(zeros) + ToHex(n)) == Some(n) && HexText(Zeros(zeros) + ToHex(n))
    decreases n
  {
    if n < 16 {
      ZerosAreZero(zeros);
      HexAppend(Zeros(zeros), 0, n);
    } else {
      HexOfPadded(zeros, n / 16);
      HexAppend(Zeros(zeros) + ToHex(n / 16), n / 16, n % 16);
      Regroup(Zeros(zeros), ToHex(n / 16), [HexDigit(n % 16)]);
    }
  }

  lemma Regroup(a: string, b: string, c: string)
    ensures a + (b + c) == (a + b) + c
  {
  }

  lemma HexAppend(high: string, v: nat, d: nat)
    requires HexValue(high) == Some(v) && HexText(high) && d < 16
    ensures HexValue(high + [HexDigit(d)]) == Some(16 * v + d) && HexText(high + [HexDigit(d)])
  {
    HexDigitText(d);
    assert (high + [HexDigit(d)])[..|high|] == high;
  }

  lemma {:induction false} ZerosAreZero(n: nat)
    ensures HexValue(Zeros(n)) == Some(0) && HexText(Zeros(n))
  {
    if n > 0 {
      assert Zeros(n)[..n - 1] == Zeros(n - 1);
      ZerosAreZero(n - 1);
    }
  }

  /** Reading back a printed number, with or without leading zeros: exact below 2^64,
      malformed from there on. */
  lemma ParsePadded(zeros: nat, n: nat)
    ensures ParseHex(Zeros(zeros) + ToHex(n)) == if n < TWO64 then Some(n) else None
  {
    HexOfPadded(zeros, n);
  }

  lemma HexInjective(m: nat, n: nat)
    requires ToHex(m) == ToHex(n)
    ensures m == n
  {
    HexOfPadded(0, m);
    HexOfPadded(0, n);
    assert Zeros(0) + ToHex(m) == ToHex(m) && Zeros(0) + ToHex(n) == ToHex(n);
  }

  // ---- whitespace fields ----

  /** unicode.IsSpace. */
  predicate IsSpace(c: char) {
    c in "\t\n\U{000B}\U{000C}\r \U{0085}\U{00A0}\U{1680}\U{2028}\U{2029}\U{202F}\U{205F}\U{3000}"
    || '\U{2000}' <= c <= '\U{200A}'
  }

  predicate Blank(s: string) { forall i :: 0 <= i < |s| ==> IsSpace(s[i]) }
  predicate Word(s: string) { s != "" && forall i :: 0 <= i < |s| ==> !IsSpace(s[i]) }

  /** Where the word that starts s ends. */
  function WordEnd(s: string): (n: nat)
    ensures n <= |s| && (forall i :: 0 <= i < n ==> !IsSpace(s[i])) && (n < |s| ==> IsSpace(s[n]))
  {
    if s == "" || IsSpace(s[0]) then 0 else 1 + WordEnd(s[1..])
  }

  /** strings.Fields. */
  function Fields(s: string): seq<string>
    decreases |s|
  {
    if s == "" then []
    else if IsSpace(s[0]) then Fields(s[1..])
    else [s[..WordEnd(s)]] + Fields(s[WordEnd(s)..])
  }

  lemma {:induction false} FieldsAfterBlank(gap: string, rest: string)
    requires Blank(gap)
    ensures Fields(gap + rest) == Fields(rest)
    decreases |gap|
  {
    if gap == "" {
      assert gap + rest == rest;
    } else {
      assert (gap + rest)[1..] == gap[1..] + rest;
      FieldsAfterBlank(gap[1..], rest);
    }
  }

  lemma FieldsWord(word: string, rest: string)
    requires Word(word) && (rest == "" || IsSpace(rest[0]))
    ensures Fields(word + rest) == [word] + Fields(rest)
  {
    var s := word + rest;
    var n := WordEnd(s);
    assert s[0] == word[0];
    assert forall i :: 0 <= i < |word| ==> s[i] == word[i];
    assert rest != "" ==> s[|word|] == rest[0];
    assert n == |word|;
    assert s[..n] == word && s[n..] == rest;
  }

  // ---- base names ----

  /** The last part of strings.Split(path, "/"). */
  function Base(path: string): string {
    if path == "" || path[|path| - 1] == '/' then ""
    else Base(path[..|path| - 1]) + [path[|path| - 1]]
  }

  /** It is what follows the last slash, or the whole path. */
  lemma {:induction false} BaseIsLastPart(path: string)
    ensures '/' !in Base(path)
    ensures exists dir: string :: path == dir + Base(path) && (dir == "" || dir[|dir| - 1] == '/')
  {
    if path == "" || path[|path| - 1] == '/' {
      assert path == path + Base(path);
    } else {
      var shorter := path[..|path| - 1];
      BaseIsLastPart(shorter);
      var dir: string :| shorter == dir + Base(shorter) && (dir == "" || dir[|dir| - 1] == '/');
      assert path == dir + Base(path);
    }
  }

  // ---- splitting at one character ----

  /** Position of the first c in s, or |s|. */
  function IndexOf(s: string, c: char): (n: nat)
    ensures n <= |s| && (forall i :: 0 <= i < n ==> s[i] != c) && (n < |s| ==> s[n] == c)
  {
    if s == "" || s[0] == c then 0 else 1 + IndexOf(s[1..], c)
  }

  lemma IndexOfFirst(left: string, c: char, right: string)
    requires c !in left
    ensures IndexOf(left + [c] + right, c) == |left|
  {
    var s := left + [c] + right;
    var n := IndexOf(s, c);
    assert s[|left|] == c;
    assert n == |left|;
  }
}
