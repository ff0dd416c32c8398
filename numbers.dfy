/** `int.TryParse(s, NumberStyles.Integer, CultureInfo.InvariantCulture, out v)` and its inverse
    `int.ToString()`: optional leading white space, an optional sign, at least one decimal
    digit, optional trailing white space, then nothing but NUL characters; the value must fit a
    signed 32-bit integer. */
module Numbers {
  import opened Wrappers

  const Int32Min: int := -0x8000_0000
  const Int32Max: int := 0x7FFF_FFFF

  predicate IsDigit(c: char) {
    '0' <= c <= '9'
  }

  /** The white space number parsing skips: U+0009 to U+000D and the space. */
  predicate IsNumberWhite(c: char) {
    c == ' ' || '\t' <= c <= '\r'
  }

  /** Length of the white-space prefix of `s`. */
  function WhiteRun(s: string): (n: nat)
    ensures n <= |s|
    ensures forall k :: 0 <= k < n ==> IsNumberWhite(s[k])
    ensures n < |s| ==> !IsNumberWhite(s[n])
  {
    if |s| > 0 && IsNumberWhite(s[0]) then 1 + WhiteRun(s[1..]) else 0
  }

  /** Length of the digit prefix of `s`. */
  function DigitRun(s: string): (n: nat)
    ensures n <= |s|
    ensures forall k :: 0 <= k < n ==> IsDigit(s[k])
    ensures n < |s| ==> !IsDigit(s[n])
  {
    if |s| > 0 && IsDigit(s[0]) then 1 + DigitRun(s[1..]) else 0
  }

  function DigitsValue(d: string): nat
    requires forall k :: 0 <= k < |d| ==> IsDigit(d[k])
  {
    if d == [] then 0
    else
      assert IsDigit(d[|d| - 1]);
      10 * DigitsValue(d[..|d| - 1]) + (d[|d| - 1] as int - '0' as int)
  }

  /** What may follow the digits: white space, then NUL characters only. */
  predicate IsTrailer(s: string) {
    var w := WhiteRun(s);
    forall k :: w <= k < |s| ==> s[k] == '\0'
  }

  function ParseInt32(s: string): (r: Option<int>)
    ensures r.Some? ==> Int32Min <= r.value <= Int32Max
  {
    var t := s[WhiteRun(s)..];
    var negative := |t| > 0 && t[0] == '-';
    var u := if |t| > 0 && (t[0] == '-' || t[0] == '+') then t[1..] else t;
    var n := DigitRun(u);
    if n == 0 || !IsTrailer(u[n..]) then None
    else
      var m: int := DigitsValue(u[..n]);
      var v: int := if negative then -m else m;
      if Int32Min <= v <= Int32Max then Some(v) else None
  }

  function DigitChar(d: nat): char
    requires d < 10
  {
    ('0' as int + d) as char
  }

  /** The decimal digits of `m`, most significant first, without leading zeros. */
  function Digits(m: nat): (d: string)
    ensures |d| >= 1 && forall k :: 0 <= k < |d| ==> IsDigit(d[k])
  {
    if m < 10 then [DigitChar(m)] else Digits(m / 10) + [DigitChar(m % 10)]
  }

  /** int.ToString() with the invariant culture. */
  function FormatInt32(n: int): string {
    if n < 0 then "-" + Digits(-n) else Digits(n)
  }

  lemma {:induction false} DigitsValueOfDigits(m: nat)
    ensures DigitsValue(Digits(m)) == m
  {
    if m >= 10 {
      var d := Digits(m);
      assert d[..|d| - 1] == Digits(m / 10);
      DigitsValueOfDigits(m / 10);
    }
  }

  lemma DigitRunOfDigits(d: string)
    requires forall k :: 0 <= k < |d| ==> IsDigit(d[k])
    ensures DigitRun(d) == |d|
  {
  }

  /** Parsing what int.ToString() prints gives the integer back. */
  lemma ParseFormat(n: int)
    requires Int32Min <= n <= Int32Max
    ensures ParseInt32(FormatInt32(n)) == Some(n)
  {
    var s := FormatInt32(n);
    var m: nat := if n < 0 then -n else n;
    var u := Digits(m);
    assert WhiteRun(s) == 0;
    assert s[0..] == s;
    if n < 0 {
      assert s[1..] == u;
    }
    DigitRunOfDigits(u);
    assert u[..|u|] == u;
    assert u[|u|..] == [];
    DigitsValueOfDigits(m);
  }
}
