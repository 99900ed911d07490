/** ASCII decimal text: digit runs, their values, the minimal decimal text of a
    number, and the "spaces, optional minus, digits" shape that the firmware's
    integer parsers read. */
module Decimal {
  import opened Common

  const Space: u8 := 0x20
  const Minus: u8 := 0x2D
  const Comma: u8 := 0x2C

  predicate IsDigit(b: u8) {
    0x30 <= b <= 0x39
  }

  predicate AllDigits(s: seq<u8>) {
    forall j | 0 <= j < |s| :: IsDigit(s[j])
  }

  /** The number of leading digits of `s`. */
  function DigitRun(s: seq<u8>): (n: nat)
    ensures n <= |s| && AllDigits(s[..n])
    ensures n < |s| ==> !IsDigit(s[n])
  {
    if |s| == 0 || !IsDigit(s[0]) then 0
    else
      var n := 1 + DigitRun(s[1..]);
      assert s[..n] == [s[0]] + s[1..][..n - 1];
      n
  }

  /** A digit prefix followed by a non-digit, or by the end, is the digit run. */
  lemma {:induction false} DigitRunUnique(s: seq<u8>, n: nat)
    requires n <= |s| && AllDigits(s[..n])
    requires n < |s| ==> !IsDigit(s[n])
    ensures DigitRun(s) == n
    decreases n
  {
    if n > 0 {
      assert IsDigit(s[..n][0]);
      assert s[1..][..n - 1] == s[1..n];
      DigitRunUnique(s[1..], n - 1);
    }
  }

  /** The number of leading spaces of `s`. */
  function SpaceRun(s: seq<u8>): (n: nat)
    ensures n <= |s| && forall j | 0 <= j < n :: s[j] == Space
    ensures n < |s| ==> s[n] != Space
  {
    if |s| == 0 || s[0] != Space then 0 else 1 + SpaceRun(s[1..])
  }

  /** A space prefix followed by a non-space, or by the end, is the space run. */
  lemma {:induction false} SpaceRunUnique(s: seq<u8>, n: nat)
    requires n <= |s| && forall j | 0 <= j < n :: s[j] == Space
    requires n < |s| ==> s[n] != Space
    ensures SpaceRun(s) == n
    decreases n
  {
    if n > 0 {
      SpaceRunUnique(s[1..], n - 1);
    }
  }

  /** Appending one digit: the value grows by one decimal place. */
  lemma ValueSnoc(s: seq<u8>, n: nat)
    requires n < |s| && AllDigits(s[..n + 1])
    ensures AllDigits(s[..n])
    ensures Value(s[..n + 1]) == Value(s[..n]) * 10 + (s[n] - 0x30)
  {
    assert s[..n + 1][..n] == s[..n];
  }

  /** The value of a digit string, most significant digit first. */
  function Value(s: seq<u8>): nat
    requires AllDigits(s)
  {
    if |s| == 0 then 0 else Value(s[..|s| - 1]) * 10 + (s[|s| - 1] - 0x30)
  }

  /** A prefix of a digit string is worth no more than the whole. */
  lemma {:induction false} ValuePrefix(s: seq<u8>, k: nat)
    requires AllDigits(s) && k <= |s|
    ensures Value(s[..k]) <= Value(s)
    decreases |s|
  {
    if k < |s| {
      var p := s[..|s| - 1];
      assert p[..k] == s[..k];
      assert Value(s) == Value(p) * 10 + (s[|s| - 1] - 0x30) >= Value(p);
      ValuePrefix(p, k);
    } else {
      assert s[..k] == s;
    }
  }

  /** A digit string that does not start with '0' is worth at least 1. */
  lemma ValuePositive(s: seq<u8>)
    requires AllDigits(s) && |s| >= 1 && s[0] != 0x30
    ensures Value(s) >= 1
  {
    ValuePrefix(s, 1);
    assert s[..1][..0] == [];
  }

  /** The minimal decimal text of `n`: no leading zero unless `n` is 0. */
  function Digits(n: nat): (s: seq<u8>)
    ensures 1 <= |s| && AllDigits(s)
    ensures |s| > 1 ==> s[0] != 0x30
    ensures Value(s) == n
    decreases n
  {
    if n < 10 then [0x30 + n]
    else
      var p := Digits(n / 10);
      var s := p + [0x30 + n % 10];
      assert s[..|s| - 1] == p;
      s
  }

  /** Minimal digit strings are exactly the texts `Digits` produces. */
  lemma {:induction false} DigitsOfValue(s: seq<u8>)
    requires AllDigits(s) && |s| >= 1 && (|s| > 1 ==> s[0] != 0x30)
    ensures Digits(Value(s)) == s
    decreases |s|
  {
    if |s| > 1 {
      var p := s[..|s| - 1];
      assert p[0] == s[0];
      ValuePositive(p);
      DigitsOfValue(p);
    }
  }

  function Pow10(k: nat): (p: nat)
    ensures p >= 1
  {
    if k == 0 then 1 else 10 * Pow10(k - 1)
  }

  /** A number below 10^k has at most k digits. */
  lemma {:induction false} DigitsLength(n: nat, k: nat)
    requires k >= 1 && n < Pow10(k)
    ensures |Digits(n)| <= k
    decreases k
  {
    if n >= 10 {
      DigitsLength(n / 10, k - 1);
    }
  }

  /** The minimal decimal text of a signed value: '-' before a negative one. */
  function SignedText(v: int): (s: seq<u8>)
    ensures |s| >= 1
  {
    if v < 0 then [Minus] + Digits(-v) else Digits(v)
  }

  // ---------------------------------------------------------------------------
  // The shape read by parse_int and parse_i16: spaces, an optional '-', digits.

  /** The index just after the leading spaces and the optional minus sign. */
  function DigitsStart(data: seq<u8>): (k: nat)
    ensures k <= |data|
  {
    var sp := SpaceRun(data);
    if sp < |data| && data[sp] == Minus then sp + 1 else sp
  }

  /** Whether a minus sign follows the leading spaces. */
  predicate Negative(data: seq<u8>) {
    var sp := SpaceRun(data);
    sp < |data| && data[sp] == Minus
  }

  /** The digit run after the spaces and the optional sign. */
  function NumberDigits(data: seq<u8>): (d: seq<u8>)
    ensures AllDigits(d)
  {
    var k := DigitsStart(data);
    data[k..][..DigitRun(data[k..])]
  }

  /** The exact signed value of that digit run. */
  function SignedValue(data: seq<u8>): int {
    if Negative(data) then 0 - Value(NumberDigits(data)) else Value(NumberDigits(data))
  }

  /** The digits of a minimal decimal text followed by nothing are exactly its
      digit run. */
  lemma DigitRunAll(s: seq<u8>)
    requires AllDigits(s)
    ensures DigitRun(s) == |s|
  {
  }

  /** Reading back a signed decimal text gives the value. */
  lemma SignedTextValue(v: int)
    ensures SignedValue(SignedText(v)) == v
    ensures NumberDigits(SignedText(v)) == Digits(if v < 0 then -v else v)
  {
    var t := SignedText(v);
    var m := if v < 0 then -v else v;
    var d := Digits(m);
    assert SpaceRun(t) == 0;
    if v < 0 {
      assert t[1..] == d;
      DigitRunAll(d);
      assert t[1..][..|d|] == d;
    } else {
      assert t[0..] == d;
      DigitRunAll(d);
      assert d[..|d|] == d;
    }
  }

  /** A signed decimal text holds only digits and the minus sign. */
  lemma SignedTextChars(v: int)
    ensures forall j | 0 <= j < |SignedText(v)| :: IsDigit(SignedText(v)[j]) || SignedText(v)[j] == Minus
  {
  }

  /** A byte that is neither a digit nor '-' does not occur in a signed text. */
  lemma SignedTextExcludes(v: int, b: u8)
    requires !IsDigit(b) && b != Minus
    ensures b !in SignedText(v)
  {
    SignedTextChars(v);
  }
}
