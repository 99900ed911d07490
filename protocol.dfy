/** The text command protocol spoken over USB serial: hex and decimal helpers,
    bounded buffer writes, the forwarded-descriptor hex blob, the UART frame
    sent to the FPGA, and the command processor's line buffer and mouse
    commands. Arithmetic follows a release build: fixed-width operations wrap. */
module Protocol {
  import opened Common
  import opened Decimal
  import State
  import Hid

  // ---------------------------------------------------------------------------
  // Hex digits

  predicate IsUpperHex(c: u8) {
    (0x30 <= c <= 0x39) || (0x41 <= c <= 0x46)
  }

  /** The value of an ASCII hex digit of either case. */
  function HexToNibble(c: u8): (r: Option<u8>)
    ensures r.Some? <==> (0x30 <= c <= 0x39) || (0x61 <= c <= 0x66) || (0x41 <= c <= 0x46)
    ensures r.Some? ==> r.value < 16
  {
    if 0x30 <= c <= 0x39 then Some(c - 0x30)
    else if 0x61 <= c <= 0x66 then Some(c - 0x61 + 10)
    else if 0x41 <= c <= 0x46 then Some(c - 0x41 + 10)
    else None
  }

  /** The uppercase hex digit of the low nibble of `nibble`. The arithmetic
      uses the whole byte, so only a value below 16 gives its digit; callers
      only pass such values. */
  function HexDigit(nibble: u8): (r: u8)
    ensures nibble < 10 ==> 0x30 <= r <= 0x39
    ensures 10 <= nibble < 16 ==> 0x41 <= r <= 0x46
  {
    if nibble % 16 <= 9 then AsU8(0x30 + nibble) else AsU8(0x41 + (nibble - 10))
  }

  /** Below 16, `HexDigit` and `HexToNibble` are inverse: the digit is an
      uppercase hex digit that decodes back to the nibble. */
  lemma HexDigitRoundTrip(n: u8)
    requires n < 16
    ensures IsUpperHex(HexDigit(n))
    ensures HexToNibble(HexDigit(n)) == Some(n)
  {
  }

  /** Every decoded hex digit is the uppercase digit of its value or the
      lowercase one, so decoding loses only the case. */
  lemma HexToNibbleCases(c: u8)
    requires HexToNibble(c).Some?
    ensures var v := HexToNibble(c).value;
      c == HexDigit(v) || (v >= 10 && c == v - 10 + 0x61)
    ensures IsUpperHex(c) ==> HexDigit(HexToNibble(c).value) == c
  {
  }

  /** The two uppercase hex digits of a byte, high nibble first. */
  function HexByte(b: u8): (h: seq<u8>)
    ensures |h| == 2
  {
    [HexDigit(b / 16), HexDigit(b % 16)]
  }

  /** A byte's two hex digits decode back to it. */
  lemma HexByteDecodes(b: u8)
    ensures IsUpperHex(HexByte(b)[0]) && IsUpperHex(HexByte(b)[1])
    ensures HexToNibble(HexByte(b)[0]).Some? && HexToNibble(HexByte(b)[1]).Some?
    ensures HexToNibble(HexByte(b)[0]).value * 16 + HexToNibble(HexByte(b)[1]).value == b
  {
    HexDigitRoundTrip(b / 16);
    HexDigitRoundTrip(b % 16);
  }

  // ---------------------------------------------------------------------------
  // Decimal parsing and formatting

  /** Wrapping arithmetic done in steps agrees with the exact arithmetic
      wrapped once. */
  lemma WrapI16Step(a: int, d: int)
    ensures WrapI16(WrapI16(a) * 10 + d) == WrapI16(a * 10 + d)
    ensures WrapI16(0 - WrapI16(a)) == WrapI16(0 - a)
  {
    var k := (WrapI16(a) - a) / 0x1_0000;
    assert WrapI16(a) - a == k * 0x1_0000;
    WrapI16Shift(a * 10 + d, 10 * k);
    assert WrapI16(a) * 10 + d == a * 10 + d + 10 * k * 0x1_0000;
    WrapI16Shift(0 - a, 0 - k);
  }

  lemma WrapI16Shift(v: int, k: int)
    ensures WrapI16(v + k * 0x1_0000) == WrapI16(v)
  {
    var x := v + 0x8000;
    assert (x + k * 0x1_0000) % 0x1_0000 == x % 0x1_0000 by {
      var q := x / 0x1_0000;
      var r := x % 0x1_0000;
      assert x + k * 0x1_0000 == (q + k) * 0x1_0000 + r;
    }
  }

  /** What `parse_u8_from_slice` returns: nothing when the slice does not
      start with a digit, else the leading decimal digits modulo 256. */
  function U8FromSlice(data: seq<u8>): (r: Option<u8>)
    ensures r.None? <==> |data| == 0 || !IsDigit(data[0])
  {
    var n := DigitRun(data);
    if n == 0 then None else Some(Value(data[..n]) % 0x100)
  }

  /** Reads the leading decimal digits into a `u8` with wrapping arithmetic. */
  method ParseU8FromSlice(data: seq<u8>) returns (r: Option<u8>)
    ensures r == U8FromSlice(data)
  {
    var value: u8 := 0;
    var idx := 0;
    while idx < |data| && IsDigit(data[idx])
      invariant idx <= |data| && AllDigits(data[..idx])
      invariant value == Value(data[..idx]) % 0x100
    {
      ValueSnoc(data, idx);
      ModStep(Value(data[..idx]), data[idx] - 0x30);
      value := (value * 10) % 0x100;
      value := (value + (data[idx] - 0x30)) % 0x100;
      idx := idx + 1;
    }
    DigitRunUnique(data, idx);
    if idx > 0 {
      r := Some(value);
    } else {
      r := None;
    }
  }

  lemma ModStep(v: nat, d: nat)
    ensures ((v % 0x100) * 10 % 0x100 + d) % 0x100 == (v * 10 + d) % 0x100
  {
    var r := v % 0x100;
    var a := r * 10 / 0x100;
    assert v == v / 0x100 * 0x100 + r;
    assert r * 10 == a * 0x100 + r * 10 % 0x100;
    assert v * 10 + d == (r * 10 % 0x100 + d) + (a + 10 * (v / 0x100)) * 0x100;
    ModShift(r * 10 % 0x100 + d, a + 10 * (v / 0x100));
  }

  lemma ModShift(x: int, k: int)
    ensures (x + k * 0x100) % 0x100 == x % 0x100
  {
    var q := x / 0x100;
    var r := x % 0x100;
    assert x + k * 0x100 == (q + k) * 0x100 + r;
  }

  /** What `parse_int` yields: the signed value of the digits after the
      spaces and the optional '-', wrapped to 16 bits. */
  function IntValue(data: seq<u8>): (r: i16)
    ensures (r - SignedValue(data)) % 0x1_0000 == 0
    ensures -0x8000 <= SignedValue(data) < 0x8000 ==> r == SignedValue(data)
  {
    WrapI16(SignedValue(data))
  }

  /** Accumulates the leading digit run of `s` in a wrapping `i16`. */
  method AccumulateDigits(s: seq<u8>) returns (value: i16, idx: nat)
    ensures idx == DigitRun(s)
    ensures value == WrapI16(Value(s[..idx]))
  {
    value, idx := 0, 0;
    while idx < |s| && IsDigit(s[idx])
      invariant idx <= |s| && AllDigits(s[..idx])
      invariant value == WrapI16(Value(s[..idx]))
    {
      ValueSnoc(s, idx);
      WrapI16Step(Value(s[..idx]), s[idx] - 0x30);
      value := WrapI16(value * 10 + (s[idx] - 0x30));
      idx := idx + 1;
    }
    DigitRunUnique(s, idx);
  }

  /** Skips spaces, takes an optional '-', then accumulates the digit run in
      a wrapping `i16`. It never fails. */
  method ParseInt(data: seq<u8>) returns (r: Option<i16>)
    ensures r == Some(IntValue(data))
  {
    var negative := false;
    var idx := 0;
    while idx < |data| && data[idx] == Space
      invariant idx <= |data| && forall j | 0 <= j < idx :: data[j] == Space
    {
      idx := idx + 1;
    }
    SpaceRunUnique(data, idx);
    if idx < |data| && data[idx] == Minus {
      negative := true;
      idx := idx + 1;
    }
    assert idx == DigitsStart(data);
    var value, count := AccumulateDigits(data[idx..]);
    assert data[idx..][..count] == NumberDigits(data);
    if negative {
      WrapI16Step(Value(NumberDigits(data)), 0);
      var v: int := value;
      value := WrapI16(0 - v);
    }
    r := Some(value);
  }

  /** Parsing gives back every value that `SignedText` writes, across the
      whole `i16` range. */
  lemma IntValueOfText(v: i16)
    ensures IntValue(SignedText(v)) == v
  {
    SignedTextValue(v);
  }

  /** The text the source's `format_i16` writes: for `i16::MIN` the negation
      wraps back to a negative number, the digit loop never runs, and only the
      sign is written (`FormatI16AsWritten` follows those steps). */
  function FormattedAsWritten(v: i16): seq<u8> {
    if v == -0x8000 then [Minus] else SignedText(v)
  }

  /** The steps of `format_i16` as written, on a growing text instead of a
      buffer: the sign, a wrapping negation, then the digits. The digit loop
      `while val > 0` is `ReversedDigits`; a value that is still negative after
      the negation (only the wrapped `i16::MIN`) does not enter it. */
  method FormatI16AsWritten(value: i16) returns (text: seq<u8>)
    ensures text == FormattedAsWritten(value)
  {
    text := [];
    var val: i16 := value;
    if val < 0 {
      text := [Minus];
      val := WrapI16(0 - (val as int));
      assert value == -0x8000 ==> val == -0x8000;
      assert value != -0x8000 ==> val == -value;
    }
    if val == 0 {
      text := text + [0x30];
    } else if val > 0 {
      var temp, t := ReversedDigits(val);
      var digits := seq(t, j requires 0 <= j < t reads temp => temp[t - 1 - j]);
      assert digits == Digits(val);
      text := text + digits;
    }
  }

  /** The discrepancy: as written, `i16::MIN` is formatted as a bare "-", which
      parses back as 0; every other value round-trips. */
  lemma FormatMinAsWritten()
    ensures FormattedAsWritten(-0x8000) == [Minus]
    ensures IntValue(FormattedAsWritten(-0x8000)) == 0
    ensures forall v: i16 | v != -0x8000 :: IntValue(FormattedAsWritten(v)) == v
  {
    assert SpaceRun([Minus]) == 0;
    assert [Minus][1..] == [];
    forall v: i16 | v != -0x8000
      ensures IntValue(FormattedAsWritten(v)) == v
    {
      IntValueOfText(v);
    }
  }

  /** Peeling the last digit off `val`, whose text ends `d` before `t`
      bytes: that digit is the byte before them, and the rest of `val` is the
      text before that. */
  lemma DigitsPeel(d: seq<u8>, val: nat, t: nat)
    requires val > 0 && t + |Digits(val)| == |d| && Digits(val) == d[..|d| - t]
    ensures d[|d| - 1 - t] == 0x30 + val % 10
    ensures t + 1 + (if val / 10 == 0 then 0 else |Digits(val / 10)|) == |d|
    ensures val / 10 > 0 ==> Digits(val / 10) == d[..|d| - (t + 1)]
  {
    if val >= 10 {
      assert Digits(val) == Digits(val / 10) + [0x30 + val % 10];
      assert d[..|d| - t - 1] == d[..|d| - t][..|d| - t - 1];
    }
    assert d[|d| - 1 - t] == d[..|d| - t][|d| - t - 1];
  }

  /** The digits of `m`, least significant first, in a six-byte scratch
      buffer. */
  method ReversedDigits(m: nat) returns (temp: array<u8>, t: nat)
    requires m < 100000
    ensures fresh(temp) && temp.Length == 6 && t == |Digits(m)| <= 5
    ensures forall j | 0 <= j < t :: temp[j] == Digits(m)[t - 1 - j]
  {
    ghost var d := Digits(m);
    DigitsLength(m, 5);
    temp := new u8[6](_ => 0);
    t := 0;
    var val: nat := m;
    if val == 0 {
      temp[0] := 0x30;
      t := 1;
    } else {
      while val > 0
        invariant t + (if val == 0 then 0 else |Digits(val)|) == |d|
        invariant val > 0 ==> Digits(val) == d[..|d| - t]
        invariant forall j | 0 <= j < t :: temp[j] == d[|d| - 1 - j]
        decreases val
      {
        DigitsPeel(d, val, t);
        temp[t] := 0x30 + val % 10;
        val := val / 10;
        t := t + 1;
      }
    }
  }

  /** Copies `temp[..t]` into `buf` at `at` in reverse order. */
  method WriteReversed(temp: array<u8>, t: nat, buf: array<u8>, at: nat)
    requires temp != buf && t <= temp.Length && at + t <= buf.Length
    modifies buf
    ensures forall j | at <= j < at + t :: buf[j] == temp[t - 1 - (j - at)]
    ensures forall j | 0 <= j < buf.Length && !(at <= j < at + t) :: buf[j] == old(buf[j])
  {
    var idx := at;
    var i := t;
    while i > 0
      invariant 0 <= i <= t && idx == at + (t - i)
      invariant forall j | at <= j < idx :: buf[j] == temp[t - 1 - (j - at)]
      invariant forall j | 0 <= j < buf.Length && !(at <= j < idx) :: buf[j] == old(buf[j])
    {
      i := i - 1;
      buf[idx] := temp[i];
      idx := idx + 1;
    }
  }

  /** Writes the minimal decimal text of `m` into `buf` at `at`, through the
      reversed scratch buffer, keeping what lies before and after. */
  method WriteDigits(m: nat, buf: array<u8>, at: nat) returns (t: nat)
    requires m < 100000 && at + |Digits(m)| <= buf.Length
    modifies buf
    ensures t == |Digits(m)|
    ensures buf[..at + t] == old(buf[..at]) + Digits(m)
    ensures forall j | at + t <= j < buf.Length :: buf[j] == old(buf[j])
  {
    ghost var before := buf[..at];
    var temp, count := ReversedDigits(m);
    WriteReversed(temp, count, buf, at);
    t := count;
    ghost var written := buf[..at + t];
    ghost var text := before + Digits(m);
    forall i | 0 <= i < at + t
      ensures written[i] == text[i]
    {
      if i >= at {
        assert written[i] == buf[i] == temp[t - 1 - (i - at)];
      }
    }
    assert written == text;
  }

  /** Writes '-' and then the minimal decimal text of `m` at `at`. */
  method WriteNegative(m: nat, buf: array<u8>, at: nat) returns (t: nat)
    requires m < 100000 && at + 1 + |Digits(m)| <= buf.Length
    modifies buf
    ensures t == 1 + |Digits(m)|
    ensures buf[..at + t] == old(buf[..at]) + ([Minus] + Digits(m))
    ensures forall j | at + t <= j < buf.Length :: buf[j] == old(buf[j])
  {
    ghost var before := buf[..at];
    buf[at] := Minus;
    assert buf[..at + 1] == before + [Minus];
    var count := WriteDigits(m, buf, at + 1);
    t := 1 + count;
    assert buf[..at + t] == (before + [Minus]) + Digits(m);
  }

  /** Writes the minimal decimal text of `value` into `buf` at `start`, a
      leading '-' for a negative value, keeping what lies before and after,
      and returns the number of bytes written. The magnitude is taken in
      unbounded arithmetic so that `i16::MIN` is written in full. */
  method FormatI16(value: i16, buf: array<u8>, start: nat) returns (n: nat)
    requires start + |SignedText(value)| <= buf.Length
    modifies buf
    ensures n == |SignedText(value)|
    ensures buf[..start + n] == old(buf[..start]) + SignedText(value)
    ensures forall j | start + n <= j < buf.Length :: buf[j] == old(buf[j])
  {
    if value < 0 {
      n := WriteNegative(0 - (value as int), buf, start);
    } else {
      n := WriteDigits(value, buf, start);
    }
  }

  // ---------------------------------------------------------------------------
  // Bounded buffer writes

  /** The effect of `write_str` on the buffer contents and the fill level:
      as much of `data` as fits is copied at `len`, the rest is dropped. */
  function WriteStrSpec(content: seq<u8>, data: seq<u8>, len: nat): (r: (seq<u8>, nat))
    requires len <= |content|
  {
    var count := Min(|data|, |content| - len);
    (content[..len] + data[..count] + content[len + count..], len + count)
  }

  /** The fill level grows by what fits, never passes the buffer's end, and
      the bytes before it and after the copy are untouched. */
  lemma WriteStrBounds(content: seq<u8>, data: seq<u8>, len: nat)
    requires len <= |content|
    ensures var (c, n) := WriteStrSpec(content, data, len);
      |c| == |content| && len <= n <= |content| && n - len <= |data|
      && (n < |content| ==> n == len + |data|)
      && c[..len] == content[..len] && c[len..n] == data[..n - len] && c[n..] == content[n..]
  {
    var (c, n) := WriteStrSpec(content, data, len);
    assert c[len..n] == data[..n - len];
  }

  /** Two writes in a row are one write of the concatenation: truncation at
      the end of the buffer composes. */
  lemma WriteStrConcat(content: seq<u8>, a: seq<u8>, b: seq<u8>, len: nat)
    requires len <= |content|
    ensures var (c1, n1) := WriteStrSpec(content, a, len);
      WriteStrSpec(c1, b, n1) == WriteStrSpec(content, a + b, len)
  {
    var (c1, n1) := WriteStrSpec(content, a, len);
    var (c2, n2) := WriteStrSpec(c1, b, n1);
    var (c3, n3) := WriteStrSpec(content, a + b, len);
    WriteStrBounds(content, a, len);
    WriteStrBounds(c1, b, n1);
    WriteStrBounds(content, a + b, len);
    assert n2 == n3;
    assert c2[len..n2] == (a + b)[..n3 - len] by {
      assert c2[len..n2] == c2[len..n1] + c2[n1..n2];
      assert c2[len..n1] == c1[len..n1];
      assert (a + b)[..n3 - len] == a[..n1 - len] + b[..n2 - n1];
    }
    assert c2[..len] == c1[..n1][..len] == content[..len];
    assert c2[n2..] == c1[n1..][n2 - n1..] == content[n2..];
    assert c2 == c2[..len] + c2[len..n2] + c2[n2..];
    assert c3 == c3[..len] + c3[len..n3] + c3[n3..];
  }

  /** Copies as much of `data` as fits into `buf` from `len` on and returns the
      new fill level. */
  method WriteStr(buf: array<u8>, data: seq<u8>, len: nat) returns (newLen: nat)
    requires len <= buf.Length
    modifies buf
    ensures (buf[..], newLen) == WriteStrSpec(old(buf[..]), data, len)
  {
    var count := Min(|data|, buf.Length - len);
    forall j | len <= j < len + count {
      buf[j] := data[j - len];
    }
    newLen := len + count;
    assert buf[..] == old(buf[..len]) + data[..count] + old(buf[len + count..]);
  }

  // ---------------------------------------------------------------------------
  // The hex blob of a forwarded descriptor

  predicate IsSeparator(b: u8) {
    b == Space || b == Comma
  }

  /** The first index from `i` on that does not hold a space or a comma. */
  function SkipFrom(h: seq<u8>, i: nat): (j: nat)
    requires i <= |h|
    ensures i <= j <= |h| && forall m | i <= m < j :: IsSeparator(h[m])
    ensures j < |h| ==> !IsSeparator(h[j])
    decreases |h| - i
  {
    if i == |h| || !IsSeparator(h[i]) then i else SkipFrom(h, i + 1)
  }

  /** The bytes decoded from the hex text `h[i..]` with room for `cap` more:
      separators are skipped, each following pair of hex digits gives one
      byte, a pair holding a non-hex byte is consumed and dropped, and a lone
      trailing byte ends the decoding. */
  function DecodeHexFrom(h: seq<u8>, i: nat, cap: nat): (r: seq<u8>)
    requires i <= |h|
    ensures |r| <= cap
    decreases |h| - i
  {
    if cap == 0 then []
    else
      var k := SkipFrom(h, i);
      if k + 1 >= |h| then []
      else
        var hi := HexToNibble(h[k]);
        var lo := HexToNibble(h[k + 1]);
        if hi.Some? && lo.Some? then [hi.value * 16 + lo.value] + DecodeHexFrom(h, k + 2, cap - 1)
        else DecodeHexFrom(h, k + 2, cap)
  }

  /** The bytes decoded from a whole hex text. */
  function DecodeHex(h: seq<u8>, cap: nat): (r: seq<u8>)
    ensures |r| <= cap
  {
    DecodeHexFrom(h, 0, cap)
  }

  /** The hex text the FPGA forwards for a descriptor: two uppercase digits
      per byte. */
  function HexEncode(b: seq<u8>): (h: seq<u8>)
    ensures |h| == 2 * |b|
  {
    if |b| == 0 then [] else HexByte(b[0]) + HexEncode(b[1..])
  }

  /** The hex text of a non-empty byte string starts with the two digits of
      its first byte and goes on with the text of the rest. */
  lemma HexEncodeStep(h: seq<u8>, i: nat, b: seq<u8>)
    requires i <= |h| && h[i..] == HexEncode(b) && |b| > 0
    ensures i + 1 < |h| && h[i] == HexDigit(b[0] / 16) && h[i + 1] == HexDigit(b[0] % 16)
    ensures h[i + 2..] == HexEncode(b[1..])
  {
    assert h[i..] == HexByte(b[0]) + HexEncode(b[1..]);
    assert h[i + 2..] == h[i..][2..];
  }

  /** The two hex digits of a byte where decoding resumes give that byte. */
  lemma DecodeByteAt(h: seq<u8>, i: nat, x: u8, cap: nat)
    requires i + 1 < |h| && cap > 0
    requires h[i] == HexDigit(x / 16) && h[i + 1] == HexDigit(x % 16)
    ensures DecodeHexFrom(h, i, cap) == [x] + DecodeHexFrom(h, i + 2, cap - 1)
  {
    HexByteDecodes(x);
    DecodePairAt(h, i, cap);
  }

  lemma TakeCons(b: seq<u8>, cap: nat)
    requires |b| > 0 && cap > 0
    ensures b[..Min(|b|, cap)] == [b[0]] + b[1..][..Min(|b| - 1, cap - 1)]
  {
    assert b[..Min(|b|, cap)] == [b[0]] + b[1..][..Min(|b| - 1, cap - 1)];
  }

  /** Decoding the hex text of a byte string gives back its first `cap`
      bytes, wherever in the text that hex starts. */
  lemma {:induction false} DecodeHexEncodeAt(h: seq<u8>, i: nat, b: seq<u8>, cap: nat)
    requires i <= |h| && h[i..] == HexEncode(b)
    ensures DecodeHexFrom(h, i, cap) == b[..Min(|b|, cap)]
    decreases |b|
  {
    if cap == 0 {
      assert b[..Min(|b|, cap)] == [];
    } else if |b| == 0 {
      assert |h| == i;
      assert SkipFrom(h, i) == i;
    } else {
      HexEncodeStep(h, i, b);
      DecodeHexEncodeAt(h, i + 2, b[1..], cap - 1);
      DecodeHexEncodeCons(h, i, b, cap);
    }
  }

  /** One step of the round trip: decoding the first byte's two digits and
      then the rest of the text gives the first `cap` bytes. */
  lemma DecodeHexEncodeCons(h: seq<u8>, i: nat, b: seq<u8>, cap: nat)
    requires i <= |h| && h[i..] == HexEncode(b) && |b| > 0 && cap > 0
    requires i + 2 <= |h| && DecodeHexFrom(h, i + 2, cap - 1) == b[1..][..Min(|b| - 1, cap - 1)]
    ensures DecodeHexFrom(h, i, cap) == b[..Min(|b|, cap)]
  {
    HexEncodeStep(h, i, b);
    DecodeByteAt(h, i, b[0], cap);
    TakeCons(b, cap);
  }

  /** A pair of hex digits where decoding resumes is decoded as one byte. */
  lemma DecodePairAt(h: seq<u8>, i: nat, cap: nat)
    requires i + 1 < |h| && cap > 0
    requires HexToNibble(h[i]).Some? && HexToNibble(h[i + 1]).Some?
    ensures DecodeHexFrom(h, i, cap)
      == [HexToNibble(h[i]).value * 16 + HexToNibble(h[i + 1]).value] + DecodeHexFrom(h, i + 2, cap - 1)
  {
    assert SkipFrom(h, i) == i;
  }

  /** The byte a pair of hex digits stands for, or nothing when the pair holds
      a non-hex byte. */
  function PairBytes(h: seq<u8>, i: nat): (p: seq<u8>)
    requires i + 1 < |h|
    ensures |p| <= 1
  {
    var hi := HexToNibble(h[i]);
    var lo := HexToNibble(h[i + 1]);
    if hi.Some? && lo.Some? then [hi.value * 16 + lo.value] else []
  }

  /** Decoding the hex text of a byte string gives back its first `cap` bytes. */
  lemma DecodeHexEncode(b: seq<u8>, cap: nat)
    ensures DecodeHex(HexEncode(b), cap) == b[..Min(|b|, cap)]
  {
    DecodeHexEncodeAt(HexEncode(b), 0, b, cap);
  }

  /** Skips spaces and commas from `i` on. */
  method SkipSeparators(h: seq<u8>, i: nat) returns (j: nat)
    requires i <= |h|
    ensures j == SkipFrom(h, i)
  {
    j := i;
    while j < |h| && IsSeparator(h[j])
      invariant i <= j <= |h| && SkipFrom(h, j) == SkipFrom(h, i)
      decreases |h| - j
    {
      j := j + 1;
    }
  }

  /** Decodes the pair of hex digits at `i` into `bytes[len]` when both are
      hex digits, and returns the new length. */
  method DecodePair(h: seq<u8>, i: nat, bytes: array<u8>, len: nat) returns (newLen: nat)
    requires i + 1 < |h| && len < bytes.Length
    modifies bytes
    ensures newLen == len + |PairBytes(h, i)|
    ensures bytes[..newLen] == old(bytes[..len]) + PairBytes(h, i)
  {
    var high := HexToNibble(h[i]);
    var low := HexToNibble(h[i + 1]);
    newLen := len;
    if high.Some? && low.Some? {
      bytes[len] := high.value * 16 + low.value;
      newLen := len + 1;
      assert bytes[..newLen] == old(bytes[..len]) + PairBytes(h, i);
    }
  }

  /** Nothing is decoded when at most one byte is left after the separators. */
  lemma NothingLeft(h: seq<u8>, i: nat, cap: nat)
    requires i <= |h| && SkipFrom(h, i) + 1 >= |h|
    ensures DecodeHexFrom(h, i, cap) == []
  {
  }

  /** Otherwise decoding yields the byte of the pair after the separators, if
      any, and goes on after that pair. */
  lemma PairSplit(h: seq<u8>, i: nat, cap: nat)
    requires i <= |h| && SkipFrom(h, i) + 1 < |h| && cap > 0
    ensures DecodeHexFrom(h, i, cap)
      == PairBytes(h, SkipFrom(h, i)) + DecodeHexFrom(h, SkipFrom(h, i) + 2, cap - |PairBytes(h, SkipFrom(h, i))|)
  {
  }

  lemma Regroup(x: seq<u8>, before: seq<u8>, p: seq<u8>, rest: seq<u8>, whole: seq<u8>)
    requires x == before + p && whole == p + rest
    ensures x + rest == before + whole
  {
  }

  /** One round of the decoding loop: skip separators, then decode the pair
      there, or report that nothing more can be decoded. */
  method DecodeStep(h: seq<u8>, i: nat, bytes: array<u8>, len: nat) returns (next: nat, newLen: nat, stop: bool)
    requires i <= |h| && bytes.Length == 1024 && len < 1024
    modifies bytes
    ensures stop ==> newLen == len && bytes[..len] == old(bytes[..len]) && DecodeHexFrom(h, i, 1024 - len) == []
    ensures !stop ==> i < next <= |h| && len <= newLen <= 1024
    ensures !stop ==>
      bytes[..newLen] + DecodeHexFrom(h, next, 1024 - newLen) == old(bytes[..len]) + DecodeHexFrom(h, i, 1024 - len)
  {
    var j := SkipSeparators(h, i);
    if j + 1 >= |h| {
      NothingLeft(h, i, 1024 - len);
      return j, len, true;
    }
    ghost var before := bytes[..len];
    PairSplit(h, i, 1024 - len);
    newLen := DecodePair(h, j, bytes, len);
    next, stop := j + 2, false;
    Regroup(bytes[..newLen], before, PairBytes(h, j), DecodeHexFrom(h, next, 1024 - newLen), DecodeHexFrom(h, i, 1024 - len));
  }

  /** Decodes the hex text between the braces of a forwarded descriptor into
      a 1024-byte buffer and returns the buffer and the decoded length. */
  method DecodeHexBlob(hexData: seq<u8>) returns (bytes: array<u8>, len: nat)
    ensures bytes.Length == 1024 && len <= 1024
    ensures bytes[..len] == DecodeHex(hexData, 1024)
  {
    bytes := new u8[1024];
    len := 0;
    var i := 0;
    ghost var all := DecodeHex(hexData, 1024);
    assert bytes[..0] == [];
    while i < |hexData| && len < 1024
      invariant i <= |hexData| && len <= 1024
      invariant bytes[..len] + DecodeHexFrom(hexData, i, 1024 - len) == all
      decreases |hexData| - i
    {
      var stop;
      i, len, stop := DecodeStep(hexData, i, bytes, len);
      if stop {
        break;
      }
    }
  }

  // ---------------------------------------------------------------------------
  // Commands for the FPGA and their UART frame

  /** The fixed 128-byte payload buffer of a command. */
  type Payload = s: seq<u8> | |s| == 128 witness Zeros(128)

  /** A command for the FPGA: its code, a payload buffer and how much of the
      buffer is used. */
  datatype Command = Command(code: u8, payload: Payload, length: nat)

  /** What handling a command line asks the main loop to do. */
  datatype CommandType = FpgaCommand(command: Command) | Response | Restart | NoOp

  /** The FPGA's "inject a mouse report" command code. */
  const InjectMouse: u8 := 0x11

  const LineFeed: u8 := 0x0A
  const CarriageReturn: u8 := 0x0D
  const CloseParen: u8 := 0x29

  /** `[CMD:` */
  const CmdTag: seq<u8> := [0x5B, 0x43, 0x4D, 0x44, 0x3A]
  /** `[LEN:` */
  const LenTag: seq<u8> := [0x5B, 0x4C, 0x45, 0x4E, 0x3A]
  /** `[CKSUM:` */
  const CksumTag: seq<u8> := [0x5B, 0x43, 0x4B, 0x53, 0x55, 0x4D, 0x3A]
  /** `] ` */
  const TagEnd: seq<u8> := [0x5D, 0x20]
  /** `]` and a newline */
  const FrameEnd: seq<u8> := [0x5D, 0x0A]

  /** The sum of a byte string, in unbounded arithmetic. */
  function Sum(s: seq<u8>): nat {
    if |s| == 0 then 0 else Sum(s[..|s| - 1]) + s[|s| - 1]
  }

  /** The frame checksum: the code plus the used payload bytes, modulo 256. */
  function Checksum(c: Command): (r: u8)
    requires c.length <= 128
    ensures c.length == 0 ==> r == c.code
  {
    (c.code + Sum(c.payload[..c.length])) % 0x100
  }

  /** The four digits of the length field. The source's expression for them
      does not compile (it shifts a `u8` by 12 and by 8); these are the four
      hex digits of the length, which is what the field's name and width
      suggest. */
  function LengthDigits(length: nat): (d: seq<u8>)
    ensures |d| == 4 && forall j | 0 <= j < 4 :: IsUpperHex(d[j])
  {
    var l := length % 0x1_0000;
    HexDigitRoundTrip(l / 0x1000);
    HexDigitRoundTrip(l / 0x100 % 16);
    HexDigitRoundTrip(l / 16 % 16);
    HexDigitRoundTrip(l % 16);
    [HexDigit(l / 0x1000), HexDigit(l / 0x100 % 16), HexDigit(l / 16 % 16), HexDigit(l % 16)]
  }

  /** `[CMD:XX] [LEN:YYYY] `: the twenty bytes before the payload. */
  function Header(c: Command): (h: seq<u8>)
    ensures |h| == 20
  {
    CmdTag + HexByte(c.code) + TagEnd + LenTag + LengthDigits(c.length) + TagEnd
  }

  /** A space, `[CKSUM:ZZ]` and a newline: the twelve bytes after the payload. */
  function Trailer(cksum: u8): (t: seq<u8>)
    ensures |t| == 12
  {
    [Space] + CksumTag + HexByte(cksum) + FrameEnd
  }

  /** The text of a UART frame: header, used payload bytes, trailer. */
  function FrameText(c: Command): (t: seq<u8>)
    requires c.length <= 128
    ensures |t| == 32 + c.length
  {
    Header(c) + c.payload[..c.length] + Trailer(Checksum(c))
  }

  /** The 256-byte UART frame of a command: its text, then zero bytes. */
  function UartFrame(c: Command): (f: seq<u8>)
    requires c.length <= 128
    ensures |f| == 256
  {
    FrameText(c) + Zeros(224 - c.length)
  }

  /** The fields of the header. */
  lemma HeaderLayout(c: Command)
    ensures var h := Header(c);
      h[..5] == CmdTag && h[5..7] == HexByte(c.code) && h[7..9] == TagEnd
      && h[9..14] == LenTag && (forall j | 14 <= j < 18 :: IsUpperHex(h[j]))
      && h[18..20] == TagEnd
  {
    var d := LengthDigits(c.length);
    var h := Header(c);
    assert forall j | 14 <= j < 18 :: h[j] == d[j - 14];
  }

  /** The fields of the trailer. */
  lemma TrailerLayout(cksum: u8)
    ensures var t := Trailer(cksum);
      t[0] == Space && t[1..8] == CksumTag && t[8..10] == HexByte(cksum) && t[10..] == FrameEnd
  {
  }

  /** Where the parts sit in a frame: header, payload from byte 20, trailer
      right after it, zero padding to the end. */
  lemma UartFrameLayout(c: Command)
    requires c.length <= 128
    ensures var f, n := UartFrame(c), c.length;
      f[..20] == Header(c) && f[20..20 + n] == c.payload[..n]
      && f[20 + n..32 + n] == Trailer(Checksum(c))
      && (forall j | 32 + n <= j < 256 :: f[j] == 0)
  {
    var f, n := UartFrame(c), c.length;
    assert f[..32 + n] == FrameText(c);
  }

  /** What a receiver checks: the code and checksum fields are hex digits, and
      the checksum matches the code plus the `len` payload bytes. */
  predicate FrameChecksOut(f: seq<u8>, len: nat)
    requires |f| == 256 && len <= 128
  {
    var code, ck := HexToNibble(f[5]), HexToNibble(f[6]);
    var hi, lo := HexToNibble(f[28 + len]), HexToNibble(f[29 + len]);
    code.Some? && ck.Some? && hi.Some? && lo.Some?
    && (code.value * 16 + ck.value + Sum(f[20..20 + len])) % 0x100 == hi.value * 16 + lo.value
  }

  /** The bytes of a frame that a receiver checks. */
  lemma FrameFields(c: Command)
    requires c.length <= 128
    ensures var f, n, ck := UartFrame(c), c.length, Checksum(c);
      f[5] == HexByte(c.code)[0] && f[6] == HexByte(c.code)[1]
      && f[28 + n] == HexByte(ck)[0] && f[29 + n] == HexByte(ck)[1]
      && f[20..20 + n] == c.payload[..n]
  {
    var f, n := UartFrame(c), c.length;
    UartFrameLayout(c);
    HeaderLayout(c);
    TrailerLayout(Checksum(c));
    var h, t := Header(c), Trailer(Checksum(c));
    assert f[5] == f[..20][5] == h[5] && f[6] == f[..20][6] == h[6];
    assert f[28 + n] == f[20 + n..32 + n][8] == t[8];
    assert f[29 + n] == f[20 + n..32 + n][9] == t[9];
  }

  /** Every frame the firmware builds passes the receiver's check, and the
      code the receiver reads back is the command's code. */
  lemma UartFrameChecksOut(c: Command)
    requires c.length <= 128
    ensures FrameChecksOut(UartFrame(c), c.length)
    ensures HexToNibble(UartFrame(c)[5]).value * 16 + HexToNibble(UartFrame(c)[6]).value == c.code
  {
    FrameFields(c);
    FieldsCheckOut(UartFrame(c), c.length, c.code, Checksum(c));
  }

  /** A frame whose code and checksum fields hold the hex digits of `code`
      and of the sum of `code` and the payload checks out. */
  lemma FieldsCheckOut(f: seq<u8>, len: nat, code: u8, ck: u8)
    requires |f| == 256 && len <= 128
    requires f[5] == HexByte(code)[0] && f[6] == HexByte(code)[1]
    requires f[28 + len] == HexByte(ck)[0] && f[29 + len] == HexByte(ck)[1]
    requires ck == (code + Sum(f[20..20 + len])) % 0x100
    ensures FrameChecksOut(f, len)
    ensures HexToNibble(f[5]).value * 16 + HexToNibble(f[6]).value == code
  {
    HexByteDecodes(code);
    HexByteDecodes(ck);
  }

  lemma {:induction false} SumUpdate(s: seq<u8>, i: nat, b: u8)
    requires i < |s|
    ensures Sum(s[i := b]) + s[i] == Sum(s) + b
    decreases |s|
  {
    var t := s[i := b];
    if i < |s| - 1 {
      assert t[..|t| - 1] == s[..|s| - 1][i := b];
      SumUpdate(s[..|s| - 1], i, b);
    } else {
      assert t[..|t| - 1] == s[..|s| - 1];
    }
  }

  /** The checksum catches any single changed payload byte. */
  lemma ChecksumDetectsOneByte(c: Command, i: nat, b: u8)
    requires c.length <= 128 && i < c.length && b != c.payload[i]
    ensures Checksum(c.(payload := c.payload[i := b])) != Checksum(c)
  {
    var p := c.payload[..c.length];
    assert c.payload[i := b][..c.length] == p[i := b];
    SumUpdate(p, i, b);
  }

  /** Copies `s` into `frame` at `at`, as `copy_from_slice`. */
  method Put(frame: array<u8>, at: nat, s: seq<u8>)
    requires at + |s| <= frame.Length
    modifies frame
    ensures frame[..at + |s|] == old(frame[..at]) + s
    ensures forall j | at + |s| <= j < frame.Length :: frame[j] == old(frame[j])
  {
    forall j | at <= j < at + |s| {
      frame[j] := s[j - at];
    }
    assert frame[..at + |s|] == frame[..at] + frame[at..at + |s|];
  }

  /** Writes the code and length fields at the start of the frame. */
  method WriteHeader(frame: array<u8>, c: Command)
    requires frame.Length == 256
    modifies frame
    ensures frame[..20] == Header(c)
    ensures forall j | 20 <= j < 256 :: frame[j] == old(frame[j])
  {
    Put(frame, 0, CmdTag);
    Put(frame, 5, [HexDigit(c.code / 16), HexDigit(c.code % 16)]);
    Put(frame, 7, TagEnd);
    Put(frame, 9, LenTag);
    Put(frame, 14, LengthDigits(c.length));
    Put(frame, 18, TagEnd);
  }

  /** Copies the used payload bytes to the frame from byte 20, one at a time. */
  method CopyPayload(frame: array<u8>, c: Command)
    requires frame.Length == 256 && c.length <= 128
    modifies frame
    ensures frame[..20 + c.length] == old(frame[..20]) + c.payload[..c.length]
    ensures forall j | 20 + c.length <= j < 256 :: frame[j] == old(frame[j])
  {
    ghost var head := frame[..20];
    for i := 0 to c.length
      invariant frame[..20 + i] == head + c.payload[..i]
      invariant forall j | 20 + i <= j < 256 :: frame[j] == old(frame[j])
    {
      frame[20 + i] := c.payload[i];
      assert frame[..20 + i + 1] == frame[..20 + i] + [c.payload[i]];
      assert c.payload[..i + 1] == c.payload[..i] + [c.payload[i]];
    }
  }

  lemma ModAdd(x: nat, y: nat)
    ensures (x % 0x100 + y) % 0x100 == (x + y) % 0x100
  {
    ModShift(x % 0x100 + y, x / 0x100);
  }

  /** The checksum loop: a wrapping `u8` sum of the code and the payload. */
  method PayloadChecksum(c: Command) returns (cksum: u8)
    requires c.length <= 128
    ensures cksum == Checksum(c)
  {
    cksum := c.code;
    for i := 0 to c.length
      invariant cksum == (c.code + Sum(c.payload[..i])) % 0x100
    {
      assert c.payload[..i + 1][..i] == c.payload[..i];
      ModAdd(c.code + Sum(c.payload[..i]), c.payload[i]);
      cksum := (cksum + c.payload[i]) % 0x100;
    }
  }

  /** Writes the separator, the checksum field and the newline at `at`. */
  method WriteTrailer(frame: array<u8>, at: nat, cksum: u8)
    requires at + 12 <= frame.Length
    modifies frame
    ensures frame[..at + 12] == old(frame[..at]) + Trailer(cksum)
    ensures forall j | at + 12 <= j < frame.Length :: frame[j] == old(frame[j])
  {
    Put(frame, at, [Space]);
    Put(frame, at + 1, CksumTag);
    Put(frame, at + 8, [HexDigit(cksum / 16), HexDigit(cksum % 16)]);
    Put(frame, at + 10, FrameEnd);
  }

  /** Builds the UART frame of a command in a zeroed 256-byte buffer. */
  method ToUartFrame(c: Command) returns (frame: seq<u8>)
    requires c.length <= 128
    ensures frame == UartFrame(c)
  {
    var n := c.length;
    var f := new u8[256](_ => 0);
    WriteHeader(f, c);
    CopyPayload(f, c);
    var cksum := PayloadChecksum(c);
    WriteTrailer(f, 20 + n, cksum);
    assert f[..32 + n] == FrameText(c);
    frame := f[..];
    assert frame == f[..32 + n] + f[32 + n..];
    assert f[32 + n..] == Zeros(224 - n);
  }

  // ---------------------------------------------------------------------------
  // The line accumulator

  predicate IsTerminator(b: u8) {
    b == LineFeed || b == CarriageReturn
  }

  predicate NoTerminator(s: seq<u8>) {
    forall j | 0 <= j < |s| :: !IsTerminator(s[j])
  }

  /** Feeding a chunk of bytes to the line buffer `pending`: the first CR or LF
      completes the line and empties the buffer, and the rest of the chunk is
      dropped; other bytes are kept while the buffer holds fewer than 256. */
  function Feed(pending: seq<u8>, data: seq<u8>): (r: (Option<seq<u8>>, seq<u8>))
    requires |pending| <= 256
    ensures |r.1| <= 256
    ensures r.0.Some? ==> r.1 == [] && |r.0.value| <= 256
    decreases |data|
  {
    if |data| == 0 then (None, pending)
    else if IsTerminator(data[0]) then (Some(pending), [])
    else Feed(if |pending| < 256 then pending + [data[0]] else pending, data[1..])
  }

  /** `s` cut to the buffer's 256 bytes. */
  function Truncated(s: seq<u8>): (t: seq<u8>)
    ensures |t| <= 256
  {
    if |s| <= 256 then s else s[..256]
  }

  /** Feeding bytes without a terminator appends them, up to the capacity. */
  lemma {:induction false} FeedPrefix(pending: seq<u8>, data: seq<u8>, k: nat)
    requires |pending| <= 256 && k <= |data| && NoTerminator(data[..k])
    ensures Feed(pending, data) == Feed(Truncated(pending + data[..k]), data[k..])
    decreases k
  {
    if k > 0 {
      assert !IsTerminator(data[..k][0]);
      var next := if |pending| < 256 then pending + [data[0]] else pending;
      assert data[1..][..k - 1] == data[1..k];
      var rest := data[1..][..k - 1];
      assert NoTerminator(rest) by {
        forall j | 0 <= j < |rest| ensures !IsTerminator(rest[j]) {
          assert rest[j] == data[..k][j + 1];
        }
      }
      FeedPrefix(next, data[1..], k - 1);
      assert data[1..][k - 1..] == data[k..];
      if |pending| < 256 {
        assert next + data[1..][..k - 1] == pending + data[..k];
      } else {
        assert Truncated(pending + data[..k]) == pending;
      }
    } else {
      assert pending + data[..0] == pending;
    }
  }

  /** With no terminator in the chunk, nothing is dispatched and the buffer
      holds the old bytes followed by the new ones, cut to 256. */
  lemma FeedWithoutTerminator(pending: seq<u8>, data: seq<u8>)
    requires |pending| <= 256 && NoTerminator(data)
    ensures Feed(pending, data) == (None, Truncated(pending + data))
  {
    assert data[..|data|] == data;
    FeedPrefix(pending, data, |data|);
  }

  /** At the chunk's first terminator the buffered line is dispatched: the old
      bytes and the chunk's bytes before it, cut to 256. The buffer is then
      empty, whatever followed the terminator. */
  lemma FeedAtTerminator(pending: seq<u8>, data: seq<u8>, k: nat)
    requires |pending| <= 256 && k < |data| && IsTerminator(data[k]) && NoTerminator(data[..k])
    ensures Feed(pending, data) == (Some(Truncated(pending + data[..k])), [])
  {
    FeedPrefix(pending, data, k);
  }

  /** A line may arrive in several chunks: feeding a chunk without terminator
      and then the rest is the same as feeding them together. */
  lemma FeedChunks(pending: seq<u8>, a: seq<u8>, b: seq<u8>)
    requires |pending| <= 256 && NoTerminator(a)
    ensures Feed(pending, a + b) == Feed(Feed(pending, a).1, b)
  {
    assert (a + b)[..|a|] == a;
    assert (a + b)[|a|..] == b;
    FeedPrefix(pending, a + b, |a|);
    FeedWithoutTerminator(pending, a);
  }

  /** The bytes `km.pos(` */
  const PosTag: seq<u8> := [0x6B, 0x6D, 0x2E, 0x70, 0x6F, 0x73, 0x28]

  /** The reply to `getpos`: `km.pos(x,y)` and a newline. */
  function PosResponse(x: i16, y: i16): (r: seq<u8>)
    ensures |r| <= 24
  {
    SignedTextLength(x);
    SignedTextLength(y);
    PosTag + (SignedText(x) + [Comma] + SignedText(y) + [CloseParen] + [LineFeed])
  }

  /** A 16-bit value takes at most six characters. */
  lemma SignedTextLength(v: i16)
    ensures |SignedText(v)| <= 6
  {
    var m: int := if v < 0 then 0 - (v as int) else v;
    DigitsLength(m, 5);
  }

  /** The `x,y` arguments of a move command, up to the closing parenthesis,
      each read as `parse_int` reads it. */
  function MoveDeltas(args: seq<u8>): (r: Option<(i16, i16)>)
    ensures r.Some? <==> CloseParen in args && Comma in args[..Position(args, CloseParen).value]
  {
    match Position(args, CloseParen)
    case None => None
    case Some(p) =>
      var a := args[..p];
      match Position(a, Comma)
      case None => None
      case Some(c) => Some((IntValue(a[..c]), IntValue(a[c + 1..])))
  }

  /** The arguments `SignedText(x),SignedText(y)` and a closing parenthesis,
      followed by anything, read back as `(x, y)`. */
  lemma MoveDeltasOfText(x: i16, y: i16, rest: seq<u8>)
    ensures MoveDeltas(SignedText(x) + [Comma] + SignedText(y) + [CloseParen] + rest) == Some((x, y))
  {
    SignedTextExcludes(x, CloseParen);
    SignedTextExcludes(y, CloseParen);
    SignedTextExcludes(x, Comma);
    MoveDeltasOfPieces(SignedText(x), SignedText(y), rest);
    IntValueOfText(x);
    IntValueOfText(y);
  }

  /** Arguments `a,b)` followed by anything are read as `a` and `b`. */
  lemma MoveDeltasOfPieces(a: seq<u8>, b: seq<u8>, rest: seq<u8>)
    requires CloseParen !in a && CloseParen !in b && Comma !in a
    ensures MoveDeltas(a + [Comma] + b + [CloseParen] + rest) == Some((IntValue(a), IntValue(b)))
  {
    var inner := a + [Comma] + b;
    PositionAfter(inner, CloseParen, rest);
    assert (inner + [CloseParen] + rest)[..|inner|] == inner;
    PositionAfter(a, Comma, b + []);
    assert inner == a + [Comma] + (b + []);
    assert inner[..|a|] == a && inner[|a| + 1..] == b;
  }

  /** A `getpos` reply, with its tag removed, reads back through the move
      command's argument parser as the position it reports. */
  lemma PosResponseReadsBack(x: i16, y: i16)
    ensures PosResponse(x, y)[..7] == PosTag
    ensures MoveDeltas(PosResponse(x, y)[7..]) == Some((x, y))
  {
    var r := PosResponse(x, y);
    var tail := SignedText(x) + [Comma] + SignedText(y) + [CloseParen] + [LineFeed];
    assert r[7..] == tail;
    MoveDeltasOfText(x, y, [LineFeed]);
  }

  /** The `getpos` reply built with `format_i16` as written. */
  function PosResponseAsWritten(x: i16, y: i16): seq<u8> {
    PosTag + (FormattedAsWritten(x) + [Comma] + FormattedAsWritten(y) + [CloseParen] + [LineFeed])
  }

  /** With `format_i16` as written the `getpos` reply is the one modelled by
      `PosResponse` for every coordinate but -32768. */
  lemma GetPosAsWritten(x: i16, y: i16)
    requires x != -0x8000 && y != -0x8000
    ensures PosResponseAsWritten(x, y) == PosResponse(x, y)
  {
  }

  /** At -32768 the digits are lost: a cursor at (-32768, 0) is reported as
      `km.pos(-,0)`, which reads back as (0, 0). */
  lemma GetPosMinAsWritten()
    ensures PosResponseAsWritten(-0x8000, 0) == PosTag + [Minus, Comma, 0x30, CloseParen, LineFeed]
    ensures MoveDeltas(PosResponseAsWritten(-0x8000, 0)[7..]) == Some((0, 0))
  {
    assert FormattedAsWritten(0) == [0x30];
    var tail: seq<u8> := [Minus, Comma, 0x30, CloseParen, LineFeed];
    assert PosResponseAsWritten(-0x8000, 0)[7..] == tail;
    BareSignArguments();
  }

  /** The arguments `-,0)` followed by a newline read as (0, 0). */
  lemma BareSignArguments()
    ensures MoveDeltas([Minus, Comma, 0x30, CloseParen, LineFeed]) == Some((0, 0))
  {
    var tail: seq<u8> := [Minus, Comma, 0x30, CloseParen, LineFeed];
    PositionAfter([Minus, Comma, 0x30], CloseParen, [LineFeed]);
    assert [Minus, Comma, 0x30] + [CloseParen] + [LineFeed] == tail;
    PositionAfter([Minus], Comma, [0x30]);
    assert tail[..3] == [Minus] + [Comma] + [0x30];
    assert tail[..3][..1] == [Minus] && tail[..3][2..] == [0x30];
    FormatMinAsWritten();
    IntValueOfText(0);
  }

  // ---------------------------------------------------------------------------
  // Mouse commands

  /** An INJECT_MOUSE command: the five-byte report
      `[buttons, dx, dy, wheel, pan]` with no pan, in a zeroed payload. */
  function MouseCommand(buttons: u8, dx: u8, dy: u8, wheel: u8): (c: Command)
    ensures c.code == InjectMouse && c.length == 5
    ensures c.payload[..5] == [buttons, dx, dy, wheel, 0]
    ensures c.payload[0] == buttons && c.payload[1] == dx && c.payload[2] == dy && c.payload[3] == wheel
    ensures forall j | 4 <= j < 128 :: c.payload[j] == 0
  {
    var p := [buttons, dx, dy, wheel, 0] + Zeros(123);
    assert p[..5] == [buttons, dx, dy, wheel, 0];
    Command(InjectMouse, p, 5)
  }

  /** The used payload of a mouse command is the wire form of the HID mouse
      report with those buttons and signed movements. */
  lemma MouseCommandIsReport(buttons: u8, dx: u8, dy: u8, wheel: u8)
    ensures MouseCommand(buttons, dx, dy, wheel).payload[..5]
      == Hid.MouseBytes(Hid.MouseReport(buttons, Hid.AsI8(dx), Hid.AsI8(dy), Hid.AsI8(wheel), 0))
  {
    Hid.SignedByteRoundTrip(0, dx);
    Hid.SignedByteRoundTrip(0, dy);
    Hid.SignedByteRoundTrip(0, wheel);
  }

  /** What a move command line's arguments ask for. */
  function MoveCommand(args: seq<u8>): (t: CommandType)
    ensures t.NoOp? <==> MoveDeltas(args).None?
    ensures t.FpgaCommand? ==> t.command.code == InjectMouse && t.command.length == 5
    ensures t.FpgaCommand? ==> t.command.payload[0] == 0 && t.command.payload[3] == 0
    ensures t.FpgaCommand? ==> t.command.payload[1] == AsU8(MoveDeltas(args).value.0)
    ensures t.FpgaCommand? ==> t.command.payload[2] == AsU8(MoveDeltas(args).value.1)
  {
    match MoveDeltas(args)
    case None => NoOp
    case Some(d) => FpgaCommand(MouseCommand(0, AsU8(d.0), AsU8(d.1), 0))
  }

  /** The amount of a wheel command, up to the closing parenthesis. */
  function WheelAmount(args: seq<u8>): (r: Option<i16>)
    ensures r.Some? <==> CloseParen in args
  {
    match Position(args, CloseParen)
    case None => None
    case Some(p) => Some(IntValue(args[..p]))
  }

  /** What a wheel command line's arguments ask for. */
  function WheelCommand(args: seq<u8>): (t: CommandType)
    ensures t.NoOp? <==> CloseParen !in args
    ensures t.FpgaCommand? ==> t.command == MouseCommand(0, 0, 0, AsU8(WheelAmount(args).value))
  {
    match WheelAmount(args)
    case None => NoOp
    case Some(w) => FpgaCommand(MouseCommand(0, 0, 0, AsU8(w)))
  }

  /** `wheel(v)` scrolls by `v`, sent as its low byte. */
  lemma WheelOfText(v: i16, rest: seq<u8>)
    ensures WheelCommand(SignedText(v) + [CloseParen] + rest) == FpgaCommand(MouseCommand(0, 0, 0, AsU8(v)))
  {
    SignedTextChars(v);
    assert CloseParen !in SignedText(v) by {
      forall j | 0 <= j < |SignedText(v)| ensures SignedText(v)[j] != CloseParen { }
    }
    PositionAfter(SignedText(v), CloseParen, rest);
    assert (SignedText(v) + [CloseParen] + rest)[..|SignedText(v)|] == SignedText(v);
    IntValueOfText(v);
  }

  /** A button command: the button byte is the mask when the first argument
      byte is '1' and zero otherwise; without a closing parenthesis nothing
      is sent. */
  function ParseButtonCommand(line: seq<u8>, mask: u8, prefix: seq<u8>): (t: CommandType)
    requires |prefix| <= |line|
    ensures t.NoOp? <==> CloseParen !in line[|prefix|..]
    ensures t.FpgaCommand? ==> t.command.code == InjectMouse && t.command.length == 5
    ensures t.FpgaCommand? ==> t.command.payload[1..5] == [0, 0, 0, 0]
    ensures t.FpgaCommand? && mask != 0 ==>
      (t.command.payload[0] == mask <==> line[|prefix|] == 0x31)
    ensures t.FpgaCommand? && line[|prefix|] != 0x31 ==> t.command.payload[0] == 0
  {
    var args := line[|prefix|..];
    match Position(args, CloseParen)
    case None => NoOp
    case Some(_) =>
      var buttons := if args[0] == 0x31 then mask else 0;
      FpgaCommand(MouseCommand(buttons, 0, 0, 0))
  }

  /** The button masks of the five button commands are the HID click bits
      of buttons 0 to 4. */
  lemma ButtonMasks()
    ensures Hid.Click(0).buttons == 0x01 && Hid.Click(1).buttons == 0x02
    ensures Hid.Click(2).buttons == 0x04 && Hid.Click(3).buttons == 0x08
    ensures Hid.Click(4).buttons == 0x10
  {
    Hid.Pow2Table();
  }

  /** `(1)` presses the button: the report is the HID click of that button. */
  lemma ButtonPress(prefix: seq<u8>, b: u8)
    ensures ParseButtonCommand(prefix + [0x31, CloseParen], Hid.Click(b).buttons, prefix)
      == FpgaCommand(MouseCommand(Hid.Click(b).buttons, 0, 0, 0))
  {
    var line := prefix + [0x31, CloseParen];
    assert line[|prefix|..] == [0x31, CloseParen];
  }

  /** `(0)` releases every button: the report is the empty HID report. */
  lemma ButtonRelease(prefix: seq<u8>, mask: u8)
    ensures ParseButtonCommand(prefix + [0x30, CloseParen], mask, prefix)
      == FpgaCommand(MouseCommand(0, 0, 0, 0))
  {
    var line := prefix + [0x30, CloseParen];
    assert line[|prefix|..] == [0x30, CloseParen];
  }

  /** The pressed and released payloads are the wire forms of the HID click
      and empty reports. */
  lemma ButtonReports(b: u8)
    ensures MouseCommand(Hid.Click(b).buttons, 0, 0, 0).payload[..5] == Hid.MouseBytes(Hid.Click(b))
    ensures MouseCommand(0, 0, 0, 0).payload[..5] == Hid.MouseBytes(Hid.EmptyMouse())
  {
  }

  /** `move(x,y)` sends the low bytes of `x` and `y` and no buttons. */
  lemma MoveOfText(x: i16, y: i16, rest: seq<u8>)
    ensures MoveCommand(SignedText(x) + [Comma] + SignedText(y) + [CloseParen] + rest)
      == FpgaCommand(MouseCommand(0, AsU8(x), AsU8(y), 0))
  {
    MoveDeltasOfText(x, y, rest);
  }

  // ---------------------------------------------------------------------------
  // The command processor

  /** `nozen.move(` */
  const MovePrefix: seq<u8> := [0x6E, 0x6F, 0x7A, 0x65, 0x6E, 0x2E, 0x6D, 0x6F, 0x76, 0x65, 0x28]
  /** `nozen.wheel(` */
  const WheelPrefix: seq<u8> := [0x6E, 0x6F, 0x7A, 0x65, 0x6E, 0x2E, 0x77, 0x68, 0x65, 0x65, 0x6C, 0x28]

  lemma ConcatAssoc(a: seq<u8>, b: seq<u8>, c: seq<u8>, d: seq<u8>, e: seq<u8>, f: seq<u8>)
    ensures a + b + c + d + e + f == a + (b + c + d + e + f)
  {
  }

  /** Writes `x,y` at `idx`, keeping what lies before and after, and returns
      the index just past it. */
  method WriteCoordinates(resp: array<u8>, idx: nat, x: i16, y: i16) returns (end: nat)
    requires idx + 13 <= resp.Length
    modifies resp
    ensures end == idx + |SignedText(x) + [Comma] + SignedText(y)| && end <= idx + 13
    ensures resp[..end] == old(resp[..idx]) + (SignedText(x) + [Comma] + SignedText(y))
    ensures forall j | end <= j < resp.Length :: resp[j] == old(resp[j])
  {
    ghost var before := resp[..idx];
    ghost var sx, sy := SignedText(x), SignedText(y);
    SignedTextLength(x);
    SignedTextLength(y);
    var a := FormatI16(x, resp, idx);
    assert resp[..idx + a] == before + sx;
    var p := idx + a;
    Put(resp, p, [Comma]);
    assert resp[..p + 1] == before + sx + [Comma];
    p := p + 1;
    var b := FormatI16(y, resp, p);
    assert resp[..p + b] == before + sx + [Comma] + sy;
    end := p + b;
    Assoc4(before, sx, [Comma], sy);
  }

  lemma Assoc4(a: seq<u8>, b: seq<u8>, c: seq<u8>, d: seq<u8>)
    ensures a + b + c + d == a + (b + c + d)
  {
  }

  /** Formats a `getpos` reply in a fresh 256-byte buffer. */
  method FormatPos(x: i16, y: i16) returns (resp: array<u8>, idx: nat)
    ensures fresh(resp) && resp.Length == 256
    ensures idx <= 256 && resp[..idx] == PosResponse(x, y)
  {
    resp := new u8[256](_ => 0);
    Put(resp, 0, PosTag);
    ghost var text := PosTag;
    assert resp[..7] == text;
    var end := WriteCoordinates(resp, 7, x, y);
    ghost var middle := SignedText(x) + [Comma] + SignedText(y);
    text := text + middle;
    assert resp[..end] == text;
    Put(resp, end, [CloseParen, LineFeed]);
    text := text + [CloseParen, LineFeed];
    idx := end + 2;
    assert resp[..idx] == text;
    Assoc3(PosTag, middle, [CloseParen, LineFeed]);
    assert [CloseParen, LineFeed] == [CloseParen] + [LineFeed];
    Assoc3(middle, [CloseParen], [LineFeed]);
  }

  lemma Assoc3(a: seq<u8>, b: seq<u8>, c: seq<u8>)
    ensures a + b + c == a + (b + c)
  {
  }

  /** The argument reading of `parse_mouse_move`: up to ')', split at the
      first ',', each side read by `parse_int`. */
  method ReadMoveArgs(args: seq<u8>) returns (r: Option<(i16, i16)>)
    ensures r == MoveDeltas(args)
  {
    var paren := Position(args, CloseParen);
    if paren.None? {
      return None;
    }
    var inner := args[..paren.value];
    var comma := Position(inner, Comma);
    if comma.None? {
      return None;
    }
    // parse_int never fails, so its `None` arms are dead.
    var x := ParseInt(inner[..comma.value]);
    var y := ParseInt(inner[comma.value + 1..]);
    assert MoveDeltas(args) == Some((IntValue(inner[..comma.value]), IntValue(inner[comma.value + 1..])));
    r := Some((x.value, y.value));
  }

  /** The USB command side: a line buffer, the mouse position and the
      pending response. */
  class CommandProcessor {
    const buffer: array<u8>
    var index: nat
    const mouseState: State.MouseState
    const responseBuffer: array<u8>
    var responseLen: nat

    ghost predicate Valid()
      reads this
    {
      buffer.Length == 256 && responseBuffer.Length == 256 && buffer != responseBuffer
      && index <= 256 && responseLen <= 256
    }

    /** The bytes of the line received so far. */
    function Pending(): (p: seq<u8>)
      reads this, buffer
      requires Valid()
      ensures |p| <= 256
    {
      buffer[..index]
    }

    /** An empty line buffer, position (0, 0), no response. */
    constructor()
      ensures Valid() && Pending() == [] && responseLen == 0
      ensures fresh(buffer) && fresh(responseBuffer) && fresh(mouseState)
      ensures mouseState.x == 0 && mouseState.y == 0
    {
      buffer := new u8[256](_ => 0);
      index := 0;
      mouseState := new State.MouseState();
      responseBuffer := new u8[256](_ => 0);
      responseLen := 0;
    }

    /** Feeds a chunk of bytes from USB to the line buffer; returns the
        line completed by the chunk's first CR or LF, which the firmware then
        dispatches. */
    method Parse(data: seq<u8>) returns (line: Option<seq<u8>>)
      requires Valid()
      modifies this, buffer
      ensures Valid() && responseLen == old(responseLen)
      ensures (line, Pending()) == Feed(old(Pending()), data)
    {
      ghost var start := Pending();
      for i := 0 to |data|
        invariant Valid() && responseLen == old(responseLen)
        invariant Feed(start, data) == Feed(Pending(), data[i..])
      {
        var byte := data[i];
        assert data[i..][1..] == data[i + 1..];
        if byte == LineFeed || byte == CarriageReturn {
          var lineBuf := buffer[..index];
          index := 0;
          return Some(lineBuf);
        } else if index < buffer.Length {
          ghost var before := Pending();
          buffer[index] := byte;
          index := index + 1;
          assert Pending() == before + [byte];
        }
      }
      assert data[|data|..] == [];
      return None;
    }

    /** Hands out the pending response once. */
    method GetResponse() returns (r: Option<seq<u8>>)
      requires Valid()
      modifies this
      ensures Valid() && responseLen == 0 && index == old(index)
      ensures old(responseLen) > 0 ==> r == Some(responseBuffer[..old(responseLen)])
      ensures old(responseLen) == 0 ==> r == None
    {
      if responseLen > 0 {
        var len := responseLen;
        responseLen := 0;
        r := Some(responseBuffer[..len]);
      } else {
        r := None;
      }
    }

    /** `getpos`: the response becomes `km.pos(x,y)` and a newline. */
    method HandleGetPos() returns (t: CommandType)
      requires Valid()
      modifies this, responseBuffer
      ensures Valid() && t == Response && index == old(index)
      ensures responseBuffer[..responseLen] == PosResponse(mouseState.x, mouseState.y)
    {
      var p := mouseState.Position();
      var resp, idx := FormatPos(p.0, p.1);
      forall j | 0 <= j < idx {
        responseBuffer[j] := resp[j];
      }
      assert responseBuffer[..idx] == resp[..idx];
      responseLen := idx;
      t := Response;
    }

    /** `move(x,y)`: adds the deltas to the tracked position, saturating, and
        sends them to the FPGA as a mouse report. */
    method ParseMouseMove(line: seq<u8>) returns (t: CommandType)
      requires Valid() && |line| >= |MovePrefix|
      modifies mouseState
      ensures t == MoveCommand(line[|MovePrefix|..])
      ensures MoveDeltas(line[|MovePrefix|..]).None? ==>
        mouseState.x == old(mouseState.x) && mouseState.y == old(mouseState.y)
      ensures MoveDeltas(line[|MovePrefix|..]).Some? ==>
        var d := MoveDeltas(line[|MovePrefix|..]).value;
        mouseState.x == State.SaturatingAdd(old(mouseState.x), d.0)
        && mouseState.y == State.SaturatingAdd(old(mouseState.y), d.1)
    {
      var d := ReadMoveArgs(line[|MovePrefix|..]);
      if d.None? {
        return NoOp;
      }
      mouseState.UpdateRelative(d.value.0, d.value.1);
      t := FpgaCommand(MouseCommand(0, AsU8(d.value.0), AsU8(d.value.1), 0));
    }

    /** `wheel(n)`: sends the amount's low byte as the wheel movement. */
    method ParseWheelCommand(line: seq<u8>) returns (t: CommandType)
      requires |line| >= |WheelPrefix|
      ensures t == WheelCommand(line[|WheelPrefix|..])
    {
      var args := line[|WheelPrefix|..];
      var paren := Position(args, CloseParen);
      if paren.None? {
        return NoOp;
      }
      var amount := ParseInt(args[..paren.value]);
      t := FpgaCommand(MouseCommand(0, 0, 0, AsU8(amount.value)));
    }
  }

  /** A move followed by `getpos`: the reply reports the moved position, and
      it is handed out once. */
  method MoveThenGetPos() returns (sent: CommandType, first: Option<seq<u8>>, second: Option<seq<u8>>)
    ensures sent == FpgaCommand(MouseCommand(0, 3, 0xFC, 0))
    ensures first == Some(PosResponse(3, -4)) && second == None
  {
    var p := new CommandProcessor();
    var args := SignedText(3) + [Comma] + SignedText(-4) + [CloseParen];
    var line := MovePrefix + args;
    assert line[|MovePrefix|..] == args + [];
    MoveDeltasOfText(3, -4, []);
    sent := p.ParseMouseMove(line);
    var _ := p.HandleGetPos();
    first := p.GetResponse();
    second := p.GetResponse();
  }
}
