/** Machine integer ranges, the Option/Result wrappers and byte-string helpers
    shared by every module of the firmware model. */
module Common {

  type u8 = x: int | 0 <= x < 0x100
  type u16 = x: int | 0 <= x < 0x1_0000
  type u32 = x: int | 0 <= x < 0x1_0000_0000
  type i8 = x: int | -0x80 <= x < 0x80
  type i16 = x: int | -0x8000 <= x < 0x8000
  type i32 = x: int | -0x8000_0000 <= x < 0x8000_0000

  datatype Option<+T> = None | Some(value: T)

  datatype Result<+T, +E> = Ok(value: T) | Err(error: E)

  function Min(a: int, b: int): int { if a <= b then a else b }

  function Max(a: int, b: int): int { if a <= b then b else a }

  /** The bytes of an ASCII string literal, as the firmware's `b"..."` literals. */
  function Bytes(s: string): (r: seq<u8>)
    requires forall i | 0 <= i < |s| :: s[i] as int < 0x100
    ensures |r| == |s|
    ensures forall i | 0 <= i < |s| :: r[i] == s[i] as int
  {
    seq(|s|, i requires 0 <= i < |s| => s[i] as int)
  }

  /** n zero bytes, as a fresh `[0u8; n]` buffer. */
  function Zeros(n: nat): (r: seq<u8>)
    ensures |r| == n && forall i | 0 <= i < n :: r[i] == 0
  {
    seq(n, i => 0)
  }

  /** Index of the first occurrence of `b` in `s`, as `iter().position(|&c| c == b)`. */
  function Position(s: seq<u8>, b: u8): (r: Option<nat>)
    ensures r.Some? <==> b in s
    ensures r.Some? ==> r.value < |s| && s[r.value] == b && b !in s[..r.value]
  {
    if |s| == 0 then None
    else if s[0] == b then Some(0)
    else match Position(s[1..], b)
      case None => None
      case Some(k) =>
        assert s[1..][..k] == s[1..k + 1];
        Some(k + 1)
  }

  /** Two's-complement wrap into 16 bits: the result of release-mode `i16`
      arithmetic, which drops the carry. */
  function WrapI16(v: int): (r: i16)
    ensures (r - v) % 0x1_0000 == 0
    ensures -0x8000 <= v < 0x8000 ==> r == v
  {
    (v + 0x8000) % 0x1_0000 - 0x8000
  }

  /** `v as u8` for a signed `v`: its low eight bits. */
  function AsU8(v: int): (r: u8)
    ensures (r - v) % 0x100 == 0
    ensures 0 <= v < 0x100 ==> r == v
  {
    v % 0x100
  }

  /** The first `b` in `s + [b] + r`, when `s` has none, is at `|s|`. */
  lemma PositionAfter(s: seq<u8>, b: u8, r: seq<u8>)
    requires b !in s
    ensures Position(s + [b] + r, b) == Some(|s|)
  {
    var u := s + [b] + r;
    assert u[|s|] == b;
    assert u[..|s|] == s;
  }
}
