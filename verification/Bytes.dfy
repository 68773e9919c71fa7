/** Bytes and the little-endian machine integers built from them. */
module Bytes {

  type byte = b: int | 0 <= b < 256

  const TWO32: int := 0x1_0000_0000

  predicate FitsInt32(v: int) {
    -0x8000_0000 <= v <= 0x7FFF_FFFF
  }

  /** The four bytes an `int32_t` or `uint32_t` store of `v` leaves in memory. */
  function Le32(v: int): (s: seq<byte>)
    ensures |s| == 4
  {
    [v % 256, v / 256 % 256, v / 0x1_0000 % 256, v / 0x100_0000 % 256]
  }

  function FromLe32(s: seq<byte>): (u: nat)
    requires |s| == 4
    ensures u < TWO32
  {
    s[0] as int + 256 * (s[1] as int) + 0x1_0000 * (s[2] as int) + 0x100_0000 * (s[3] as int)
  }

  function Signed32(u: nat): int {
    if u < 0x8000_0000 then u else u - TWO32
  }

  /** Sign extension of two bytes, the lower one first. */
  function Signed16(lo: byte, hi: byte): int {
    lo as int + 256 * Signed8(hi)
  }

  /** Sign extension of one byte. */
  function Signed8(b: byte): int {
    if b < 128 then b else b - 256
  }

  lemma Multiple(d: int, k: int)
    requires d > 0
    ensures (k >= 1 ==> d * k >= d) && (k <= -1 ==> d * k <= -d)
  {
  }

  /** Quotient and remainder are unique. */
  lemma Quotient(n: int, d: int, q: int, r: int)
    requires 0 <= r < d && n == d * q + r
    ensures n / d == q && n % d == r
  {
    assert n == d * (n / d) + n % d;
    assert d * (q - n / d) == n % d - r;
    Multiple(d, q - n / d);
  }

  /** A store keeps the value modulo 2^32. */
  lemma Le32RoundTrip(v: int)
    ensures FromLe32(Le32(v)) == v % TWO32
  {
    var a := v / 256;
    var b := a / 256;
    var c := b / 256;
    Quotient(v, 0x1_0000, b, 256 * (a % 256) + v % 256);
    Quotient(v, 0x100_0000, c, 0x1_0000 * (b % 256) + 256 * (a % 256) + v % 256);
    Quotient(v, TWO32, c / 256, 0x100_0000 * (c % 256) + 0x1_0000 * (b % 256) + 256 * (a % 256) + v % 256);
  }

  /** Every four bytes are the image of the value read from them. */
  lemma FromLe32RoundTrip(s: seq<byte>)
    requires |s| == 4
    ensures Le32(FromLe32(s)) == s
  {
    var (w, x, y, z) := (s[0] as int, s[1] as int, s[2] as int, s[3] as int);
    var u := FromLe32(s);
    Quotient(u, 256, x + 256 * y + 0x1_0000 * z, w);
    Quotient(x + 256 * y + 0x1_0000 * z, 256, y + 256 * z, x);
    Quotient(y + 256 * z, 256, z, y);
    Quotient(u, 0x1_0000, y + 256 * z, w + 256 * x);
    Quotient(u, 0x100_0000, z, w + 256 * x + 0x1_0000 * y);
  }

  /** The lowest byte comes first, and the others are those of the value without it. */
  lemma LowByteFirst(v: int)
    ensures Le32(v)[0] == v % 256 && Le32(v)[1..] == Le32(v / 256)[..3]
  {
    var a := v / 256;
    var b := a / 256;
    var c := b / 256;
    Quotient(v, 0x1_0000, b, 256 * (a % 256) + v % 256);
    Quotient(v, 0x100_0000, c, 0x1_0000 * (b % 256) + 256 * (a % 256) + v % 256);
    Quotient(a, 0x1_0000, c, 256 * (b % 256) + a % 256);
  }

  /** Reading a stored value back as signed gives it again exactly when it fits in 32 bits. */
  lemma Le32SignedRoundTrip(v: int)
    ensures Signed32(FromLe32(Le32(v))) == v <==> FitsInt32(v)
  {
    hide Le32, FromLe32;
    Le32RoundTrip(v);
  }

  /** Memory `m` with `bytes` stored from index `at` on. */
  function Splice(m: seq<byte>, at: nat, bytes: seq<byte>): (r: seq<byte>)
    requires at + |bytes| <= |m|
    ensures |r| == |m|
    ensures forall n | 0 <= n < |m| :: r[n] == if at <= n < at + |bytes| then bytes[n - at] else m[n]
  {
    m[..at] + bytes + m[at + |bytes|..]
  }

  /** `memcpy` of known bytes into a buffer. */
  method WriteBytes(buf: array<byte>, at: nat, bytes: seq<byte>)
    requires at + |bytes| <= buf.Length
    modifies buf
    ensures buf[..] == Splice(old(buf[..]), at, bytes)
  {
    for k := 0 to |bytes|
      invariant forall n | 0 <= n < buf.Length ::
                  buf[n] == if at <= n < at + k then bytes[n - at] else old(buf[n])
    {
      buf[at + k] := bytes[k];
    }
  }
}
