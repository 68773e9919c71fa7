/**
 Base64 (section 4 of RFC 4648) as the secret store writes and reads it, and the sealed blob around it.
 */
module Base64 {
  import opened Bytes

  type Sextet = v: int | 0 <= v < 64

  /** The alphabet: upper case, lower case, decimal digits, '+' and '/'. */
  function Digit(v: Sextet): char {
    if v < 26 then ('A' as int + v) as char
    else if v < 52 then ('a' as int + v - 26) as char
    else if v < 62 then ('0' as int + v - 52) as char
    else if v == 62 then '+'
    else '/'
  }

  /** The inverse table: -1 outside the alphabet. */
  function Inv(c: char): (v: int)
    ensures -1 <= v < 64
  {
    if 'A' <= c <= 'Z' then c as int - 'A' as int
    else if 'a' <= c <= 'z' then c as int - 'a' as int + 26
    else if '0' <= c <= '9' then c as int - '0' as int + 52
    else if c == '+' then 62
    else if c == '/' then 63
    else -1
  }

  /** The digits are table 1 of RFC 4648, by their codes. */
  lemma DigitIsAlphabet(v: Sextet)
    ensures Digit(v) as int == if v <= 25 then 65 + v else if v <= 51 then 71 + v else if v <= 61 then v - 4
                               else if v == 62 then 43 else 47
  {
  }

  lemma InvDigit(v: Sextet)
    ensures Inv(Digit(v)) == v && Digit(v) != '='
  {
  }

  lemma DigitInv(c: char)
    requires Inv(c) >= 0
    ensures Digit(Inv(c)) == c
  {
  }

  // ---------------------------------------------------------------------------------------------
  // Encoding
  // ---------------------------------------------------------------------------------------------

  /** The `k`-th six bits of a 24-bit group, most significant first. */
  function Six(n: nat, k: nat): Sextet
    requires k < 4
  {
    if k == 0 then n / 0x4_0000 % 64
    else if k == 1 then n / 0x1000 % 64
    else if k == 2 then n / 64 % 64
    else n % 64
  }

  /** One to three bytes as a 24-bit group, missing bytes zero. */
  function Group(x: seq<byte>): nat
    requires x != []
  {
    0x1_0000 * x[0] as int + (if |x| > 1 then 256 * x[1] as int else 0) + (if |x| > 2 then x[2] else 0)
  }

  function EncodeGroup(x: seq<byte>): string
    requires x != []
  {
    var n := Group(x);
    [Digit(Six(n, 0)), Digit(Six(n, 1)),
     if |x| > 1 then Digit(Six(n, 2)) else '=', if |x| > 2 then Digit(Six(n, 3)) else '=']
  }

  function Encode(x: seq<byte>): string {
    if x == [] then "" else EncodeGroup(x) + (if |x| <= 3 then "" else Encode(x[3..]))
  }

  method Base64Encode(data: seq<byte>) returns (out: string)
    ensures out == Encode(data)
  {
    hide Digit, Six;
    out := "";
    var i := 0;
    while i < |data|
      invariant 0 <= i
      invariant out + (if i <= |data| then Encode(data[i..]) else "") == Encode(data)
    {
      ghost var (was, rest) := (out, data[i..]);
      var n: nat := 0x1_0000 * data[i] as int;
      if i + 1 < |data| { n := n + 256 * data[i + 1] as int; }
      if i + 2 < |data| { n := n + data[i + 2] as int; }
      assert n == Group(rest);
      out := out + [Digit(Six(n, 0))];
      out := out + [Digit(Six(n, 1))];
      out := out + [if i + 1 < |data| then Digit(Six(n, 2)) else '='];
      out := out + [if i + 2 < |data| then Digit(Six(n, 3)) else '='];
      assert out == was + EncodeGroup(rest);
      i := i + 3;
      EncodeStep(rest, was);
      if i <= |data| { assert rest[3..] == data[i..]; }
    }
  }

  lemma EncodeStep(x: seq<byte>, before: string)
    requires x != []
    ensures before + Encode(x) == before + EncodeGroup(x) + (if |x| < 3 then "" else Encode(x[3..]))
  {
    hide EncodeGroup, Encode;
    EncodeOnce(x);
    Regrouped(before, EncodeGroup(x), if |x| < 3 then "" else Encode(x[3..]));
  }

  lemma EncodeOnce(x: seq<byte>)
    requires x != []
    ensures Encode(x) == EncodeGroup(x) + (if |x| < 3 then "" else Encode(x[3..]))
  {
    hide EncodeGroup;
  }

  lemma Regrouped(a: string, b: string, c: string)
    ensures a + (b + c) == a + b + c
  {
  }

  // ---------------------------------------------------------------------------------------------
  // Decoding
  // ---------------------------------------------------------------------------------------------

  /** The alphabet characters before the first '=', as numbers; everything else is skipped. */
  function Digits(s: string): seq<Sextet> {
    if s == "" || s[0] == '=' then []
    else if Inv(s[0]) < 0 then Digits(s[1..])
    else [Inv(s[0])] + Digits(s[1..])
  }

  /** The bits left over when the count is zero, two, four or six. */
  predicate Leftover(left: nat, count: nat) {
    count in {0, 2, 4, 6} && left < Scale(count)
  }

  function Scale(count: nat): nat {
    if count == 0 then 1 else if count == 2 then 4 else if count == 4 then 16 else 64
  }

  /** Six-bit digits regrouped into bytes, keeping only the bits not yet written. */
  function Regroup(ds: seq<Sextet>, left: nat, count: nat): seq<byte>
    requires Leftover(left, count)
  {
    if ds == [] then []
    else
      var n := left * 64 + ds[0];
      if count == 0 then Regroup(ds[1..], n, 6)
      else
        var c := count - 2;
        [Byte(n, c)] + Regroup(ds[1..], n % Scale(c), c)
  }

  function Byte(n: nat, count: nat): byte {
    n / Scale(count) % 256
  }

  function Decode(s: string): seq<byte> {
    Regroup(Digits(s), 0, 0)
  }

  lemma Mod256(x: int, k: int)
    ensures (x + 256 * k) % 256 == x % 256
  {
  }

  lemma LowBits(b: nat, n: nat, k: int, count: nat)
    requires count in {0, 2, 4} && b == n + k * (256 * Scale(count))
    ensures b % Scale(count) == n % Scale(count) && Byte(b, count) == Byte(n, count)
  {
    if count == 0 {
      Mod256(n, k);
    } else if count == 2 {
      assert b == n + 4 * (256 * k);
      assert b / 4 == n / 4 + 256 * k;
      Mod256(n / 4, k);
    } else {
      assert b == n + 16 * (256 * k);
      assert b / 16 == n / 16 + 256 * k;
      Mod256(n / 16, k);
    }
  }

  /** What one more digit makes of the 32-bit accumulator. */
  function Shift(bits: nat, v: Sextet): nat {
    bits * 64 % TWO32 + v
  }

  /** The accumulator is 32 bits wide and never cleared: its low bits are all that is ever used. */
  lemma AccumulatorLow(bits: nat, v: Sextet, count: nat)
    requires bits < TWO32 && count in {2, 4, 6}
    ensures var (n, c) := (bits % Scale(count) * 64 + v, count - 2);
            Shift(bits, v) % Scale(c) == n % Scale(c) && Byte(Shift(bits, v), c) == Byte(n, c)
  {
    var (l, a) := (bits % Scale(count), bits / Scale(count));
    var q := bits * 64 / TWO32;
    assert bits == Scale(count) * a + l;
    LowBits(Shift(bits, v), l * 64 + v,
            a - q * if count == 2 then 0x100_0000 else if count == 4 then 0x40_0000 else 0x10_0000, count - 2);
  }

  lemma ShiftFits(bits: nat, v: Sextet)
    ensures Shift(bits, v) < TWO32 && Shift(bits, v) % 64 == v
  {
    var q := bits * 64 / TWO32;
    assert Shift(bits, v) == 64 * (bits - 0x400_0000 * q) + v;
  }

  /** One digit through the accumulator writes and leaves what regrouping does. */
  lemma DigitStep(bits: nat, v: Sextet, count: nat, ds: seq<Sextet>)
    requires bits < TWO32 && count in {0, 2, 4, 6}
    ensures var b := Shift(bits, v);
            Regroup([v] + ds, bits % Scale(count), count) ==
            if count == 0 then Regroup(ds, b % Scale(6), 6)
            else [Byte(b, count - 2)] + Regroup(ds, b % Scale(count - 2), count - 2)
  {
    hide Regroup;
    RegroupCons(v, ds, bits % Scale(count), count);
    ShiftFits(bits, v);
    if count > 0 { AccumulatorLow(bits, v, count); }
  }

  lemma DigitsOfNothing()
    ensures Digits("") == []
  {
  }

  lemma DigitsAt(s: string, i: nat)
    requires i < |s|
    ensures Digits(s[i..]) == if s[i] == '=' then [] else if Inv(s[i]) < 0 then Digits(s[i + 1..])
                              else [Inv(s[i])] + Digits(s[i + 1..])
  {
    assert s[i..][1..] == s[i + 1..];
  }

  /** What was written and what is still to come make up the decoded bytes. */
  ghost predicate OnTrack(s: string, i: nat, out: seq<byte>, bits: nat, count: nat) {
    && i <= |s| && bits < TWO32 && count in {0, 2, 4, 6}
    && out + Regroup(Digits(s[i..]), bits % Scale(count), count) == Decode(s)
  }

  lemma Starts(s: string)
    ensures OnTrack(s, 0, [], 0, 0)
  {
    hide Regroup, Digits;
    assert s[0..] == s;
  }

  lemma Skips(s: string, i: nat, out: seq<byte>, bits: nat, count: nat)
    requires i < |s| && OnTrack(s, i, out, bits, count) && s[i] != '=' && Inv(s[i]) < 0
    ensures OnTrack(s, i + 1, out, bits, count)
  {
    hide Regroup, Digits, Decode;
    DigitsAt(s, i);
  }

  lemma Takes(s: string, i: nat, out: seq<byte>, bits: nat, count: nat)
    requires i < |s| && OnTrack(s, i, out, bits, count) && s[i] != '=' && Inv(s[i]) >= 0
    ensures var b := Shift(bits, Inv(s[i]));
            if count == 0 then OnTrack(s, i + 1, out, b, 6)
            else OnTrack(s, i + 1, out + [Byte(b, count - 2)], b, count - 2)
  {
    hide Regroup, Digits, Decode, Shift, Byte, Inv;
    DigitsAt(s, i);
    ShiftFits(bits, Inv(s[i]));
    DigitStep(bits, Inv(s[i]), count, Digits(s[i + 1..]));
  }

  lemma Stops(s: string, i: nat, out: seq<byte>, bits: nat, count: nat)
    requires i <= |s| && OnTrack(s, i, out, bits, count) && (i == |s| || s[i] == '=')
    ensures out == Decode(s)
  {
    hide Regroup, Digits, Decode;
    if i < |s| {
      DigitsAt(s, i);
    } else {
      assert s[i..] == "";
      DigitsOfNothing();
    }
    RegroupNothing(bits % Scale(count), count);
  }

  method Base64Decode(s: string) returns (out: seq<byte>)
    ensures out == Decode(s)
  {
    hide OnTrack, Decode, Shift, Byte, Inv;
    out := [];
    var bits, bitCount := 0, 0;
    Starts(s);
    var i := 0;
    while i < |s|
      invariant 0 <= i <= |s| && 0 <= bits && bitCount in {0, 2, 4, 6}
      invariant OnTrack(s, i, out, bits, bitCount)
    {
      var c := s[i];
      if c == '=' { break; }
      var v := Inv(c);
      if v < 0 {
        Skips(s, i, out, bits, bitCount);
        i := i + 1;
        continue;
      }
      Takes(s, i, out, bits, bitCount);
      i := i + 1;
      bits := Shift(bits, v);
      bitCount := bitCount + 6;
      if bitCount >= 8 {
        bitCount := bitCount - 8;
        out := out + [Byte(bits, bitCount)];
      }
    }
    Stops(s, i, out, bits, bitCount);
  }

  lemma RegroupNothing(left: nat, count: nat)
    requires Leftover(left, count)
    ensures Regroup([], left, count) == []
  {
  }

  // ---------------------------------------------------------------------------------------------
  // What the decoded bytes are
  // ---------------------------------------------------------------------------------------------

  /** Digits appended to a number in base 64. */
  function Append64(n: nat, ds: seq<Sextet>): nat
    decreases |ds|
  {
    if ds == [] then n else Append64(n * 64 + ds[0], ds[1..])
  }

  /** Bytes appended to a number in base 256. */
  function Append256(n: nat, bs: seq<byte>): nat
    decreases |bs|
  {
    if bs == [] then n else Append256(n * 256 + bs[0], bs[1..])
  }

  /**
   Decoding any text at all: the bytes are the big-endian number that the digits spell in base 64,
   without the last zero to six bits that do not fill a byte.
   */
  lemma DecodeIsBigEndian(s: string)
    ensures var ds := Digits(s);
            && |Decode(s)| == 6 * |ds| / 8
            && Append256(0, Decode(s)) == Append64(0, ds) / Scale(6 * |ds| % 8)
  {
    RegroupIsBigEndian(Digits(s), 0, 0, 0);
  }

  lemma {:induction false} RegroupIsBigEndian(ds: seq<Sextet>, left: nat, count: nat, before: nat)
    requires Leftover(left, count)
    ensures var (r, c) := (Regroup(ds, left, count), (count + 6 * |ds|) % 8);
            && |r| == (count + 6 * |ds|) / 8
            && Append256(before, r) == Append64(before * Scale(count) + left, ds) / Scale(c)
    decreases |ds|
  {
    hide Scale, Byte, Regroup;
    if ds == [] {
      RegroupNothing(left, count);
      LeftoverDropped(before, left, count);
    } else {
      var (v, rest) := (ds[0], ds[1..]);
      var n := left * 64 + v;
      assert ds == [v] + rest;
      RegroupCons(v, rest, left, count);
      ByteStep(before, left, count, v);
      if count == 0 {
        RegroupIsBigEndian(rest, n, 6, before);
      } else {
        var c := count - 2;
        OneByteMore(c + 6 * |rest|);
        RegroupIsBigEndian(rest, n % Scale(c), c, before * 256 + Byte(n, c));
        Append256Cons(before, Byte(n, c), Regroup(rest, n % Scale(c), c));
      }
    }
  }

  lemma OneByteMore(bits: nat)
    ensures (bits + 8) / 8 == bits / 8 + 1 && (bits + 8) % 8 == bits % 8
  {
  }

  lemma Append256Cons(n: nat, b: byte, rest: seq<byte>)
    ensures Append256(n, [b] + rest) == Append256(n * 256 + b, rest)
  {
    assert ([b] + rest)[1..] == rest;
  }

  lemma LeftoverDropped(before: nat, left: nat, count: nat)
    requires Leftover(left, count)
    ensures (before * Scale(count) + left) / Scale(count) == before
  {
    if count == 0 {
    } else if count == 2 {
      assert (before * 4 + left) / 4 == before;
    } else if count == 4 {
      assert (before * 16 + left) / 16 == before;
    } else {
      assert (before * 64 + left) / 64 == before;
    }
  }

  /** One more digit, as a number: a byte is written exactly when a byte is full. */
  lemma ByteStep(before: nat, left: nat, count: nat, v: Sextet)
    requires Leftover(left, count)
    ensures var (n, was) := (left * 64 + v, before * Scale(count) + left);
            if count == 0 then Leftover(n, 6) && was * 64 + v == before * Scale(6) + n
            else
              var c := count - 2;
              && Leftover(n % Scale(c), c)
              && was * 64 + v == (before * 256 + Byte(n, c)) * Scale(c) + n % Scale(c)
  {
  }

  // ---------------------------------------------------------------------------------------------
  // Round trips
  // ---------------------------------------------------------------------------------------------

  lemma {:induction false} EncodeLength(x: seq<byte>)
    ensures |Encode(x)| == (|x| + 2) / 3 * 4
  {
    hide EncodeGroup;
    if x != [] {
      GroupIsFour(x);
      if |x| > 3 { EncodeLength(x[3..]); }
    }
  }

  lemma DigitsOfGroup(x: seq<byte>, rest: string)
    requires x != []
    ensures var n := Group(x);
            Digits(EncodeGroup(x) + rest) ==
            if |x| == 1 then [Six(n, 0), Six(n, 1)]
            else if |x| == 2 then [Six(n, 0), Six(n, 1), Six(n, 2)]
            else [Six(n, 0), Six(n, 1), Six(n, 2), Six(n, 3)] + Digits(rest)
  {
    hide Six, Digit, Inv;
    var n := Group(x);
    var t := EncodeGroup(x) + rest;
    assert t[1..][1..] == t[2..] && t[2..][1..] == t[3..] && t[3..][1..] == rest;
    InvDigit(Six(n, 0));
    InvDigit(Six(n, 1));
    InvDigit(Six(n, 2));
    InvDigit(Six(n, 3));
    assert Digits(t) == [Six(n, 0)] + Digits(t[1..]);
    assert Digits(t[1..]) == [Six(n, 1)] + Digits(t[2..]);
    if |x| > 1 { assert Digits(t[2..]) == [Six(n, 2)] + Digits(t[3..]); }
    if |x| > 2 { assert Digits(t[3..]) == [Six(n, 3)] + Digits(rest); }
  }

  /** The digits of a group through its bytes. */
  lemma SixOfBytes(x: byte, y: byte, z: byte)
    ensures var n := 0x1_0000 * x as int + 256 * y as int + z as int;
            && Six(n, 0) == x / 4 && Six(n, 1) == x % 4 * 16 + y / 16
            && Six(n, 2) == y % 16 * 4 + z / 64 && Six(n, 3) == z % 64
  {
    hide Six;
    FirstSix(x, y, z);
    SecondSix(x, y, z);
    ThirdSix(x, y, z);
    FourthSix(x, y, z);
  }

  lemma FirstSix(x: byte, y: byte, z: byte)
    ensures Six(0x1_0000 * x as int + 256 * y as int + z as int, 0) == x / 4
  {
    Quotient(0x1_0000 * x as int + 256 * y as int + z as int, 0x4_0000, x / 4,
             0x1_0000 * (x % 4) + 256 * y as int + z as int);
  }

  lemma SecondSix(x: byte, y: byte, z: byte)
    ensures Six(0x1_0000 * x as int + 256 * y as int + z as int, 1) == x % 4 * 16 + y / 16
  {
    var q := 16 * x as int + y / 16;
    Quotient(0x1_0000 * x as int + 256 * y as int + z as int, 0x1000, q, 256 * (y % 16) + z as int);
    Quotient(q, 64, x / 4, x % 4 * 16 + y / 16);
  }

  lemma ThirdSix(x: byte, y: byte, z: byte)
    ensures Six(0x1_0000 * x as int + 256 * y as int + z as int, 2) == y % 16 * 4 + z / 64
  {
    var q := 1024 * x as int + 4 * y as int + z / 64;
    Quotient(0x1_0000 * x as int + 256 * y as int + z as int, 64, q, z % 64);
    Quotient(q, 64, 16 * x as int + y / 16, y % 16 * 4 + z / 64);
  }

  lemma FourthSix(x: byte, y: byte, z: byte)
    ensures Six(0x1_0000 * x as int + 256 * y as int + z as int, 3) == z % 64
  {
    Quotient(0x1_0000 * x as int + 256 * y as int + z as int, 64, 1024 * x as int + 4 * y as int + z / 64, z % 64);
  }

  /** One digit regrouped. */
  lemma RegroupCons(v: Sextet, ds: seq<Sextet>, left: nat, count: nat)
    requires Leftover(left, count)
    ensures var n := left * 64 + v;
            Regroup([v] + ds, left, count) ==
            if count == 0 then Regroup(ds, n, 6)
            else [Byte(n, count - 2)] + Regroup(ds, n % Scale(count - 2), count - 2)
  {
    assert ([v] + ds)[1..] == ds;
  }

  lemma FirstByte(x: byte, y: byte, ds: seq<Sextet>)
    ensures Regroup([x / 4, x % 4 * 16 + y / 16] + ds, 0, 0) == [x] + Regroup(ds, y / 16, 4)
  {
    hide Regroup;
    var (d, e) := (x / 4, x % 4 * 16 + y / 16);
    RegroupCons(d, [e] + ds, 0, 0);
    RegroupCons(e, ds, d, 6);
    assert [d, e] + ds == [d] + ([e] + ds);
    Quotient(d * 64 + e, 16, x, y / 16);
  }

  lemma SecondByte(y: byte, z: byte, ds: seq<Sextet>)
    ensures Regroup([y % 16 * 4 + z / 64] + ds, y / 16, 4) == [y] + Regroup(ds, z / 64, 2)
  {
    hide Regroup;
    RegroupCons(y % 16 * 4 + z / 64, ds, y / 16, 4);
    Quotient(y / 16 * 64 + (y % 16 * 4 + z / 64), 4, y, z / 64);
  }

  lemma ThirdByte(z: byte, ds: seq<Sextet>)
    ensures Regroup([z % 64] + ds, z / 64, 2) == [z] + Regroup(ds, 0, 0)
  {
    hide Regroup;
    RegroupCons(z % 64, ds, z / 64, 2);
  }

  lemma OneByteBack(a: byte)
    ensures Regroup([a / 4, a % 4 * 16], 0, 0) == [a]
  {
    hide Regroup;
    FirstByte(a, 0, []);
    assert [a / 4, a % 4 * 16 + 0 / 16] + [] == [a / 4, a % 4 * 16];
    RegroupNothing(0, 4);
  }

  lemma TwoBytesBack(a: byte, b: byte)
    ensures Regroup([a / 4, a % 4 * 16 + b / 16, b % 16 * 4], 0, 0) == [a, b]
  {
    hide Regroup;
    var d := b % 16 * 4;
    FirstByte(a, b, [d]);
    SecondByte(b, 0, []);
    assert [a / 4, a % 4 * 16 + b / 16] + [d] == [a / 4, a % 4 * 16 + b / 16, d] && [d] + [] == [d];
    RegroupNothing(0, 2);
  }

  lemma ThreeBytesBack(a: byte, b: byte, c: byte, ds: seq<Sextet>)
    ensures Regroup([a / 4, a % 4 * 16 + b / 16, b % 16 * 4 + c / 64, c % 64] + ds, 0, 0) ==
            [a, b, c] + Regroup(ds, 0, 0)
  {
    hide Regroup;
    var (d0, d1, d2, d3) := (a / 4, a % 4 * 16 + b / 16, b % 16 * 4 + c / 64, c % 64);
    FirstByte(a, b, [d2, d3] + ds);
    SecondByte(b, c, [d3] + ds);
    ThirdByte(c, ds);
    assert [d0, d1] + ([d2, d3] + ds) == [d0, d1, d2, d3] + ds && [d2] + ([d3] + ds) == [d2, d3] + ds;
  }

  /** The digits of one group give its bytes back. */
  lemma GroupRoundTrip(x: seq<byte>, rest: string)
    requires x != [] && (|x| < 3 ==> rest == "")
    ensures Decode(EncodeGroup(x) + rest) == if |x| < 3 then x else x[..3] + Decode(rest)
  {
    hide Six, Regroup, Digits, EncodeGroup;
    var (a, b, c) := (x[0], if |x| > 1 then x[1] else 0, if |x| > 2 then x[2] else 0);
    DigitsOfGroup(x, rest);
    SixOfBytes(a, b, c);
    if |x| == 1 {
      OneByteBack(a);
    } else if |x| == 2 {
      TwoBytesBack(a, b);
    } else {
      ThreeBytesBack(a, b, c, Digits(rest));
    }
  }

  /** Decoding what was encoded, for every byte sequence. */
  lemma {:induction false} DecodeEncode(x: seq<byte>)
    ensures Decode(Encode(x)) == x
  {
    hide Regroup, Digits, EncodeGroup, Decode;
    if x == [] {
      DecodeNothing();
    } else {
      var rest := if |x| <= 3 then "" else Encode(x[3..]);
      GroupRoundTrip(x, rest);
      if |x| >= 3 {
        DecodeEncode(x[3..]);
        assert x == x[..3] + x[3..];
      }
    }
  }

  lemma DecodeNothing()
    ensures Decode("") == []
  {
  }

  predicate Alpha(c: char) {
    Inv(c) >= 0
  }

  predicate FullGroup(g: string) {
    |g| == 4 && Alpha(g[0]) && Alpha(g[1]) && Alpha(g[2]) && Alpha(g[3])
  }

  /** A last group, with its padding and no bits set that decoding would drop. */
  predicate LastGroup(g: string) {
    FullGroup(g) ||
    (&& |g| == 4 && Alpha(g[0]) && Alpha(g[1]) && g[3] == '='
     && if g[2] == '=' then Inv(g[1]) % 16 == 0 else Alpha(g[2]) && Inv(g[2]) % 4 == 0)
  }

  predicate Canonical(s: string) {
    s == "" || LastGroup(s) || (|s| > 4 && FullGroup(s[..4]) && Canonical(s[4..]))
  }

  /** The bytes of a last group: three digits missing none, one or two of them padding. */
  function GroupBytes(g: string): seq<byte>
    requires LastGroup(g)
  {
    var a := Inv(g[0]) * 4 + Inv(g[1]) / 16;
    if g[2] == '=' then [a]
    else
      var b := Inv(g[1]) % 16 * 16 + Inv(g[2]) / 4;
      if g[3] == '=' then [a, b]
      else
        [a, b, Inv(g[2]) % 4 * 64 + Inv(g[3])]
  }

  lemma EncodeGroupBytes(g: string)
    requires LastGroup(g)
    ensures 1 <= |GroupBytes(g)| <= 3 && (FullGroup(g) ==> |GroupBytes(g)| == 3)
    ensures EncodeGroup(GroupBytes(g)) == g
  {
    hide Six, Digit, Inv;
    PaddingIsNoDigit();
    DigitInv(g[0]);
    DigitInv(g[1]);
    if g[2] == '=' {
      SixBack(Inv(g[0]), Inv(g[1]), 0, 0);
    } else {
      DigitInv(g[2]);
      if g[3] == '=' {
        SixBack(Inv(g[0]), Inv(g[1]), Inv(g[2]), 0);
      } else {
        DigitInv(g[3]);
        SixBack(Inv(g[0]), Inv(g[1]), Inv(g[2]), Inv(g[3]));
      }
    }
  }

  lemma SixBack(d: Sextet, e: Sextet, f: Sextet, g: Sextet)
    ensures var n := 0x1_0000 * (d * 4 + e / 16) as int + 256 * (e % 16 * 16 + f / 4) as int + (f % 4 * 64 + g);
            Six(n, 0) == d && Six(n, 1) == e && Six(n, 2) == f && Six(n, 3) == g
  {
    SixOfBytes(d * 4 + e / 16, e % 16 * 16 + f / 4, f % 4 * 64 + g);
  }

  lemma PaddingIsNoDigit()
    ensures !Alpha('=')
  {
  }

  lemma {:induction false} CanonicalIsEncoding(s: string) returns (x: seq<byte>)
    requires Canonical(s)
    ensures Encode(x) == s
  {
    hide LastGroup, GroupBytes, EncodeGroup;
    if s == "" {
      x := [];
    } else if LastGroup(s) {
      EncodeGroupBytes(s);
      x := GroupBytes(s);
      assert EncodeGroup(x) + "" == EncodeGroup(x);
    } else {
      FullIsLast(s[..4]);
      EncodeGroupBytes(s[..4]);
      var y := CanonicalIsEncoding(s[4..]);
      x := GroupBytes(s[..4]) + y;
      assert x[3..] == y && s == s[..4] + s[4..];
      EncodePrefix(x, GroupBytes(s[..4]));
    }
  }

  lemma FullIsLast(g: string)
    requires FullGroup(g)
    ensures LastGroup(g)
  {
  }

  lemma EncodePrefix(x: seq<byte>, g: seq<byte>)
    requires |g| == 3 && |x| > 3 && x[..3] == g
    ensures EncodeGroup(x) == EncodeGroup(g)
  {
    assert x[0] == x[..3][0] && x[1] == x[..3][1] && x[2] == x[..3][2];
  }

  lemma EncodeGroupLast(x: seq<byte>)
    requires x != []
    ensures LastGroup(EncodeGroup(x)) && (|x| >= 3 ==> FullGroup(EncodeGroup(x)))
  {
    hide Six, Digit, Inv;
    var n := Group(x);
    SixOfBytes(x[0], if |x| > 1 then x[1] else 0, if |x| > 2 then x[2] else 0);
    InvDigit(Six(n, 0));
    InvDigit(Six(n, 1));
    InvDigit(Six(n, 2));
    InvDigit(Six(n, 3));
  }

  lemma {:induction false} EncodeIsCanonical(x: seq<byte>)
    ensures Canonical(Encode(x))
  {
    hide LastGroup, FullGroup, EncodeGroup;
    if x != [] {
      EncodeGroupLast(x);
      GroupIsFour(x);
      if |x| > 3 {
        EncodeIsCanonical(x[3..]);
        EncodeLength(x[3..]);
        assert Encode(x)[..4] == EncodeGroup(x) && Encode(x)[4..] == Encode(x[3..]);
      } else {
        assert Encode(x) == EncodeGroup(x);
      }
    }
  }

  lemma GroupIsFour(x: seq<byte>)
    requires x != []
    ensures |EncodeGroup(x)| == 4
  {
  }

  /** Encoding what was decoded gives the text back exactly for canonical text. */
  lemma EncodeDecodeIff(s: string)
    ensures Encode(Decode(s)) == s <==> Canonical(s)
  {
    hide Decode, Encode, Canonical;
    EncodeIsCanonical(Decode(s));
    if Canonical(s) {
      var x := CanonicalIsEncoding(s);
      DecodeEncode(x);
    }
  }

  /** A character outside the alphabet changes nothing, wherever it stands. */
  lemma DecodeSkips(a: string, junk: char, b: string)
    requires !Alpha(junk) && junk != '='
    ensures Decode(a + [junk] + b) == Decode(a + b)
  {
    hide Regroup;
    DigitsSkip(a, junk, b);
  }

  lemma {:induction false} DigitsSkip(a: string, junk: char, b: string)
    requires !Alpha(junk) && junk != '='
    ensures Digits(a + [junk] + b) == Digits(a + b)
  {
    hide Inv;
    if a == "" {
      assert (a + [junk] + b)[1..] == b && a + b == b;
    } else {
      DigitsSkip(a[1..], junk, b);
      assert (a + [junk] + b)[1..] == a[1..] + [junk] + b && (a + b)[1..] == a[1..] + b;
    }
  }
}
