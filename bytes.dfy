/** Bytes, Go's unsigned bitwise operators and the big-endian integers of
    encoding/binary, over unbounded integers.

    Go's `&` and `|` on unsigned values are modelled by `And` and `Or`, defined
    bit by bit; `x >> s` on an unsigned value is `x / Pow2(s)` and `1 << i` is
    `Pow2(i)`. The lemmas below give the facts the position codec relies on:
    `&` with a run of low one-bits is a remainder, `&` with a mask whose low
    bits are zero clears those bits of the other operand. */
module Bytes {

  /** One octet, as Go's `byte`. */
  type byte = x: int | 0 <= x < 256

  datatype Option<+T> = None | Some(value: T)

  function Pow2(n: nat): (r: nat)
    ensures r >= 1
  {
    if n == 0 then 1 else 2 * Pow2(n - 1)
  }

  /** Bitwise AND of two unsigned values. */
  function And(x: nat, y: nat): nat
    decreases x
  {
    if x == 0 || y == 0 then 0 else 2 * And(x / 2, y / 2) + (x % 2) * (y % 2)
  }

  /** Bitwise OR of two unsigned values. */
  function Or(x: nat, y: nat): nat
    decreases x + y
  {
    if x == 0 then y
    else if y == 0 then x
    else 2 * Or(x / 2, y / 2) + (if x % 2 == 1 || y % 2 == 1 then 1 else 0)
  }

  lemma {:induction false} Pow2Add(a: nat, b: nat)
    ensures Pow2(a + b) == Pow2(a) * Pow2(b)
  {
    if a > 0 {
      Pow2Add(a - 1, b);
      assert Pow2(a + b) == 2 * Pow2(a - 1 + b);
    }
  }

  lemma ModBelowMultiple(d: int, h: int)
    requires d >= 1 && h >= 1
    ensures (d * h - 1) % d == d - 1
  {
    assert d * h == d * (h - 1) + d;
    DivModUnique(d * h - 1, d, h - 1, d - 1);
  }

  /** Keeping the low m bits of `2^n - 1` with m <= n gives `2^m - 1`: the truncation
      of Go's `uint32(out)` applied to a run of n one-bits. */
  lemma LowBitsOfOnes(n: nat, m: nat)
    requires m <= n
    ensures (Pow2(n) - 1) % Pow2(m) == Pow2(m) - 1
  {
    Pow2Add(m, n - m);
    ModBelowMultiple(Pow2(m), Pow2(n - m));
  }

  /** Pow2 is monotonic. */
  lemma {:induction false} Pow2Mono(a: nat, b: nat)
    requires a <= b
    ensures Pow2(a) <= Pow2(b)
  {
    if a < b {
      Pow2Mono(a, b - 1);
    }
  }

  lemma MulAtLeast(d: int, a: int)
    requires d > 0 && a >= 1
    ensures d * a >= d
  {
    assert d * a == d * (a - 1) + d;
    assert d * (a - 1) >= 0;
  }

  /** Division is determined by quotient and remainder. */
  lemma DivModUnique(x: int, d: int, q: int, r: int)
    requires d > 0 && 0 <= r < d && x == d * q + r
    ensures x / d == q && x % d == r
  {
    var q' := x / d;
    var r' := x % d;
    assert x == d * q' + r';
    assert d * (q - q') == r' - r;
    if q > q' {
      MulAtLeast(d, q - q');
    } else if q < q' {
      MulAtLeast(d, q' - q);
    }
  }

  lemma ModSmall(x: int, d: int)
    requires 0 <= x < d
    ensures x % d == x && x / d == 0
  {
    DivModUnique(x, d, 0, x);
  }

  lemma DivMod2(x: nat, p: nat)
    requires p >= 1
    ensures x % (2 * p) == 2 * ((x / 2) % p) + x % 2
    ensures (x / 2) / p == x / (2 * p)
  {
    var q := x / 2;
    var q2 := q / p;
    var r2 := q % p;
    assert x == 2 * q + x % 2;
    assert q == p * q2 + r2;
    assert x == (2 * p) * q2 + (2 * r2 + x % 2) by {
      calc {
        x;
        2 * q + x % 2;
        2 * (p * q2 + r2) + x % 2;
        (2 * p) * q2 + (2 * r2 + x % 2);
      }
    }
    DivModUnique(x, 2 * p, q2, 2 * r2 + x % 2);
  }

  /** `x & (2^n - 1)` keeps the low n bits: it is `x mod 2^n`. */
  lemma {:induction false} AndLowMask(x: nat, n: nat)
    ensures And(x, Pow2(n) - 1) == x % Pow2(n)
  {
    if n > 0 && x != 0 {
      var p := Pow2(n - 1);
      var m := Pow2(n) - 1;
      assert m == 2 * (p - 1) + 1;
      DivModUnique(m, 2, p - 1, 1);
      assert And(x, m) == 2 * And(x / 2, p - 1) + x % 2;
      AndLowMask(x / 2, n - 1);
      DivMod2(x, p);
    }
  }

  /** `x & 2m` is twice `(x >> 1) & m`: the low bit of the mask is zero. */
  lemma AndEven(x: nat, m: nat)
    requires m > 0
    ensures And(x, 2 * m) == 2 * And(x / 2, m)
  {
    assert (2 * m) / 2 == m && (2 * m) % 2 == 0;
  }

  /** Setting bit n of `2^n - 1` gives `2^(n+1) - 1`: one step of Go's bitMask loop. */
  lemma {:induction false} OrNextBit(n: nat)
    ensures Or(Pow2(n) - 1, Pow2(n)) == Pow2(n + 1) - 1
  {
    if n > 0 {
      OrNextBit(n - 1);
      assert (Pow2(n) - 1) / 2 == Pow2(n - 1) - 1;
      assert Pow2(n) / 2 == Pow2(n - 1);
    }
  }

  /** `x & 4m` is `4 ((x >> 2) & m)`. */
  lemma AndMul4(x: nat, m: nat)
    requires m > 0
    ensures And(x, 4 * m) == 4 * And(x / 4, m)
  {
    AndEven(x, 2 * m);
    AndEven(x / 2, m);
    DivMod2(x, 2);
  }

  /** `x & 8m` is `8 ((x >> 3) & m)`. */
  lemma AndMul8(x: nat, m: nat)
    requires m > 0
    ensures And(x, 8 * m) == 8 * And(x / 8, m)
  {
    AndEven(x, 4 * m);
    AndMul4(x / 2, m);
    DivMod2(x, 4);
  }

  /** `x & 16m` is `16 ((x >> 4) & m)`. */
  lemma AndMul16(x: nat, m: nat)
    requires m > 0
    ensures And(x, 16 * m) == 16 * And(x / 16, m)
  {
    AndEven(x, 8 * m);
    AndMul8(x / 2, m);
    DivMod2(x, 8);
  }

  /** `x & 32m` is `32 ((x >> 5) & m)`. */
  lemma AndMul32(x: nat, m: nat)
    requires m > 0
    ensures And(x, 32 * m) == 32 * And(x / 32, m)
  {
    AndEven(x, 16 * m);
    AndMul16(x / 2, m);
    DivMod2(x, 16);
  }

  /** `b & 0xfc` clears the low two bits of a byte. */
  lemma AndFC(b: byte)
    ensures And(b, 0xfc) == b - b % 4
  {
    AndMul4(b, 0x3f);
    AndLowMask(b / 4, 6);
    ModSmall(b / 4, 64);
  }

  /** `b & 0xf8` clears the low three bits of a byte. */
  lemma AndF8(b: byte)
    ensures And(b, 0xf8) == b - b % 8
  {
    AndMul8(b, 0x1f);
    AndLowMask(b / 8, 5);
    ModSmall(b / 8, 32);
  }

  /** `b & 0xf0` clears the low four bits of a byte. */
  lemma AndF0(b: byte)
    ensures And(b, 0xf0) == b - b % 16
  {
    AndMul16(b, 0xf);
    AndLowMask(b / 16, 4);
    ModSmall(b / 16, 16);
  }

  /** `b & 0xe0` clears the low five bits of a byte. */
  lemma AndE0(b: byte)
    ensures And(b, 0xe0) == b - b % 32
  {
    AndMul32(b, 7);
    AndLowMask(b / 32, 3);
    ModSmall(b / 32, 8);
  }

  /** Go's `binary.BigEndian.Uint16`: the first two bytes as a big-endian value. */
  function Uint16BE(b: seq<byte>): nat
    requires |b| >= 2
  {
    (b[0] as int) * 256 + b[1]
  }

  /** Go's `binary.BigEndian.PutUint16` (and `binary.Write` of a uint16). */
  function PutUint16BE(v: nat): (r: seq<byte>)
    requires v < 65536
    ensures |r| == 2 && Uint16BE(r) == v
  {
    [v / 256, v % 256]
  }

  lemma PutUint16BEOfUint16BE(b: seq<byte>)
    requires |b| >= 2
    ensures PutUint16BE(Uint16BE(b)) == b[..2]
  {
  }

  /** Go's `binary.BigEndian.Uint32`: four bytes as a big-endian value. */
  function Uint32BE(b: seq<byte>): nat
    requires |b| >= 4
  {
    (b[0] as int) * 0x100_0000 + (b[1] as int) * 0x1_0000 + (b[2] as int) * 0x100 + b[3]
  }

  /** Arithmetic on Go's uint16: the result is reduced modulo 2^16. */
  function Wrap16(x: int): (r: nat)
    ensures r < 65536
  {
    x % 65536
  }

  /** `n` zero bytes, as `make([]byte, n)` leaves them. */
  function Zeros(n: nat): (r: seq<byte>)
    ensures |r| == n && forall i :: 0 <= i < n ==> r[i] == 0
  {
    seq(n, _ => 0)
  }
}
