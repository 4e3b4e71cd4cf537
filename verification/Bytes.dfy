/** Bytes and the big-endian integers that `struct.pack(">...")` and `struct.unpack(">...")` exchange. */
module Bytes {
  import opened Basics

  type byte = x: int | 0 <= x < 256

  /** The number of values that `width` bytes can hold. */
  function Capacity(width: nat): (c: nat)
    ensures c > 0
  {
    if width == 0 then 1 else 256 * Capacity(width - 1)
  }

  lemma Capacities()
    ensures Capacity(1) == 0x100 && Capacity(2) == 0x1_0000 && Capacity(4) == 0x1_0000_0000
    ensures Capacity(8) == 0x1_0000_0000_0000_0000
  {
    assert Capacity(4) == 0x1_0000 * Capacity(2);
    assert Capacity(8) == 0x1_0000_0000 * Capacity(4);
  }

  /** The low `width` bytes of `n`, most significant first; a negative `n` comes out in two's complement. */
  function BigEndian(n: int, width: nat): (s: seq<byte>)
    ensures |s| == width
    decreases width, n
  {
    if width == 0 then [] else BigEndian(n / 256, width - 1) + [n % 256]
  }

  function FromBigEndian(s: seq<byte>): (n: nat)
    ensures n < Capacity(|s|)
  {
    if |s| == 0 then 0 else
      var high := FromBigEndian(s[..|s| - 1]);
      256 * high + s[|s| - 1]
  }

  /** Reading `width` bytes as a signed integer. */
  function Signed(n: nat, width: nat): int {
    if 2 * n < Capacity(width) then n else n - Capacity(width)
  }

  lemma {:induction false} UnsignedRoundTrip(n: nat, width: nat)
    requires n < Capacity(width)
    ensures FromBigEndian(BigEndian(n, width)) == n
  {
    if width > 0 {
      UnsignedRoundTrip(n / 256, width - 1);
      assert BigEndian(n, width)[..width - 1] == BigEndian(n / 256, width - 1);
    }
  }

  lemma {:induction false} NegativeRoundTrip(n: int, width: nat)
    requires 0 <= n + Capacity(width) && n < 0
    ensures FromBigEndian(BigEndian(n, width)) == n + Capacity(width)
    decreases width, n
  {
    if width > 0 {
      NegativeRoundTrip(n / 256, width - 1);
      assert BigEndian(n, width)[..width - 1] == BigEndian(n / 256, width - 1);
    }
  }

  /** Two's complement round trip. */
  lemma SignedRoundTrip(n: int, width: nat)
    requires 0 <= 2 * n + Capacity(width) && 2 * n < Capacity(width)
    ensures Signed(FromBigEndian(BigEndian(n, width)), width) == n
  {
    if n >= 0 {
      UnsignedRoundTrip(n, width);
    } else {
      NegativeRoundTrip(n, width);
    }
  }

  lemma DivideTwice(n: nat, b: nat)
    requires b > 0
    ensures n / 256 / b == n / (256 * b)
  {
    var m := n / 256;
    var q := m / b;
    assert q * b <= m < (q + 1) * b;
    assert q * (256 * b) == 256 * (q * b) && (q + 1) * (256 * b) == 256 * ((q + 1) * b);
    DivUnique(n, 256 * b, q);
  }

  /** The most significant byte comes first. */
  lemma {:induction false} DigitAt(n: nat, width: nat, i: nat)
    requires i < width
    ensures BigEndian(n, width)[i] == n / Capacity(width - 1 - i) % 256
  {
    if i < width - 1 {
      DigitAt(n / 256, width - 1, i);
      DivideTwice(n, Capacity(width - 2 - i));
    }
  }
}
