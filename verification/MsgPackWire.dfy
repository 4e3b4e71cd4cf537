/** The bytes on the wire, as the MessagePack specification lays them out. */
module MsgPackWire {
  import opened Basics
  import opened Bytes
  import opened MsgPackValue
  import opened MsgPackFormat
  import T = MsgPackTimestamp

  // ---------------------------------------------------------------------------------------------
  // First bytes, section "Formats"
  // ---------------------------------------------------------------------------------------------

  /** How often a width of 1, 2, 4, 8 or 16 bytes is doubled. */
  function Doublings(w: nat): nat {
    if w < 2 then 0 else 1 + Doublings(w / 2)
  }

  /** A family of formats: the first byte counts the doublings of the width of the field behind it. */
  predicate InFamily(e: seq<byte>, base: nat, field: int, w: nat) {
    w in {1, 2, 4, 8} && |e| >= 1 + w && e[0] == base + Doublings(w) && e[1..1 + w] == BigEndian(field, w)
  }

  /** A length field and a payload. */
  predicate InLengthFamily(e: seq<byte>, base: nat, data: seq<byte>, w: nat) {
    w in {1, 2, 4} && InFamily(e, base, |data|, w) && e[1 + w..] == data
  }

  lemma IntOnWire(i: int) returns (w: nat)
    requires IntFits(i)
    ensures
      var e := Encode(Int(i));
      if -32 <= i < 128 then e == [if i < 0 then 256 + i else i]
      else |e| == 1 + w && InFamily(e, if i < 0 then 0xD0 else 0xCC, i, w)
  {
    assert BigEndian(i, 1) == [i % 256];
    hide BigEndian;
    w := |Encode(Int(i))| - 1;
  }

  lemma TextOnWire(data: seq<byte>) returns (w: nat)
    requires LengthFits(|data|)
    ensures
      var e := Encode(Str(data));
      if |data| < 32 then e == [0xA0 + |data|] + data else InLengthFamily(e, 0xD9, data, w)
  {
    hide BigEndian;
    w := |RawHeader(|data|)| - 1;
  }

  lemma BytesOnWire(data: seq<byte>) returns (w: nat)
    requires LengthFits(|data|)
    ensures InLengthFamily(Encode(Bin(data)), 0xC4, data, w)
  {
    hide BigEndian;
    w := |BinHeader(|data|)| - 1;
  }

  /** The type code stands between the length and the payload; five lengths have formats of their own. */
  predicate ExtOnWire(e: seq<byte>, code: int, data: seq<byte>, w: nat) {
    if |data| in {1, 2, 4, 8, 16} then e == [0xD4 + Doublings(|data|)] + BigEndian(code, 1) + data
    else w in {1, 2, 4} && InFamily(e, 0xC7, |data|, w) && e[1 + w..] == BigEndian(code, 1) + data
  }

  lemma ExtensionOnWire(code: int, data: seq<byte>) returns (w: nat)
    requires LengthFits(|data|)
    ensures ExtOnWire(ExtHeader(|data|, code) + data, code, data, w)
  {
    hide BigEndian;
    var header := ExtHeader(|data|, code);
    w := |header| - 2;
    assert Doublings(1) == 0 && Doublings(2) == 1 && Doublings(4) == 2 && Doublings(8) == 3 && Doublings(16) == 4;
    hide Doublings;
    if |data| in {1, 2, 4, 8, 16} {
      assert header == [0xD4 + Doublings(|data|)] + BigEndian(code, 1);
    } else {
      assert header == [0xC7 + Doublings(w)] + BigEndian(|data|, w) + BigEndian(code, 1);
      assert (header + data)[1 + w..] == BigEndian(code, 1) + data;
    }
  }

  lemma CountsOnWire(n: nat) returns (w: nat)
    requires LengthFits(n)
    ensures
      if n < 16 then ArrayHeader(n) == [0x90 + n] && DictHeader(n) == [0x80 + n]
      else w in {2, 4} && InFamily(ArrayHeader(n), 0xDB, n, w) && InFamily(DictHeader(n), 0xDD, n, w)
             && |ArrayHeader(n)| == 1 + w == |DictHeader(n)|
  {
    hide BigEndian;
    w := |ArrayHeader(n)| - 1;
  }

  lemma ConstantsOnWire(bits: seq<byte>)
    ensures Encode(Nil) == [0xC0] && Encode(Bool(false)) == [0xC2] && Encode(Bool(true)) == [0xC3]
    ensures Encode(Float(bits)) == [0xCB] + bits
  {
  }

  /** Section "Timestamp extension type": type -1; 4, 8 or 12 bytes with the nanoseconds in front of the seconds. */
  lemma TimestampOnWire(seconds: int, nanoseconds: nat) returns (w: nat)
    requires nanoseconds < 1_000_000_000 && T.SecondsFit(seconds)
    ensures
      var payload := T.ToBytes(seconds, nanoseconds);
      && ExtOnWire(Encode(Timestamp(seconds, nanoseconds)), -1, payload, w)
      && (|payload| == 4 ==> nanoseconds == 0 && payload == BigEndian(seconds, 4))
      && (|payload| == 8 ==> 0 <= seconds < T.TWO_34 && FromBigEndian(payload) == nanoseconds * T.TWO_34 + seconds)
      && (|payload| == 12 ==> payload == BigEndian(nanoseconds, 4) + BigEndian(seconds, 8))
      && |payload| in {4, 8, 12}
  {
    w := ExtensionOnWire(-1, T.ToBytes(seconds, nanoseconds));
    var payload := T.ToBytes(seconds, nanoseconds);
    if |payload| == 8 {
      Capacities();
      UnsignedRoundTrip(nanoseconds * T.TWO_34 + seconds, 8);
    }
  }

  // ---------------------------------------------------------------------------------------------
  // Widening
  // ---------------------------------------------------------------------------------------------

  function TwoTo(k: nat): (p: nat)
    ensures p > 0
  {
    if k == 0 then 1 else 2 * TwoTo(k - 1)
  }

  lemma {:induction false} TwoToSum(a: nat, b: nat)
    ensures TwoTo(a + b) == TwoTo(a) * TwoTo(b)
  {
    if a > 0 {
      TwoToSum(a - 1, b);
    }
  }

  /** The magnitude of a finite single, in units of 2^-149. */
  function SingleUnits(n: nat): nat {
    var exponent, mantissa := n / 0x80_0000 % 0x100, n % 0x80_0000;
    if exponent == 0 then mantissa else (0x80_0000 + mantissa) * TwoTo(exponent - 1)
  }

  /** The magnitude of a finite double, in units of 2^-1074. */
  function DoubleUnits(n: nat): nat {
    var exponent, mantissa := n / 0x10_0000_0000_0000 % 0x800, n % 0x10_0000_0000_0000;
    if exponent == 0 then mantissa else (0x10_0000_0000_0000 + mantissa) * TwoTo(exponent - 1)
  }

  lemma DoubleParts(sign: nat, exponent: nat, mantissa: nat)
    requires sign < 2 && exponent < 0x800 && mantissa < 0x10_0000_0000_0000
    ensures
      var n := sign * 0x8000_0000_0000_0000 + (exponent * 0x10_0000_0000_0000 + mantissa);
      && n < 0x1_0000_0000_0000_0000 && n / 0x8000_0000_0000_0000 == sign
      && n / 0x10_0000_0000_0000 % 0x800 == exponent && n % 0x10_0000_0000_0000 == mantissa
  {
    var n := sign * 0x8000_0000_0000_0000 + (exponent * 0x10_0000_0000_0000 + mantissa);
    assert n == (sign * 0x800 + exponent) * 0x10_0000_0000_0000 + mantissa;
    assert n / 0x10_0000_0000_0000 == sign * 0x800 + exponent;
  }

  /** A subnormal single in a double: the leading bit moves out and the exponent follows. */
  lemma {:induction false} NormalizedUnits(m: nat, exponent: nat) returns (e: nat, f: nat)
    requires 0 < m < 0x100_0000 && exponent >= 1 && m * TwoTo(exponent - 1) >= 0x80_0000
    ensures 1 <= e <= exponent && f < 0x10_0000_0000_0000
    ensures Normalized(m, exponent) == e * 0x10_0000_0000_0000 + f
    ensures (0x10_0000_0000_0000 + f) * TwoTo(e - 1) == m * 0x2000_0000 * TwoTo(exponent - 1)
    decreases 0x80_0000 - m
  {
    if m < 0x80_0000 {
      assert exponent > 1;
      var x := TwoTo(exponent - 2);
      assert TwoTo(exponent - 1) == 2 * x;
      assert m * (2 * x) == 2 * m * x;
      e, f := NormalizedUnits(2 * m, exponent - 1);
      assert 2 * m * 0x2000_0000 * x == m * 0x2000_0000 * (2 * x);
    } else {
      e, f := exponent, (m - 0x80_0000) * 0x2000_0000;
    }
  }

  /** The magnitude of the double that a single widens to, as exponent and mantissa. */
  lemma WidenedParts(b: seq<byte>) returns (e: nat, f: nat)
    requires |b| == 4
    ensures
      var n := FromBigEndian(b);
      var exponent, mantissa := n / 0x80_0000 % 0x100, n % 0x80_0000;
      && e < 0x800 && f < 0x10_0000_0000_0000
      && FromBigEndian(Widen(b)) == n / 0x8000_0000 * 0x8000_0000_0000_0000 + (e * 0x10_0000_0000_0000 + f)
      && (exponent == 0xFF ==> e == 0x7FF && f == mantissa * 0x2000_0000)
      && (0 < exponent < 0xFF ==> e == exponent + 896 && f == mantissa * 0x2000_0000)
      && (exponent == 0 && mantissa == 0 ==> e == 0 && f == 0)
      && (exponent == 0 && mantissa > 0 ==>
            1 <= e <= 897 && (0x10_0000_0000_0000 + f) * TwoTo(e - 1) == mantissa * 0x2000_0000 * TwoTo(896))
  {
    hide TwoTo, Normalized, BigEndian, FromBigEndian;
    Capacities();
    var n := FromBigEndian(b);
    assert n < 0x1_0000_0000;
    var sign, exponent, mantissa := n / 0x8000_0000, n / 0x80_0000 % 0x100, n % 0x80_0000;
    if exponent == 0xFF {
      e, f := 0x7FF, mantissa * 0x2000_0000;
    } else if exponent > 0 {
      e, f := exponent + 896, mantissa * 0x2000_0000;
    } else if mantissa > 0 {
      ManyDoublings();
      e, f := NormalizedUnits(mantissa, 897);
    } else {
      e, f := 0, 0;
    }
    DoubleParts(sign, e, f);
    UnsignedRoundTrip(sign * 0x8000_0000_0000_0000 + (e * 0x10_0000_0000_0000 + f), 8);
  }

  lemma ManyDoublings()
    ensures TwoTo(896) >= 0x80_0000
  {
    hide TwoTo;
    SmallPowers();
    TwoToSum(23, 873);
    assert TwoTo(23) * TwoTo(873) >= TwoTo(23);
  }

  lemma SmallPowers()
    ensures TwoTo(23) == 0x80_0000 && TwoTo(29) == 0x2000_0000
  {
    assert TwoTo(8) == 0x100 && TwoTo(16) == 0x1_0000;
  }

  /** Widening keeps the sign and the value of every finite single; infinities and payloads of NaNs stay what they are. */
  lemma WidenKeepsValue(b: seq<byte>)
    requires |b| == 4
    ensures
      var n, d := FromBigEndian(b), FromBigEndian(Widen(b));
      && d / 0x8000_0000_0000_0000 == n / 0x8000_0000
      && (n / 0x80_0000 % 0x100 < 0xFF ==>
            d / 0x10_0000_0000_0000 % 0x800 < 0x7FF && DoubleUnits(d) == SingleUnits(n) * TwoTo(925))
      && (n / 0x80_0000 % 0x100 == 0xFF ==>
            d / 0x10_0000_0000_0000 % 0x800 == 0x7FF && d % 0x10_0000_0000_0000 == n % 0x80_0000 * 0x2000_0000)
  {
    hide TwoTo, Widen, BigEndian, FromBigEndian, Normalized;
    Capacities();
    var n := FromBigEndian(b);
    assert n < 0x1_0000_0000;
    var exponent, mantissa := n / 0x80_0000 % 0x100, n % 0x80_0000;
    var e, f := WidenedParts(b);
    DoubleParts(n / 0x8000_0000, e, f);
    SmallPowers();
    TwoToSum(29, 896);
    if exponent < 0xFF {
      UnitsScale(exponent, mantissa, e, f);
    }
  }

  lemma UnitsScale(exponent: nat, mantissa: nat, e: nat, f: nat)
    requires mantissa < 0x80_0000 && TwoTo(925) == 0x2000_0000 * TwoTo(896)
    requires exponent > 0 ==> e == exponent + 896 && f == mantissa * 0x2000_0000
    requires exponent == 0 && mantissa == 0 ==> e == 0 && f == 0
    requires exponent == 0 && mantissa > 0 ==>
      1 <= e && (0x10_0000_0000_0000 + f) * TwoTo(e - 1) == mantissa * 0x2000_0000 * TwoTo(896)
    ensures (if e == 0 then f else (0x10_0000_0000_0000 + f) * TwoTo(e - 1))
      == (if exponent == 0 then mantissa else (0x80_0000 + mantissa) * TwoTo(exponent - 1)) * TwoTo(925)
  {
    hide TwoTo;
    var p := TwoTo(896);
    if exponent > 0 {
      TwoToSum(exponent - 1, 896);
      var x, m := TwoTo(exponent - 1), 0x80_0000 + mantissa;
      assert 0x10_0000_0000_0000 + f == m * 0x2000_0000;
      assert m * 0x2000_0000 * (x * p) == m * x * (0x2000_0000 * p);
    } else {
      assert mantissa * 0x2000_0000 * p == mantissa * (0x2000_0000 * p);
    }
  }

  // ---------------------------------------------------------------------------------------------
  // Text
  // ---------------------------------------------------------------------------------------------

  /** A Unicode scalar value: no surrogate. */
  predicate IsScalarValue(c: nat) {
    c < 0xD800 || 0xE000 <= c < 0x11_0000
  }

  /** Table 3-6 of the Unicode Standard. */
  function EncodePoint(c: nat): seq<byte>
    requires IsScalarValue(c)
  {
    if c < 0x80 then [c]
    else if c < 0x800 then [0xC0 + c / 0x40, 0x80 + c % 0x40]
    else if c < 0x1_0000 then [0xE0 + c / 0x1000, 0x80 + c / 0x40 % 0x40, 0x80 + c % 0x40]
    else [0xF0 + c / 0x4_0000, 0x80 + c / 0x1000 % 0x40, 0x80 + c / 0x40 % 0x40, 0x80 + c % 0x40]
  }

  function EncodeText(text: seq<nat>): seq<byte>
    requires forall c :: c in text ==> IsScalarValue(c)
  {
    if text == [] then [] else
      assert text[0] in text && forall c :: c in text[1..] ==> c in text;
      EncodePoint(text[0]) + EncodeText(text[1..])
  }

  lemma PointIsValid(c: nat, rest: seq<byte>)
    requires IsScalarValue(c)
    ensures ValidUtf8(EncodePoint(c) + rest) == ValidUtf8(rest)
  {
    var s := EncodePoint(c) + rest;
    if c < 0x80 {
      assert s[1..] == rest;
    } else if c < 0x800 {
      assert s[2..] == rest && 2 <= c / 0x40 < 0x20;
    } else if c < 0x1_0000 {
      assert s[3..] == rest && c / 0x1000 < 0x10;
    } else {
      assert s[4..] == rest && c / 0x4_0000 <= 4;
    }
  }

  lemma {:induction false} TextIsValid(text: seq<nat>)
    requires forall c :: c in text ==> IsScalarValue(c)
    ensures ValidUtf8(EncodeText(text))
  {
    if text != [] {
      assert text[0] in text && forall c :: c in text[1..] ==> c in text;
      TextIsValid(text[1..]);
      PointIsValid(text[0], EncodeText(text[1..]));
    }
  }

  lemma Digits64(a: nat, x: nat, y: nat, z: nat)
    requires x < 0x40 && y < 0x40 && z < 0x40
    ensures
      var c := a * 0x4_0000 + x * 0x1000 + y * 0x40 + z;
      && c / 0x4_0000 == a && c / 0x1000 == a * 0x40 + x && c / 0x1000 % 0x40 == x
      && c / 0x40 % 0x40 == y && c % 0x40 == z
  {
  }

  lemma TwoBytes(s: seq<byte>) returns (c: nat)
    requires ValidUtf8(s) && |s| >= 1 && 0x80 <= s[0] < 0xE0
    ensures IsScalarValue(c) && EncodePoint(c) <= s && |EncodePoint(c)| == 2 && ValidUtf8(s[2..])
  {
    var a: int, x: int := s[0], s[1];
    c := (a - 0xC0) * 0x40 + (x - 0x80);
    Digits64(0, 0, a - 0xC0, x - 0x80);
  }

  lemma ThreeBytes(s: seq<byte>) returns (c: nat)
    requires ValidUtf8(s) && |s| >= 1 && 0xE0 <= s[0] < 0xF0
    ensures IsScalarValue(c) && EncodePoint(c) <= s && |EncodePoint(c)| == 3 && ValidUtf8(s[3..])
  {
    var a: int, x: int, y: int := s[0], s[1], s[2];
    c := (a - 0xE0) * 0x1000 + (x - 0x80) * 0x40 + (y - 0x80);
    Digits64(0, a - 0xE0, x - 0x80, y - 0x80);
  }

  lemma FourBytes(s: seq<byte>) returns (c: nat)
    requires ValidUtf8(s) && |s| >= 1 && s[0] >= 0xF0
    ensures IsScalarValue(c) && EncodePoint(c) <= s && |EncodePoint(c)| == 4 && ValidUtf8(s[4..])
  {
    var a: int, x: int, y: int, z: int := s[0], s[1], s[2], s[3];
    c := (a - 0xF0) * 0x4_0000 + (x - 0x80) * 0x1000 + (y - 0x80) * 0x40 + (z - 0x80);
    Digits64(a - 0xF0, x - 0x80, y - 0x80, z - 0x80);
  }

  lemma FirstPoint(s: seq<byte>) returns (c: nat)
    requires s != [] && ValidUtf8(s)
    ensures IsScalarValue(c) && EncodePoint(c) <= s && EncodePoint(c) != [] && ValidUtf8(s[|EncodePoint(c)|..])
  {
    if s[0] < 0x80 {
      c := s[0];
    } else if s[0] < 0xE0 {
      c := TwoBytes(s);
    } else if s[0] < 0xF0 {
      c := ThreeBytes(s);
    } else {
      c := FourBytes(s);
    }
  }

  lemma {:induction false} ValidIsText(s: seq<byte>) returns (text: seq<nat>)
    requires ValidUtf8(s)
    ensures (forall c :: c in text ==> IsScalarValue(c)) && EncodeText(text) == s
    decreases |s|
  {
    if s == [] {
      text := [];
    } else {
      hide ValidUtf8, EncodePoint;
      var c := FirstPoint(s);
      var rest := ValidIsText(s[|EncodePoint(c)|..]);
      text := [c] + rest;
      assert text[0] == c && text[1..] == rest;
    }
  }

  /** The byte strings that are taken for text are exactly the encodings of sequences of scalar values. */
  lemma Utf8Exactly(s: seq<byte>)
    ensures ValidUtf8(s) <==> exists text: seq<nat> ::
      (forall c :: c in text ==> IsScalarValue(c)) && EncodeText(text) == s
  {
    hide ValidUtf8, EncodeText;
    if ValidUtf8(s) {
      var text := ValidIsText(s);
    }
    forall text: seq<nat> | (forall c :: c in text ==> IsScalarValue(c)) && EncodeText(text) == s
      ensures ValidUtf8(s)
    {
      TextIsValid(text);
    }
  }
}
