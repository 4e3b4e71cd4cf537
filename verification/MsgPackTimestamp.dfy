/** The payload of the Timestamp extension type (`Timestamp.to_bytes`, `Timestamp.from_bytes`). */
module MsgPackTimestamp {
  import opened Basics
  import opened Bytes
  import opened MsgPackValue

  const TWO_32 := 0x1_0000_0000
  const TWO_34 := 0x4_0000_0000
  const TWO_63 := 0x8000_0000_0000_0000

  /** `struct.pack("!q", seconds)` accepts the seconds. */
  predicate SecondsFit(seconds: int) {
    -TWO_63 <= seconds < TWO_63
  }

  /** `seconds >> 34 == 0` means `0 <= seconds < 2**34`; `|` and `<<` on disjoint bits are `+` and `*`. */
  function ToBytes(seconds: int, nanoseconds: nat): seq<byte> {
    if 0 <= seconds < TWO_34 then
      var data64 := nanoseconds * TWO_34 + seconds;
      if data64 < TWO_32 then BigEndian(data64, 4) else BigEndian(data64, 8)
    else
      BigEndian(nanoseconds, 4) + BigEndian(seconds, 8)
  }

  function FromBytes(b: seq<byte>): (r: Option<Value>)
    ensures r.Some? ==> r.value.Timestamp? && WellFormed(r.value)
  {
    if |b| == 4 then
      Some(Timestamp(FromBigEndian(b), 0))
    else if |b| == 8 then
      var data64 := FromBigEndian(b);
      Checked(data64 % TWO_34, data64 / TWO_34)
    else if |b| == 12 then
      Checked(Signed(FromBigEndian(b[4..]), 8), FromBigEndian(b[..4]))
    else
      None
  }

  /** The constructor's range check on nanoseconds. */
  function Checked(seconds: int, nanoseconds: nat): Option<Value> {
    if nanoseconds < 1_000_000_000 then Some(Timestamp(seconds, nanoseconds)) else None
  }

  lemma PayloadIsShort(seconds: int, nanoseconds: nat)
    ensures |ToBytes(seconds, nanoseconds)| in {4, 8, 12}
  {
  }

  /** Splitting a 64-bit payload undoes packing it. */
  lemma SplitData64(seconds: nat, nanoseconds: nat)
    requires seconds < TWO_34
    ensures (nanoseconds * TWO_34 + seconds) / TWO_34 == nanoseconds
    ensures (nanoseconds * TWO_34 + seconds) % TWO_34 == seconds
  {
  }

  /** All three widths come back. */
  lemma TimestampRoundTrip(seconds: int, nanoseconds: nat)
    requires nanoseconds < 1_000_000_000 && SecondsFit(seconds)
    ensures FromBytes(ToBytes(seconds, nanoseconds)) == Some(Timestamp(seconds, nanoseconds))
  {
    var b := ToBytes(seconds, nanoseconds);
    if 0 <= seconds < TWO_34 {
      var data64 := nanoseconds * TWO_34 + seconds;
      assert data64 < Capacity(|b|) by { Capacities(); }
      UnsignedRoundTrip(data64, |b|);
      SplitData64(seconds, nanoseconds);
    } else {
      assert b[..4] == BigEndian(nanoseconds, 4) && b[4..] == BigEndian(seconds, 8);
      assert nanoseconds < Capacity(4) && 0 <= 2 * seconds + Capacity(8) && 2 * seconds < Capacity(8) by {
        Capacities();
      }
      UnsignedRoundTrip(nanoseconds, 4);
      SignedRoundTrip(seconds, 8);
    }
  }

  /** Of all payloads that read back as a given timestamp, `ToBytes` picks a shortest. */
  lemma TimestampShortest(b: seq<byte>)
    requires FromBytes(b).Some?
    ensures
      var t := FromBytes(b).value;
      SecondsFit(t.seconds) && |ToBytes(t.seconds, t.nanoseconds)| <= |b|
  {
    var t := FromBytes(b).value;
    if |b| == 12 {
      assert SecondsFit(t.seconds) by { Capacities(); }
    } else {
      var data := FromBigEndian(b);
      assert |b| == 4 ==> data < TWO_32 by { Capacities(); }
      assert 0 <= t.seconds < TWO_34;
    }
  }
}
