/** The packer writes the shortest form. */
module MsgPackShortest {
  import opened Basics
  import opened Bytes
  import opened MsgPackValue
  import opened MsgPackFormat
  import T = MsgPackTimestamp
  import R = MsgPackRoundTrip

  /** The double is the widening of some single-precision payload. */
  ghost predicate IsSingle(bits: seq<byte>) {
    exists b: seq<byte> | |b| == 4 :: Widen(b) == bits
  }

  /** No double inside `v` would survive as a single. */
  ghost predicate NoSingles(v: Value)
    decreases v
  {
    match v
    case Float(bits) => !IsSingle(bits)
    case Array(items) => forall i :: 0 <= i < |items| ==> NoSingles(items[i])
    case Dict(entries) =>
      forall i :: 0 <= i < |entries| ==> NoSingles(entries[i].key) && NoSingles(entries[i].value)
    case _ => true
  }

  /** A lower bound on every encoding of `v`: its own encoding, but with four-byte floats wherever they will do. */
  ghost function Least(v: Value): nat
    decreases v
  {
    match v
    case Float(bits) => if IsSingle(bits) then 5 else 9
    case Array(items) => |ArrayHeader(|items|)| + LeastItems(items)
    case Dict(entries) => |DictHeader(|entries|)| + LeastEntries(entries)
    case _ => |Encode(v)|
  }

  ghost function LeastItems(items: seq<Value>): nat
    decreases items
  {
    if items == [] then 0 else Least(items[0]) + LeastItems(items[1..])
  }

  ghost function LeastEntries(entries: seq<Entry>): nat
    decreases entries
  {
    if entries == [] then 0 else
      var Entry(key, value) := entries[0];
      assert key < entries[0] && value < entries[0];
      Least(key) + Least(value) + LeastEntries(entries[1..])
  }

  lemma {:induction false} LeastIsExact(v: Value)
    requires WellFormed(v)
    ensures Least(v) <= |Encode(v)| && (Least(v) == |Encode(v)| <==> NoSingles(v))
    decreases v
  {
    match v {
      case Array(items) => LeastItemsExact(items);
      case Dict(entries) => LeastEntriesExact(entries);
      case _ =>
    }
  }

  lemma {:induction false} LeastItemsExact(items: seq<Value>)
    requires forall i :: 0 <= i < |items| ==> WellFormed(items[i])
    ensures LeastItems(items) <= |EncodeItems(items)|
    ensures LeastItems(items) == |EncodeItems(items)| <==> forall i :: 0 <= i < |items| ==> NoSingles(items[i])
    decreases items
  {
    if items != [] {
      LeastIsExact(items[0]);
      LeastItemsExact(items[1..]);
    }
  }

  lemma {:induction false} LeastEntriesExact(entries: seq<Entry>)
    requires forall i :: 0 <= i < |entries| ==> WellFormed(entries[i].key) && WellFormed(entries[i].value)
    ensures LeastEntries(entries) <= |EncodeEntries(entries)|
    ensures LeastEntries(entries) == |EncodeEntries(entries)|
      <==> forall i :: 0 <= i < |entries| ==> NoSingles(entries[i].key) && NoSingles(entries[i].value)
    decreases entries
  {
    if entries != [] {
      var Entry(key, value) := entries[0];
      assert key < entries[0] && value < entries[0];
      LeastIsExact(key);
      LeastIsExact(value);
      LeastEntriesExact(entries[1..]);
    }
  }

  /** A repeated key costs bytes on the wire but no entry: the dict never outgrows what was read. */
  lemma {:induction false} PutLeast(acc: seq<Entry>, key: Value, value: Value)
    ensures LeastEntries(Put(acc, key, value)) <= LeastEntries(acc) + Least(key) + Least(value)
    ensures |Put(acc, key, value)| <= |acc| + 1
  {
    var r := Put(acc, key, value);
    if acc == [] {
      assert r[1..] == [];
    } else if acc[0].key == key {
      assert r[1..] == acc[1..];
    } else {
      PutLeast(acc[1..], key, value);
      assert r[1..] == Put(acc[1..], key, value);
    }
  }

  // ---------------------------------------------------------------------------------------------
  // One header
  // ---------------------------------------------------------------------------------------------

  /** The cheapest header for the same content is not longer than the one that was read. */
  ghost predicate HeaderFits(r: Parse<Header>) {
    r.Done? ==>
      match r.value
      case Immediate(v) => !v.Array? && !v.Dict? && Least(v) <= r.used
      case RawData(data) => LengthFits(|data|) && |RawHeader(|data|)| + |data| <= r.used
      case BinData(data) => LengthFits(|data|) && |BinHeader(|data|)| + |data| <= r.used
      case ExtData(code, data) => LengthFits(|data|) && |ExtHeader(|data|, code)| + |data| <= r.used
      case ArrayOf(n) => LengthFits(n) && |ArrayHeader(n)| <= r.used
      case MapOf(n) => LengthFits(n) && |DictHeader(n)| <= r.used
  }

  predicate IsWidth(w: nat) {
    w == 1 || w == 2 || w == 4
  }

  lemma NumberSizes(s: seq<byte>, w: nat, signed: bool)
    requires IsWidth(w) || w == 8
    ensures HeaderFits(NumberHeader(s, w, signed))
  {
    Capacities();
  }

  lemma FloatSizes(s: seq<byte>, w: nat)
    requires w == 4 || w == 8
    ensures HeaderFits(FloatHeader(s, w))
  {
  }

  lemma FixStrSizes(s: seq<byte>, n: nat, lim: Limits)
    requires n <= 0x1F
    ensures HeaderFits(StrHeader(s, n, 1, lim))
  {
  }

  lemma LengthSizes(s: seq<byte>, w: nat)
    requires IsWidth(w) && Length(s, w).Done?
    ensures
      var n := Length(s, w).value;
      && LengthFits(n)
      && |RawHeader(n)| <= 1 + w && |BinHeader(n)| <= 1 + w
      && (w > 1 ==> |ArrayHeader(n)| <= 1 + w && |DictHeader(n)| <= 1 + w)
  {
    Capacities();
  }

  lemma StrLenSizes(s: seq<byte>, w: nat, lim: Limits)
    requires IsWidth(w)
    ensures HeaderFits(StrLenHeader(s, w, lim))
  {
    if Length(s, w).Done? {
      LengthSizes(s, w);
    }
  }

  lemma BinLenSizes(s: seq<byte>, w: nat, lim: Limits)
    requires IsWidth(w)
    ensures HeaderFits(BinLenHeader(s, w, lim))
  {
    if Length(s, w).Done? {
      LengthSizes(s, w);
    }
  }

  lemma CountSizes(s: seq<byte>, w: nat, lim: Limits)
    requires IsWidth(w) && w > 1
    ensures HeaderFits(ArrayLenHeader(s, w, lim)) && HeaderFits(MapLenHeader(s, w, lim))
  {
    if Length(s, w).Done? {
      LengthSizes(s, w);
    }
  }

  lemma FixExtSizes(s: seq<byte>, size: nat, lim: Limits)
    requires size in {1, 2, 4, 8, 16}
    ensures HeaderFits(FixExtHeader(s, size, lim))
  {
  }

  lemma ExtLenSizes(s: seq<byte>, w: nat, lim: Limits)
    requires IsWidth(w)
    ensures HeaderFits(ExtLenHeader(s, w, lim))
  {
    Capacities();
  }

  lemma HeaderSizes(s: seq<byte>, lim: Limits)
    ensures HeaderFits(HeaderOf(s, lim))
  {
    hide NumberHeader, FloatHeader, StrHeader, StrLenHeader, BinLenHeader, FixExtHeader, ExtLenHeader,
      ArrayLenHeader, MapLenHeader;
    if s != [] {
      match FormatOf(s[0]) {
        case Number(w, signed) => NumberSizes(s, w, signed);
        case Floating(w) => FloatSizes(s, w);
        case FixStr(n) => FixStrSizes(s, n, lim);
        case FixExt(size) => FixExtSizes(s, size, lim);
        case StrLen(w) => StrLenSizes(s, w, lim);
        case BinLen(w) => BinLenSizes(s, w, lim);
        case ExtLen(w) => ExtLenSizes(s, w, lim);
        case ArrayLen(w) => CountSizes(s, w, lim);
        case MapLen(w) => CountSizes(s, w, lim);
        case _ =>
      }
    }
  }

  // ---------------------------------------------------------------------------------------------
  // One value
  // ---------------------------------------------------------------------------------------------

  lemma FinishSizes(h: Header, used: nat)
    requires !h.ArrayOf? && !h.MapOf? && Finish(h).Good?
    requires match h
      case Immediate(v) => Least(v) <= used
      case RawData(data) => |RawHeader(|data|)| + |data| <= used
      case BinData(data) => |BinHeader(|data|)| + |data| <= used
      case ExtData(code, data) => |ExtHeader(|data|, code)| + |data| <= used
    ensures Least(Finish(h).v) <= used
  {
    if h.ExtData? && h.code == -1 {
      T.TimestampShortest(h.data);
      ExtHeaderMonotone(h.data);
    }
  }

  /** Among the three timestamp widths a shorter payload has a header that is not longer. */
  lemma ExtHeaderMonotone(data: seq<byte>)
    requires T.FromBytes(data).Some?
    ensures
      var t := T.FromBytes(data).value;
      var n := |T.ToBytes(t.seconds, t.nanoseconds)|;
      |ExtHeader(n, -1)| + n <= |ExtHeader(|data|, -1)| + |data|
  {
    T.TimestampShortest(data);
  }

  lemma {:induction false} DecodeLeast(s: seq<byte>, lim: Limits)
    requires Decode(s, lim).Done?
    ensures Least(Decode(s, lim).value) <= Decode(s, lim).used
    decreases |s|, 0
  {
    hide HeaderOf, Encode;
    HeaderSizes(s, lim);
    var h := HeaderOf(s, lim);
    match h.value {
      case ArrayOf(n) => ItemsLeast(s[h.used..], n, lim);
      case MapOf(n) =>
        EntriesLeast(s[h.used..], n, [], lim);
        DictHeaderMonotone(|DecodeEntries(s[h.used..], n, [], lim).value|, n);
      case _ => FinishSizes(h.value, h.used);
    }
  }

  lemma DictHeaderMonotone(m: nat, n: nat)
    requires m <= n
    ensures |DictHeader(m)| <= |DictHeader(n)|
  {
  }

  lemma {:induction false} ItemsLeast(s: seq<byte>, n: nat, lim: Limits)
    requires DecodeItems(s, n, lim).Done?
    ensures LeastItems(DecodeItems(s, n, lim).value) <= DecodeItems(s, n, lim).used
    decreases |s|, n
  {
    hide Decode, Least;
    if n > 0 {
      DecodeLeast(s, lim);
      var r := Decode(s, lim);
      ItemsLeast(s[r.used..], n - 1, lim);
      var others := DecodeItems(s[r.used..], n - 1, lim).value;
      assert ([r.value] + others)[1..] == others;
    }
  }

  lemma {:induction false} EntryLeast(s: seq<byte>, lim: Limits)
    requires DecodeEntry(s, lim).Done?
    ensures
      var r := DecodeEntry(s, lim);
      Least(r.value.key) + Least(r.value.value) <= r.used
    decreases |s|, 1
  {
    hide Decode, Least;
    DecodeLeast(s, lim);
    DecodeLeast(s[Decode(s, lim).used..], lim);
  }

  lemma {:induction false} EntriesLeast(s: seq<byte>, n: nat, acc: seq<Entry>, lim: Limits)
    requires DecodeEntries(s, n, acc, lim).Done?
    ensures
      var r := DecodeEntries(s, n, acc, lim);
      LeastEntries(r.value) <= LeastEntries(acc) + r.used && |r.value| <= |acc| + n
    decreases |s|, n + 1, 1
  {
    hide DecodeEntry;
    if n > 0 {
      var k, acc' := EntriesNext(s, n, acc, lim);
      EntriesLeast(s[k..], n - 1, acc', lim);
    }
  }

  /** The first entry and the dict it leaves behind. */
  lemma {:induction false} EntriesNext(s: seq<byte>, n: nat, acc: seq<Entry>, lim: Limits)
    returns (k: nat, acc': seq<Entry>)
    requires n > 0 && DecodeEntries(s, n, acc, lim).Done?
    ensures 1 <= k <= |s| && DecodeEntries(s[k..], n - 1, acc', lim).Done?
    ensures DecodeEntries(s, n, acc, lim) == Behind(k, DecodeEntries(s[k..], n - 1, acc', lim))
    ensures LeastEntries(acc') <= LeastEntries(acc) + k && |acc'| <= |acc| + 1
    decreases |s|, n + 1, 0
  {
    hide DecodeEntry, Put;
    EntryLeast(s, lim);
    var e := DecodeEntry(s, lim).value;
    k := DecodeEntry(s, lim).used;
    acc' := Put(acc, e.key, e.value);
    PutLeast(acc, e.key, e.value);
  }

  // ---------------------------------------------------------------------------------------------
  // The bound is reached
  // ---------------------------------------------------------------------------------------------

  /** The encoding with four-byte floats wherever they will do. */
  ghost function Compact(v: Value): seq<byte>
    decreases v
  {
    match v
    case Float(bits) =>
      if IsSingle(bits) then
        var b: seq<byte> :| |b| == 4 && Widen(b) == bits;
        [0xCA] + b
      else Encode(v)
    case Array(items) => ArrayHeader(|items|) + CompactItems(items)
    case Dict(entries) => DictHeader(|entries|) + CompactEntries(entries)
    case _ => Encode(v)
  }

  ghost function CompactItems(items: seq<Value>): seq<byte>
    decreases items
  {
    if items == [] then [] else Compact(items[0]) + CompactItems(items[1..])
  }

  ghost function CompactEntries(entries: seq<Entry>): seq<byte>
    decreases entries
  {
    if entries == [] then [] else
      var Entry(key, value) := entries[0];
      assert key < entries[0] && value < entries[0];
      Compact(key) + Compact(value) + CompactEntries(entries[1..])
  }

  lemma {:induction false} CompactIsLeast(v: Value)
    requires WellFormed(v)
    ensures |Compact(v)| == Least(v)
    decreases v
  {
    match v {
      case Array(items) => CompactItemsLeast(items);
      case Dict(entries) => CompactEntriesLeast(entries);
      case _ =>
    }
  }

  lemma {:induction false} CompactItemsLeast(items: seq<Value>)
    requires forall i :: 0 <= i < |items| ==> WellFormed(items[i])
    ensures |CompactItems(items)| == LeastItems(items)
    decreases items
  {
    if items != [] {
      CompactIsLeast(items[0]);
      CompactItemsLeast(items[1..]);
    }
  }

  lemma {:induction false} CompactEntriesLeast(entries: seq<Entry>)
    requires forall i :: 0 <= i < |entries| ==> WellFormed(entries[i].key) && WellFormed(entries[i].value)
    ensures |CompactEntries(entries)| == LeastEntries(entries)
    decreases entries
  {
    if entries != [] {
      var Entry(key, value) := entries[0];
      assert key < entries[0] && value < entries[0];
      CompactIsLeast(key);
      CompactIsLeast(value);
      CompactEntriesLeast(entries[1..]);
    }
  }

  /** Limits that cover the compact form admit everything inside it. */
  lemma {:induction false} LeastFits(v: Value, lim: Limits)
    requires R.Covers(lim, Least(v))
    ensures R.Fits(v, lim) && Least(v) >= 1
    decreases v
  {
    match v {
      case Array(items) => LeastItemsFit(items, lim);
      case Dict(entries) => LeastEntriesFit(entries, lim);
      case Float(_) =>
      case _ => R.CoveredFits(v, lim);
    }
  }

  lemma {:induction false} LeastItemsFit(items: seq<Value>, lim: Limits)
    requires R.Covers(lim, LeastItems(items))
    ensures |items| <= LeastItems(items) && forall i :: 0 <= i < |items| ==> R.Fits(items[i], lim)
    decreases items
  {
    hide Least, R.Fits;
    if items != [] {
      LeastFits(items[0], lim);
      LeastItemsFit(items[1..], lim);
    }
  }

  lemma {:induction false} LeastEntriesFit(entries: seq<Entry>, lim: Limits)
    requires R.Covers(lim, LeastEntries(entries))
    ensures 2 * |entries| <= LeastEntries(entries)
    ensures forall i :: 0 <= i < |entries| ==> R.Fits(entries[i].key, lim) && R.Fits(entries[i].value, lim)
    decreases entries
  {
    hide Least, R.Fits;
    if entries != [] {
      var Entry(key, value) := entries[0];
      assert key < entries[0] && value < entries[0];
      LeastFits(key, lim);
      LeastFits(value, lim);
      LeastEntriesFit(entries[1..], lim);
    }
  }

  lemma CompactFloat(bits: seq<byte>, s: seq<byte>, lim: Limits)
    requires IsSingle(bits) && Compact(Float(bits)) <= s
    ensures Decode(s, lim) == Done(Float(bits), 5) && |Compact(Float(bits))| == 5
  {
    hide Widen;
    var b := Compact(Float(bits))[1..];
    assert |b| == 4 && Widen(b) == bits && s[0] == 0xCA;
    assert s[1..5] == b;
  }

  /** Reading back the compact form in front of any other bytes. */
  lemma {:induction false} DecodeCompact(v: Value, nest: int, s: seq<byte>, lim: Limits)
    requires WellFormed(v) && PackCheck(v, nest) == None && R.Fits(v, lim) && TextKeys(v)
    requires Compact(v) <= s
    ensures Decode(s, lim) == Done(v, |Compact(v)|)
    decreases v, 2
  {
    hide Decode, Encode, HeaderOf, ArrayHeader, DictHeader;
    match v {
      case Array(items) => DecodeCompactArray(v, nest, s, lim);
      case Dict(entries) => DecodeCompactDict(v, nest, s, lim);
      case Float(bits) =>
        if IsSingle(bits) {
          CompactFloat(bits, s, lim);
        } else {
          R.ScalarRead(v, nest, s, lim);
        }
      case _ => R.ScalarRead(v, nest, s, lim);
    }
  }

  lemma {:induction false} DecodeCompactArray(v: Value, nest: int, s: seq<byte>, lim: Limits)
    requires v.Array? && WellFormed(v) && PackCheck(v, nest) == None && R.Fits(v, lim) && TextKeys(v)
    requires Compact(v) <= s
    ensures Decode(s, lim) == Done(v, |Compact(v)|)
    decreases v, 1
  {
    hide Decode, HeaderOf, ArrayHeader;
    var items := v.items;
    var k := |ArrayHeader(|items|)|;
    R.PrefixSplit(ArrayHeader(|items|), CompactItems(items), s);
    R.ArrayHeaderRead(|items|, s, lim);
    R.ArrayStep(s, k, |items|, lim);
    DecodeCompactItems(items, nest - 1, s[k..], lim);
  }

  lemma {:induction false} DecodeCompactDict(v: Value, nest: int, s: seq<byte>, lim: Limits)
    requires v.Dict? && WellFormed(v) && PackCheck(v, nest) == None && R.Fits(v, lim) && TextKeys(v)
    requires Compact(v) <= s
    ensures Decode(s, lim) == Done(v, |Compact(v)|)
    decreases v, 1
  {
    hide Decode, HeaderOf, DictHeader;
    var entries := v.entries;
    var k := |DictHeader(|entries|)|;
    R.PrefixSplit(DictHeader(|entries|), CompactEntries(entries), s);
    R.DictHeaderRead(|entries|, s, lim);
    R.DictStep(s, k, |entries|, lim);
    assert [] + entries == entries;
    DecodeCompactEntries(entries, nest - 2, s[k..], [], lim);
  }

  lemma {:induction false} DecodeCompactItems(items: seq<Value>, nest: int, s: seq<byte>, lim: Limits)
    requires forall i :: 0 <= i < |items| ==> WellFormed(items[i]) && R.Fits(items[i], lim) && TextKeys(items[i])
    requires CheckItems(items, nest) == None && CompactItems(items) <= s
    ensures DecodeItems(s, |items|, lim) == Done(items, |CompactItems(items)|)
    decreases items, 0
  {
    hide Decode, Compact, WellFormed, PackCheck, R.Fits, TextKeys;
    if items != [] {
      var first, others := items[0], items[1..];
      var k := |Compact(first)|;
      R.PrefixSplit(Compact(first), CompactItems(others), s);
      DecodeCompact(first, nest, s, lim);
      DecodeCompactItems(others, nest, s[k..], lim);
      R.ItemStep(s, k, |others|, first, lim);
      assert items == [first] + others;
    }
  }

  lemma {:induction false} DecodeCompactEntries(
    entries: seq<Entry>, nest: int, s: seq<byte>, acc: seq<Entry>, lim: Limits)
    requires R.EntriesEncodable(entries, nest, lim) && DistinctKeys(acc + entries) && R.AllTextEntries(entries)
    requires CompactEntries(entries) <= s
    ensures DecodeEntries(s, |entries|, acc, lim) == Done(acc + entries, |CompactEntries(entries)|)
    decreases entries, 0
  {
    hide DecodeEntry, Compact, WellFormed, PackCheck, R.Fits, TextKeys, DistinctKeys, R.EntriesEncodable;
    if entries == [] {
      assert acc + entries == acc;
    } else {
      var e, others := entries[0], entries[1..];
      R.EntriesEncodableStep(entries, nest, lim);
      var k := |Compact(e.key)| + |Compact(e.value)|;
      R.PutNext(acc, e, others, entries);
      R.PrefixSplit(Compact(e.key) + Compact(e.value), CompactEntries(others), s);
      DecodeCompactEntry(e, nest, s, lim);
      R.EntryStep(s, k, s[k..], |entries|, |others|, e, acc, acc + [e], lim);
      DecodeCompactEntries(others, nest, s[k..], acc + [e], lim);
    }
  }

  lemma {:induction false} DecodeCompactEntry(e: Entry, nest: int, s: seq<byte>, lim: Limits)
    requires WellFormed(e.key) && R.Fits(e.key, lim) && PackCheck(e.key, nest) == None && IsTextKey(e.key)
    requires WellFormed(e.value) && R.Fits(e.value, lim) && PackCheck(e.value, nest) == None && TextKeys(e.value)
    requires Compact(e.key) + Compact(e.value) <= s
    ensures DecodeEntry(s, lim) == Done(e, |Compact(e.key)| + |Compact(e.value)|)
    decreases e
  {
    hide Decode, Compact, WellFormed, PackCheck, R.Fits;
    var k := |Compact(e.key)|;
    R.PrefixSplit(Compact(e.key), Compact(e.value), s);
    DecodeCompact(e.key, nest, s, lim);
    DecodeCompact(e.value, nest, s[k..], lim);
    R.EntryRead(s, k, s[k..], |Compact(e.value)|, e, lim);
  }

  lemma NoneShorter(b: seq<byte>, v: Value)
    requires UnpackB(b) == Ok(v)
    ensures Least(v) <= |b|
  {
    hide Decode, Least;
    DecodeLeast(b, DefaultLimits(|b|));
  }

  lemma CompactReadsBack(v: Value)
    requires WellFormed(v) && Packable(v) && TextKeys(v)
    ensures UnpackB(Compact(v)) == Ok(v) && |Compact(v)| == Least(v)
  {
    hide Decode, Compact, Least, WellFormed, TextKeys, PackCheck, R.Fits;
    var lim := DefaultLimits(|Compact(v)|);
    CompactIsLeast(v);
    LeastFits(v, lim);
    DecodeCompact(v, RECURSE_LIMIT, Compact(v), lim);
  }

  /**
    Shortest form, exactly: `pack(v)` is not longer than any byte string that `unpackb` reads as `v` (over-wide headers,
    repeated keys and long timestamps included) if and only if no double inside `v` is a widened single.
  */
  lemma ShortestForm(v: Value)
    requires WellFormed(v) && Packable(v) && TextKeys(v)
    ensures (forall b :: UnpackB(b) == Ok(v) ==> |Encode(v)| <= |b|) <==> NoSingles(v)
    ensures forall b :: UnpackB(b) == Ok(v) ==> Least(v) <= |b|
  {
    hide Encode, Least, NoSingles, UnpackB, WellFormed, TextKeys, Packable;
    LeastIsExact(v);
    CompactReadsBack(v);
    forall b | UnpackB(b) == Ok(v) ensures Least(v) <= |b| {
      NoneShorter(b, v);
    }
  }

  /** The shortest witness: a single-precision zero is read as a double and packed in nine bytes. */
  lemma SinglesAreNotShortest()
    ensures
      var b: seq<byte> := [0xCA, 0, 0, 0, 0];
      UnpackB(b).Ok? && |Encode(UnpackB(b).v)| == 9 && |b| == 5
  {
    var b: seq<byte> := [0xCA, 0, 0, 0, 0];
    assert Decode(b, DefaultLimits(5)) == Done(Float(Widen(b[1..5])), 5);
  }
}
