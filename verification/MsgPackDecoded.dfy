/** What the reader accepts, and what it refuses. */
module MsgPackDecoded {
  import opened Basics
  import opened Bytes
  import opened MsgPackValue
  import opened MsgPackFormat
  import T = MsgPackTimestamp
  import P = MsgPackPrefix
  import R = MsgPackRoundTrip

  // ---------------------------------------------------------------------------------------------
  // Wider limits
  // ---------------------------------------------------------------------------------------------

  predicate Wider(lim: Limits, lim': Limits) {
    && lim.maxStr <= lim'.maxStr && lim.maxBin <= lim'.maxBin && lim.maxArray <= lim'.maxArray
    && lim.maxMap <= lim'.maxMap && lim.maxExt <= lim'.maxExt
  }

  lemma HeaderWidens(s: seq<byte>, lim: Limits, lim': Limits)
    requires Wider(lim, lim') && HeaderOf(s, lim).Done?
    ensures HeaderOf(s, lim') == HeaderOf(s, lim)
  {
    hide NumberHeader, FloatHeader, FromBigEndian;
  }

  /** What is read under some limits is read in the same way under wider ones. */
  lemma {:induction false} DecodeWidens(s: seq<byte>, lim: Limits, lim': Limits)
    requires Wider(lim, lim') && Decode(s, lim).Done?
    ensures Decode(s, lim') == Decode(s, lim)
    decreases |s|, 0
  {
    hide HeaderOf, Wider;
    var h := HeaderOf(s, lim);
    HeaderWidens(s, lim, lim');
    match h.value {
      case ArrayOf(n) => ItemsWiden(s[h.used..], n, lim, lim');
      case MapOf(n) => EntriesWiden(s[h.used..], n, [], lim, lim');
      case _ =>
    }
  }

  lemma {:induction false} ItemsWiden(s: seq<byte>, n: nat, lim: Limits, lim': Limits)
    requires Wider(lim, lim') && DecodeItems(s, n, lim).Done?
    ensures DecodeItems(s, n, lim') == DecodeItems(s, n, lim)
    decreases |s|, n
  {
    hide Decode, Wider;
    if n > 0 {
      DecodeWidens(s, lim, lim');
      ItemsWiden(s[Decode(s, lim).used..], n - 1, lim, lim');
    }
  }

  lemma {:induction false} EntryWidens(s: seq<byte>, lim: Limits, lim': Limits)
    requires Wider(lim, lim') && DecodeEntry(s, lim).Done?
    ensures DecodeEntry(s, lim') == DecodeEntry(s, lim)
    decreases |s|, 1
  {
    hide Decode, Wider;
    DecodeWidens(s, lim, lim');
    DecodeWidens(s[Decode(s, lim).used..], lim, lim');
  }

  lemma {:induction false} EntriesWiden(s: seq<byte>, n: nat, acc: seq<Entry>, lim: Limits, lim': Limits)
    requires Wider(lim, lim') && DecodeEntries(s, n, acc, lim).Done?
    ensures DecodeEntries(s, n, acc, lim') == DecodeEntries(s, n, acc, lim)
    decreases |s|, n + 1
  {
    hide DecodeEntry, Wider, Put;
    if n > 0 {
      EntryWidens(s, lim, lim');
      var r := DecodeEntry(s, lim);
      var acc' := Put(acc, r.value.key, r.value.value);
      EntriesWiden(s[r.used..], n - 1, acc', lim, lim');
    }
  }

  // ---------------------------------------------------------------------------------------------
  // Exactly one value
  // ---------------------------------------------------------------------------------------------

  /** An accepted byte string is accepted as a whole: with anything behind it, it is refused as extra data. */
  lemma NothingMayFollow(b: seq<byte>, c: seq<byte>)
    requires UnpackB(b).Ok? && b < c
    ensures UnpackB(c) == Err(ExtraData)
  {
    hide Decode;
    DecodeWidens(b, DefaultLimits(|b|), DefaultLimits(|c|));
    P.DecodeExtends(b, c, DefaultLimits(|c|));
  }

  /** No part of an accepted byte string is accepted by itself. */
  lemma NothingMayBeMissing(b: seq<byte>, c: seq<byte>)
    requires UnpackB(c).Ok? && b < c
    ensures UnpackB(b).Err?
  {
    hide UnpackB;
    if UnpackB(b).Ok? {
      NothingMayFollow(b, c);
    }
  }

  /** For encodings: alone they are accepted, with more or fewer bytes they are not. */
  lemma EncodingsStandAlone(v: Value, b: seq<byte>)
    requires WellFormed(v) && Packable(v) && TextKeys(v)
    ensures Encode(v) < b ==> UnpackB(b) == Err(ExtraData)
    ensures b < Encode(v) ==> UnpackB(b).Err?
  {
    hide Encode, UnpackB;
    R.RoundTrip(v);
    if Encode(v) < b {
      NothingMayFollow(Encode(v), b);
    }
    if b < Encode(v) {
      NothingMayBeMissing(b, Encode(v));
    }
  }

  // ---------------------------------------------------------------------------------------------
  // Dicts
  // ---------------------------------------------------------------------------------------------

  function Find(entries: seq<Entry>, key: Value): Option<Value> {
    if entries == [] then None
    else if entries[0].key == key then Some(entries[0].value)
    else Find(entries[1..], key)
  }

  function KeysOf(entries: seq<Entry>): (r: seq<Value>)
    ensures |r| == |entries|
  {
    seq(|entries|, i requires 0 <= i < |entries| => entries[i].key)
  }

  lemma {:induction false} PutFinds(entries: seq<Entry>, key: Value, value: Value, k: Value)
    ensures Find(Put(entries, key, value), k) == if k == key then Some(value) else Find(entries, k)
  {
    var r := Put(entries, key, value);
    if entries == [] {
      assert r[1..] == [];
    } else if entries[0].key == key {
      assert r[1..] == entries[1..];
    } else {
      PutFinds(entries[1..], key, value, k);
      assert r[1..] == Put(entries[1..], key, value);
    }
  }

  lemma KeysUnfold(entries: seq<Entry>)
    ensures entries != [] ==> KeysOf(entries) == [entries[0].key] + KeysOf(entries[1..])
    ensures entries == [] ==> KeysOf(entries) == []
  {
  }

  lemma {:induction false} PutKeys(entries: seq<Entry>, key: Value, value: Value)
    ensures KeysOf(Put(entries, key, value)) ==
      if key in KeysOf(entries) then KeysOf(entries) else KeysOf(entries) + [key]
  {
    var r := Put(entries, key, value);
    KeysUnfold(entries);
    KeysUnfold(r);
    if entries == [] {
      assert r[1..] == [];
      KeysUnfold(r[1..]);
    } else if entries[0].key == key {
      assert r[1..] == entries[1..];
    } else {
      PutKeys(entries[1..], key, value);
      assert r[1..] == Put(entries[1..], key, value);
    }
  }

  /** An assignment changes the value under one key, and adds the key at the end unless it is there. */
  lemma PutAssigns(entries: seq<Entry>, key: Value, value: Value)
    ensures forall k :: Find(Put(entries, key, value), k) == if k == key then Some(value) else Find(entries, k)
    ensures KeysOf(Put(entries, key, value)) ==
      if key in KeysOf(entries) then KeysOf(entries) else KeysOf(entries) + [key]
  {
    hide Find, Put, KeysOf;
    PutKeys(entries, key, value);
    forall k ensures Find(Put(entries, key, value), k) == if k == key then Some(value) else Find(entries, k) {
      PutFinds(entries, key, value, k);
    }
  }

  lemma PutKeepsDistinct(entries: seq<Entry>, key: Value, value: Value)
    requires DistinctKeys(entries)
    ensures DistinctKeys(Put(entries, key, value))
  {
    PutAssigns(entries, key, value);
    var r := Put(entries, key, value);
    forall i, j | 0 <= i < j < |r| ensures r[i].key != r[j].key {
      assert KeysOf(r)[i] == r[i].key && KeysOf(r)[j] == r[j].key;
      assert forall k :: 0 <= k < |entries| ==> KeysOf(entries)[k] == entries[k].key;
    }
  }

  /** The pairs of a map one after the other, repeated keys included. */
  function Pairs(s: seq<byte>, n: nat, lim: Limits): seq<Entry>
    decreases |s|, n + 1
  {
    if n == 0 then [] else
      match DecodeEntry(s, lim)
      case Done(e, k) => [e] + Pairs(s[k..], n - 1, lim)
      case _ => []
  }

  function LastOf(pairs: seq<Entry>, key: Value): Option<Value> {
    if pairs == [] then None
    else if pairs[|pairs| - 1].key == key then Some(pairs[|pairs| - 1].value)
    else LastOf(pairs[..|pairs| - 1], key)
  }

  lemma {:induction false} LastOfFirst(pairs: seq<Entry>, key: Value)
    requires pairs != []
    ensures LastOf(pairs, key) ==
      if LastOf(pairs[1..], key).Some? then LastOf(pairs[1..], key)
      else if pairs[0].key == key then Some(pairs[0].value) else None
  {
    var n := |pairs| - 1;
    if n > 0 {
      LastOfFirst(pairs[..n], key);
      assert pairs[..n][1..] == pairs[1..][..n - 1];
    } else {
      assert pairs[..n] == [] && pairs[1..] == [];
    }
  }

  /** In a map with repeated keys the last value counts. */
  lemma {:induction false} LastOneWins(s: seq<byte>, n: nat, acc: seq<Entry>, lim: Limits, key: Value)
    requires DecodeEntries(s, n, acc, lim).Done?
    ensures |Pairs(s, n, lim)| == n
    ensures
      var last := LastOf(Pairs(s, n, lim), key);
      Find(DecodeEntries(s, n, acc, lim).value, key) == if last.Some? then last else Find(acc, key)
    decreases |s|, n + 1
  {
    hide DecodeEntry, Put;
    if n > 0 {
      var r := DecodeEntry(s, lim);
      var acc' := Put(acc, r.value.key, r.value.value);
      LastOneWins(s[r.used..], n - 1, acc', lim, key);
      PutAssigns(acc, r.value.key, r.value.value);
      var pairs := Pairs(s, n, lim);
      assert pairs[1..] == Pairs(s[r.used..], n - 1, lim) && pairs[0] == r.value;
      LastOfFirst(pairs, key);
    }
  }

  // ---------------------------------------------------------------------------------------------
  // What is read is a value that could have been written
  // ---------------------------------------------------------------------------------------------

  predicate Sound(v: Value, lim: Limits) {
    WellFormed(v) && TextKeys(v) && R.Fits(v, lim)
  }

  predicate SoundEntries(entries: seq<Entry>, lim: Limits) {
    && DistinctKeys(entries)
    && forall i :: 0 <= i < |entries| ==>
         Sound(entries[i].key, lim) && IsTextKey(entries[i].key) && Sound(entries[i].value, lim)
  }

  /** The length or count that a header announces is within its limit. */
  predicate HeaderSound(h: Header, lim: Limits) {
    match h
    case Immediate(v) => !v.Array? && !v.Dict? && Sound(v, lim)
    case RawData(data) => |data| <= lim.maxStr
    case BinData(data) => |data| <= lim.maxBin
    case ExtData(_, data) => |data| <= lim.maxExt
    case ArrayOf(n) => n <= lim.maxArray
    case MapOf(n) => n <= lim.maxMap
  }

  lemma PlainIsSound(v: Value, lim: Limits)
    requires v.Nil? || v.Bool? || v.Int? || (v.Float? && |v.bits| == 8)
    ensures Sound(v, lim)
  {
  }

  lemma FormatFacts(b: byte)
    ensures match FormatOf(b)
      case Inline(v) => v.Nil? || v.Bool? || v.Int?
      case Floating(w) => w == 4 || w == 8
      case _ => true
  {
  }

  lemma HeaderIsSound(s: seq<byte>, lim: Limits)
    requires HeaderOf(s, lim).Done?
    ensures HeaderSound(HeaderOf(s, lim).value, lim)
  {
    hide FromBigEndian, Signed, Widen, FormatOf, Sound;
    FormatFacts(s[0]);
    var h := HeaderOf(s, lim).value;
    if h.Immediate? {
      PlainIsSound(h.v, lim);
    }
  }

  lemma ScalarIsSound(s: seq<byte>, lim: Limits)
    requires Decode(s, lim).Done? && !HeaderOf(s, lim).value.ArrayOf? && !HeaderOf(s, lim).value.MapOf?
    ensures Sound(Decode(s, lim).value, lim)
  {
    hide HeaderOf, T.FromBytes, T.ToBytes, ValidUtf8;
    HeaderIsSound(s, lim);
    var h := HeaderOf(s, lim).value;
    if h.ExtData? && h.code == -1 {
      StampIsSound(h.data);
    }
  }

  lemma StampIsSound(data: seq<byte>)
    requires T.FromBytes(data).Some?
    ensures
      var t := T.FromBytes(data).value;
      t.Timestamp? && WellFormed(t) && |T.ToBytes(t.seconds, t.nanoseconds)| <= |data|
  {
    T.TimestampShortest(data);
  }

  /** Whatever is read is well formed, has text keys, distinct in each dict, and stays within the limits. */
  lemma {:induction false} DecodedIsSound(s: seq<byte>, lim: Limits)
    requires Decode(s, lim).Done?
    ensures Sound(Decode(s, lim).value, lim)
    decreases |s|, 0
  {
    hide HeaderOf;
    var h := HeaderOf(s, lim);
    match h.value {
      case ArrayOf(n) =>
        HeaderIsSound(s, lim);
        ItemsAreSound(s[h.used..], n, lim);
      case MapOf(n) =>
        HeaderIsSound(s, lim);
        assert SoundEntries([], lim);
        EntriesAreSound(s[h.used..], n, [], lim);
      case _ => ScalarIsSound(s, lim);
    }
  }

  lemma {:induction false} ItemsAreSound(s: seq<byte>, n: nat, lim: Limits)
    requires DecodeItems(s, n, lim).Done?
    ensures forall i :: 0 <= i < n ==> Sound(DecodeItems(s, n, lim).value[i], lim)
    decreases |s|, n
  {
    hide Decode, Sound;
    if n > 0 {
      DecodedIsSound(s, lim);
      ItemsAreSound(s[Decode(s, lim).used..], n - 1, lim);
    }
  }

  lemma {:induction false} EntryIsSound(s: seq<byte>, lim: Limits)
    requires DecodeEntry(s, lim).Done?
    ensures Sound(DecodeEntry(s, lim).value.key, lim) && Sound(DecodeEntry(s, lim).value.value, lim)
    ensures IsTextKey(DecodeEntry(s, lim).value.key)
    decreases |s|, 1
  {
    hide Decode, Sound;
    DecodedIsSound(s, lim);
    DecodedIsSound(s[Decode(s, lim).used..], lim);
  }

  lemma {:induction false} PutIsSound(entries: seq<Entry>, key: Value, value: Value, lim: Limits)
    requires forall i :: 0 <= i < |entries| ==>
      Sound(entries[i].key, lim) && IsTextKey(entries[i].key) && Sound(entries[i].value, lim)
    requires Sound(key, lim) && IsTextKey(key) && Sound(value, lim)
    ensures
      var r := Put(entries, key, value);
      |r| <= |entries| + 1 && forall i :: 0 <= i < |r| ==>
        Sound(r[i].key, lim) && IsTextKey(r[i].key) && Sound(r[i].value, lim)
  {
    hide Sound;
    if entries != [] {
      PutIsSound(entries[1..], key, value, lim);
    }
  }

  lemma {:induction false} EntriesAreSound(s: seq<byte>, n: nat, acc: seq<Entry>, lim: Limits)
    requires DecodeEntries(s, n, acc, lim).Done? && SoundEntries(acc, lim)
    ensures
      var r := DecodeEntries(s, n, acc, lim).value;
      SoundEntries(r, lim) && |r| <= |acc| + n
    decreases |s|, n + 1
  {
    hide DecodeEntry, Sound, Put, DistinctKeys;
    if n > 0 {
      EntryIsSound(s, lim);
      var r := DecodeEntry(s, lim);
      PutKeepsDistinct(acc, r.value.key, r.value.value);
      PutIsSound(acc, r.value.key, r.value.value, lim);
      EntriesAreSound(s[r.used..], n - 1, Put(acc, r.value.key, r.value.value), lim);
    }
  }

  // ---------------------------------------------------------------------------------------------
  // What can be written
  // ---------------------------------------------------------------------------------------------

  /** How deep the writer descends: one level for a list, two for a dict. */
  function Depth(v: Value): nat
    decreases v
  {
    match v
    case Array(items) => if items == [] then 0 else 1 + ItemsDepth(items)
    case Dict(entries) => if entries == [] then 0 else 2 + EntriesDepth(entries)
    case _ => 0
  }

  function ItemsDepth(items: seq<Value>): nat
    decreases items
  {
    if items == [] then 0 else Max(Depth(items[0]), ItemsDepth(items[1..]))
  }

  function EntriesDepth(entries: seq<Entry>): nat
    decreases entries
  {
    if entries == [] then 0 else
      var Entry(key, value) := entries[0];
      assert key < entries[0] && value < entries[0];
      Max(Max(Depth(key), Depth(value)), EntriesDepth(entries[1..]))
  }

  /** Integers have 64 bits, with or without a sign; lengths and counts have 32; seconds are signed 64-bit numbers. */
  predicate InWireRange(v: Value)
    decreases v
  {
    match v
    case Int(i) => -0x8000_0000_0000_0000 <= i < 0x1_0000_0000_0000_0000
    case Str(data) => |data| < 0x1_0000_0000
    case Bin(data) => |data| < 0x1_0000_0000
    case Ext(_, payload) => |payload| < 0x1_0000_0000
    case Timestamp(seconds, _) => -0x8000_0000_0000_0000 <= seconds < 0x8000_0000_0000_0000
    case Array(items) => |items| < 0x1_0000_0000 && forall i :: 0 <= i < |items| ==> InWireRange(items[i])
    case Dict(entries) =>
      && |entries| < 0x1_0000_0000
      && forall i :: 0 <= i < |entries| ==> InWireRange(entries[i].key) && InWireRange(entries[i].value)
    case _ => true
  }

  lemma {:induction false} CheckMeasures(v: Value, nest: int)
    ensures PackCheck(v, nest) == None <==> InWireRange(v) && Depth(v) <= nest
    decreases v
  {
    match v {
      case Array(items) => ItemsMeasure(items, nest - 1);
      case Dict(entries) => EntriesMeasure(entries, nest - 2);
      case _ =>
    }
  }

  lemma {:induction false} ItemsMeasure(items: seq<Value>, nest: int)
    ensures CheckItems(items, nest) == None <==>
      items == [] || ((forall i :: 0 <= i < |items| ==> InWireRange(items[i])) && ItemsDepth(items) <= nest)
    decreases items
  {
    hide PackCheck, InWireRange, Depth;
    if items != [] {
      CheckMeasures(items[0], nest);
      ItemsMeasure(items[1..], nest);
      assert forall i :: 0 < i < |items| ==> items[i] == items[1..][i - 1];
    }
  }

  lemma {:induction false} EntriesMeasure(entries: seq<Entry>, nest: int)
    ensures CheckEntries(entries, nest) == None <==>
      entries == [] || ((forall i :: 0 <= i < |entries| ==> InWireRange(entries[i].key) && InWireRange(entries[i].value))
                        && EntriesDepth(entries) <= nest)
    decreases entries
  {
    hide PackCheck, InWireRange, Depth;
    if entries != [] {
      var Entry(key, value) := entries[0];
      assert key < entries[0] && value < entries[0];
      CheckMeasures(key, nest);
      CheckMeasures(value, nest);
      EntriesMeasure(entries[1..], nest);
      assert forall i :: 0 < i < |entries| ==> entries[i] == entries[1..][i - 1];
    }
  }

  /** `pack` accepts exactly what is in range and not deeper than 511 levels. */
  lemma PackableExactly(v: Value)
    ensures Packable(v) <==> InWireRange(v) && Depth(v) <= 511
  {
    hide PackCheck, InWireRange, Depth;
    CheckMeasures(v, 511);
  }

  // ---------------------------------------------------------------------------------------------
  // What is refused
  // ---------------------------------------------------------------------------------------------

  /** A header that announces more than the buffer could ever hold is refused at once; a map entry takes two bytes. */
  lemma AnnouncedTooMuch(first: byte, n: nat, rest: seq<byte>, size: nat)
    requires first in {0xC6, 0xDB, 0xDD, 0xDF} && n < 0x1_0000_0000 && size > 0
    ensures
      HeaderOf([first] + BigEndian(n, 4) + rest, DefaultLimits(size)) == Failed(LimitExceeded, 5)
      <==> (if first == 0xDF then 2 * n else n) > size
  {
    hide FromBigEndian, BigEndian;
    Capacities();
    R.LengthReads(first, n, 4, rest);
    var s := [first] + BigEndian(n, 4) + rest;
    hide Length;
    assert s[0] == first;
  }

  /** The same for an extension, whose type code is read together with the length. */
  lemma AnnouncedExtension(n: nat, code: byte, rest: seq<byte>, size: nat)
    requires n < 0x1_0000_0000 && size > 0
    ensures
      HeaderOf([0xC9] + BigEndian(n, 4) + [code] + rest, DefaultLimits(size)) == Failed(LimitExceeded, 6) <==> n > size
  {
    hide FromBigEndian, BigEndian;
    Capacities();
    UnsignedRoundTrip(n, 4);
    var s := [0xC9] + BigEndian(n, 4) + [code] + rest;
    assert s[0] == 0xC9 && s[1..6] == BigEndian(n, 4) + [code];
    assert s[1..6][..4] == BigEndian(n, 4);
  }

  /** One input for each of the other refusals. */
  lemma Refusals()
    ensures UnpackB([]) == Err(Incomplete) && UnpackB([0xC1]) == Err(UnknownHeader)
    ensures UnpackB([0x01, 0x02]) == Err(ExtraData)
  {
  }

  lemma RefusedText()
    ensures UnpackB([0xA1, 0xFF]) == Err(BadUtf8)
  {
    var text: seq<byte> := [0xA1, 0xFF];
    assert text[1..2] == [0xFF];
  }

  lemma RefusedKey()
    ensures UnpackB([0x81, 0x01, 0xC0]) == Err(BadMapKey)
  {
    var key: seq<byte> := [0x81, 0x01, 0xC0];
    assert key[1..][0] == 0x01;
    assert Decode(key[1..], DefaultLimits(3)) == Done(Int(1), 1);
    assert DecodeEntry(key[1..], DefaultLimits(3)) == Failed(BadMapKey, 1);
  }

  lemma RefusedCode()
    ensures UnpackB([0xD4, 0xFE, 0x00]) == Err(BadExtCode)
  {
    CodeOf(0xFE);
    var ext: seq<byte> := [0xD4, 0xFE, 0x00];
    assert ext[1..3] == [0xFE, 0x00];
    assert HeaderOf(ext, DefaultLimits(3)) == Done(ExtData(-2, ext[1..3][1..]), 3);
  }

  lemma RefusedStamp()
    ensures UnpackB([0xD4, 0xFF, 0x00]) == Err(BadTimestamp)
  {
    CodeOf(0xFF);
    var stamp: seq<byte> := [0xD4, 0xFF, 0x00];
    assert stamp[1..3] == [0xFF, 0x00] && |stamp[1..3][1..]| == 1;
    assert HeaderOf(stamp, DefaultLimits(3)) == Done(ExtData(-1, stamp[1..3][1..]), 3);
  }

  lemma CodeOf(b: byte)
    ensures Signed(b, 1) == if b < 128 then b else b - 256
  {
    Capacities();
  }
}
