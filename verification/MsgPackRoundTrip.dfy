/** What is packed is what is unpacked. */
module MsgPackRoundTrip {
  import opened Basics
  import opened Bytes
  import opened MsgPackValue
  import opened MsgPackFormat
  import T = MsgPackTimestamp

  /** Every length inside `v` stays within the limits of the unpacker. */
  predicate Fits(v: Value, lim: Limits) {
    match v
    case Str(utf8) => |utf8| <= lim.maxStr
    case Bin(data) => |data| <= lim.maxBin
    case Ext(_, payload) => |payload| <= lim.maxExt
    case Timestamp(s, ns) => |T.ToBytes(s, if ns < 0 then 0 else ns)| <= lim.maxExt
    case Array(items) =>
      |items| <= lim.maxArray && forall i :: 0 <= i < |items| ==> Fits(items[i], lim)
    case Dict(entries) =>
      |entries| <= lim.maxMap
      && forall i :: 0 <= i < |entries| ==> Fits(entries[i].key, lim) && Fits(entries[i].value, lim)
    case _ => true
  }

  // ---------------------------------------------------------------------------------------------
  // Headers
  // ---------------------------------------------------------------------------------------------

  lemma LengthReads(b: byte, n: nat, width: nat, rest: seq<byte>)
    requires n < Capacity(width)
    ensures Length([b] + BigEndian(n, width) + rest, width) == Done(n, 1 + width)
  {
    var s := [b] + BigEndian(n, width) + rest;
    assert s[1..1 + width] == BigEndian(n, width);
    UnsignedRoundTrip(n, width);
  }

  /** A first byte announcing `format`, and a length field that holds `n`. */
  predicate IsLengthHeader(h: seq<byte>, n: nat, w: nat, format: Format) {
    |h| == 1 + w && n < Capacity(w) && h == [h[0]] + BigEndian(n, w) && FormatOf(h[0]) == format
  }

  lemma RawHeaderShape(n: nat)
    requires LengthFits(n) && n > 0x1F
    ensures var h := RawHeader(n); IsLengthHeader(h, n, |h| - 1, StrLen(|h| - 1))
  {
    Capacities();
  }

  lemma BinHeaderShape(n: nat)
    requires LengthFits(n)
    ensures var h := BinHeader(n); IsLengthHeader(h, n, |h| - 1, BinLen(|h| - 1))
  {
    Capacities();
  }

  lemma ArrayHeaderShape(n: nat)
    requires LengthFits(n) && n > 0x0F
    ensures var h := ArrayHeader(n); IsLengthHeader(h, n, |h| - 1, ArrayLen(|h| - 1))
  {
    Capacities();
  }

  lemma DictHeaderShape(n: nat)
    requires LengthFits(n) && n > 0x0F
    ensures var h := DictHeader(n); IsLengthHeader(h, n, |h| - 1, MapLen(|h| - 1))
  {
    Capacities();
  }

  lemma PayloadReads(header: seq<byte>, data: seq<byte>, rest: seq<byte>)
    ensures Payload(header + data + rest, |header|, |data|) == Done(data, |header| + |data|)
  {
    assert (header + data + rest)[|header|..|header| + |data|] == data;
  }

  lemma IntReads(i: int, rest: seq<byte>, lim: Limits)
    requires IntFits(i)
    ensures HeaderOf(EncodeInt(i) + rest, lim) == Done(Immediate(Int(i)), |EncodeInt(i)|)
  {
    if -0x20 <= i < 0x80 {
      assert BigEndian(i, 1) == [i % 256];
    } else {
      var e := EncodeInt(i);
      var w := |e| - 1;
      NumberReads(e[0], i, w, i < 0, rest, lim);
      assert e == [e[0]] + BigEndian(i, w);
    }
  }

  lemma NumberReads(b: byte, i: int, w: nat, signed: bool, rest: seq<byte>, lim: Limits)
    requires FormatOf(b) == Number(w, signed)
    requires if signed then 0 <= 2 * i + Capacity(w) && 2 * i < Capacity(w) else 0 <= i < Capacity(w)
    ensures HeaderOf([b] + BigEndian(i, w) + rest, lim) == Done(Immediate(Int(i)), 1 + w)
  {
    var s := [b] + BigEndian(i, w) + rest;
    assert s[1..1 + w] == BigEndian(i, w);
    if signed {
      SignedRoundTrip(i, w);
    } else {
      UnsignedRoundTrip(i, w);
    }
  }

  lemma StrLenReads(h: seq<byte>, w: nat, data: seq<byte>, rest: seq<byte>, lim: Limits)
    requires IsLengthHeader(h, |data|, w, StrLen(w)) && |data| <= lim.maxStr
    ensures HeaderOf(h + data + rest, lim) == Done(RawData(data), |h| + |data|)
  {
    assert h + data + rest == h + (data + rest);
    LengthReads(h[0], |data|, w, data + rest);
    PayloadReads(h, data, rest);
  }

  lemma StrReads(data: seq<byte>, rest: seq<byte>, lim: Limits)
    requires LengthFits(|data|) && |data| <= lim.maxStr
    ensures HeaderOf(RawHeader(|data|) + data + rest, lim) == Done(RawData(data), |RawHeader(|data|)| + |data|)
  {
    var h := RawHeader(|data|);
    if |data| > 0x1F {
      RawHeaderShape(|data|);
      StrLenReads(h, |h| - 1, data, rest, lim);
    } else {
      PayloadReads(h, data, rest);
    }
  }

  lemma BinLenReads(h: seq<byte>, w: nat, data: seq<byte>, rest: seq<byte>, lim: Limits)
    requires IsLengthHeader(h, |data|, w, BinLen(w)) && |data| <= lim.maxBin
    ensures HeaderOf(h + data + rest, lim) == Done(BinData(data), |h| + |data|)
  {
    assert h + data + rest == h + (data + rest);
    LengthReads(h[0], |data|, w, data + rest);
    PayloadReads(h, data, rest);
  }

  lemma BinReads(data: seq<byte>, rest: seq<byte>, lim: Limits)
    requires LengthFits(|data|) && |data| <= lim.maxBin
    ensures HeaderOf(BinHeader(|data|) + data + rest, lim) == Done(BinData(data), |BinHeader(|data|)| + |data|)
  {
    var h := BinHeader(|data|);
    BinHeaderShape(|data|);
    BinLenReads(h, |h| - 1, data, rest, lim);
  }

  lemma CodeByte(code: int)
    requires -1 <= code <= 127
    ensures BigEndian(code, 1) == [code % 256] && Signed(code % 256, 1) == code
  {
  }

  lemma FixExtReads(b: byte, code: int, data: seq<byte>, rest: seq<byte>, lim: Limits)
    requires FormatOf(b) == FixExt(|data|) && -1 <= code <= 127 && |data| <= lim.maxExt
    ensures HeaderOf([b] + BigEndian(code, 1) + data + rest, lim) == Done(ExtData(code, data), 2 + |data|)
  {
    CodeByte(code);
    var s := [b] + BigEndian(code, 1) + data + rest;
    assert s[1..1 + (|data| + 1)] == [code % 256] + data;
  }

  lemma ExtLenReads(b: byte, w: nat, code: int, data: seq<byte>, rest: seq<byte>, lim: Limits)
    requires FormatOf(b) == ExtLen(w) && |data| < Capacity(w) && -1 <= code <= 127 && |data| <= lim.maxExt
    ensures
      HeaderOf([b] + BigEndian(|data|, w) + BigEndian(code, 1) + data + rest, lim)
      == Done(ExtData(code, data), 2 + w + |data|)
  {
    CodeByte(code);
    var h := [b] + BigEndian(|data|, w) + BigEndian(code, 1);
    var field := (h + data + rest)[1..1 + (w + 1)];
    assert field == BigEndian(|data|, w) + [code % 256];
    assert field[..w] == BigEndian(|data|, w);
    UnsignedRoundTrip(|data|, w);
    PayloadReads(h, data, rest);
  }

  lemma ExtReads(code: int, data: seq<byte>, rest: seq<byte>, lim: Limits)
    requires -1 <= code <= 127 && LengthFits(|data|) && |data| <= lim.maxExt
    ensures
      HeaderOf(ExtHeader(|data|, code) + data + rest, lim)
      == Done(ExtData(code, data), |ExtHeader(|data|, code)| + |data|)
  {
    var h, n := ExtHeader(|data|, code), |data|;
    if n == 1 || n == 2 || n == 4 || n == 8 || n == 16 {
      FixExtReads(h[0], code, data, rest, lim);
    } else {
      assert n < Capacity(|h| - 2) by { Capacities(); }
      ExtLenReads(h[0], |h| - 2, code, data, rest, lim);
    }
  }

  lemma ArrayLenReads(h: seq<byte>, w: nat, n: nat, rest: seq<byte>, lim: Limits)
    requires IsLengthHeader(h, n, w, ArrayLen(w)) && n <= lim.maxArray
    ensures HeaderOf(h + rest, lim) == Done(ArrayOf(n), |h|)
  {
    LengthReads(h[0], n, w, rest);
  }

  lemma ArrayReads(n: nat, rest: seq<byte>, lim: Limits)
    requires LengthFits(n) && n <= lim.maxArray
    ensures HeaderOf(ArrayHeader(n) + rest, lim) == Done(ArrayOf(n), |ArrayHeader(n)|)
  {
    if n > 0x0F {
      ArrayHeaderShape(n);
      ArrayLenReads(ArrayHeader(n), |ArrayHeader(n)| - 1, n, rest, lim);
    }
  }

  lemma DictLenReads(h: seq<byte>, w: nat, n: nat, rest: seq<byte>, lim: Limits)
    requires IsLengthHeader(h, n, w, MapLen(w)) && n <= lim.maxMap
    ensures HeaderOf(h + rest, lim) == Done(MapOf(n), |h|)
  {
    LengthReads(h[0], n, w, rest);
  }

  lemma DictReads(n: nat, rest: seq<byte>, lim: Limits)
    requires LengthFits(n) && n <= lim.maxMap
    ensures HeaderOf(DictHeader(n) + rest, lim) == Done(MapOf(n), |DictHeader(n)|)
  {
    if n > 0x0F {
      DictHeaderShape(n);
      DictLenReads(DictHeader(n), |DictHeader(n)| - 1, n, rest, lim);
    }
  }

  // ---------------------------------------------------------------------------------------------
  // Values
  // ---------------------------------------------------------------------------------------------

  /** The value itself, unless some dict key is not text; then `strict_map_key` refuses it. */
  predicate ReadsBack(r: Parse<Value>, v: Value, used: nat) {
    if TextKeys(v) then r == Done(v, used) else r.Failed? && r.error == BadMapKey
  }

  predicate AllTextKeys(items: seq<Value>) {
    forall i :: 0 <= i < |items| ==> TextKeys(items[i])
  }

  predicate AllTextEntries(entries: seq<Entry>) {
    forall i :: 0 <= i < |entries| ==> IsTextKey(entries[i].key) && TextKeys(entries[i].value)
  }

  lemma ConstantReads(v: Value, rest: seq<byte>, lim: Limits)
    requires v.Nil? || v.Bool?
    ensures Decode(Encode(v) + rest, lim) == Done(v, 1)
  {
  }

  lemma DoubleReads(bits: seq<byte>, rest: seq<byte>, lim: Limits)
    requires |bits| == 8
    ensures Decode([0xCB] + bits + rest, lim) == Done(Float(bits), 9)
  {
    assert ([0xCB] + bits + rest)[1..9] == bits;
  }

  lemma ScalarReadsBack(v: Value, nest: int, rest: seq<byte>, lim: Limits)
    requires !v.Array? && !v.Dict?
    requires WellFormed(v) && PackCheck(v, nest) == None && Fits(v, lim)
    ensures Decode(Encode(v) + rest, lim) == Done(v, |Encode(v)|)
  {
    hide HeaderOf, ValidUtf8, T.ToBytes, T.FromBytes, EncodeInt, ExtHeader, RawHeader, BinHeader;
    match v {
      case Nil => ConstantReads(v, rest, lim);
      case Bool(_) => ConstantReads(v, rest, lim);
      case Int(i) => IntReads(i, rest, lim);
      case Float(bits) => DoubleReads(bits, rest, lim);
      case Str(utf8) => StrReads(utf8, rest, lim);
      case Bin(data) => BinReads(data, rest, lim);
      case Ext(code, payload) => ExtReads(code, payload, rest, lim);
      case Timestamp(seconds, nanoseconds) =>
        T.PayloadIsShort(seconds, nanoseconds);
        ExtReads(-1, T.ToBytes(seconds, nanoseconds), rest, lim);
        T.TimestampRoundTrip(seconds, nanoseconds);
    }
  }

  lemma ArrayHeaderRead(n: nat, s: seq<byte>, lim: Limits)
    requires LengthFits(n) && n <= lim.maxArray && ArrayHeader(n) <= s
    ensures HeaderOf(s, lim) == Done(ArrayOf(n), |ArrayHeader(n)|)
  {
    var rest := s[|ArrayHeader(n)|..];
    assert s == ArrayHeader(n) + rest;
    ArrayReads(n, rest, lim);
  }

  lemma DictHeaderRead(n: nat, s: seq<byte>, lim: Limits)
    requires LengthFits(n) && n <= lim.maxMap && DictHeader(n) <= s
    ensures HeaderOf(s, lim) == Done(MapOf(n), |DictHeader(n)|)
  {
    var rest := s[|DictHeader(n)|..];
    assert s == DictHeader(n) + rest;
    DictReads(n, rest, lim);
  }

  lemma PrefixSplit(a: seq<byte>, b: seq<byte>, s: seq<byte>)
    requires a + b <= s
    ensures a <= s && b <= s[|a|..]
  {
    assert forall i :: 0 <= i < |a| ==> a[i] == (a + b)[i];
    assert forall i :: 0 <= i < |b| ==> b[i] == (a + b)[|a| + i];
  }

  /** One item, and what is left of the others behind it. */
  lemma ItemStep(s: seq<byte>, k: nat, n: nat, v: Value, lim: Limits)
    requires k <= |s| && ReadsBack(Decode(s, lim), v, k)
    ensures
      var r := DecodeItems(s, n + 1, lim);
      if !TextKeys(v) then r.Failed? && r.error == BadMapKey else
        r == match DecodeItems(s[k..], n, lim)
             case Done(vs, used) => Done([v] + vs, k + used)
             case OutOfData => OutOfData
             case Failed(e, at) => Failed(e, k + at)
  {
  }

  predicate EntryReadsBack(r: Parse<Entry>, e: Entry, used: nat) {
    if IsTextKey(e.key) && TextKeys(e.value) then r == Done(e, used) else r.Failed? && r.error == BadMapKey
  }

  lemma EntryRead(s: seq<byte>, k: nat, s': seq<byte>, k': nat, e: Entry, lim: Limits)
    requires k <= |s| && s' == s[k..]
    requires ReadsBack(Decode(s, lim), e.key, k) && ReadsBack(Decode(s', lim), e.value, k')
    ensures EntryReadsBack(DecodeEntry(s, lim), e, k + k')
  {
  }

  lemma EntryStep(
    s: seq<byte>, k: nat, rest: seq<byte>, m: nat, n: nat, e: Entry, acc: seq<Entry>, acc': seq<Entry>, lim: Limits)
    requires k <= |s| && rest == s[k..] && m == n + 1 && acc' == Put(acc, e.key, e.value)
    requires EntryReadsBack(DecodeEntry(s, lim), e, k)
    ensures EntryThen(e, k, DecodeEntries(rest, n, acc', lim), DecodeEntries(s, m, acc, lim))
  {
  }

  /** `r` is the outcome of an entry of `k` bytes in front of entries with outcome `r'`. */
  predicate EntryThen(e: Entry, k: nat, r': Parse<seq<Entry>>, r: Parse<seq<Entry>>) {
    if IsTextKey(e.key) && TextKeys(e.value) then r == Behind(k, r') else r.Failed? && r.error == BadMapKey
  }

  lemma EntryCombine(
    e: Entry, others: seq<Entry>, entries: seq<Entry>, acc: seq<Entry>,
    r: Parse<seq<Entry>>, r': Parse<seq<Entry>>)
    requires entries == [e] + others
    requires EntriesReadBack(r', others, acc + [e])
    requires EntryThen(e, |Encode(e.key)| + |Encode(e.value)|, r', r)
    ensures EntriesReadBack(r, entries, acc)
  {
    assert entries[0] == e && entries[1..] == others;
    assert acc + [e] + others == acc + entries;
    assert AllTextEntries(entries) <==> IsTextKey(e.key) && TextKeys(e.value) && AllTextEntries(others);
  }

  lemma ArrayStep(s: seq<byte>, k: nat, n: nat, lim: Limits)
    requires HeaderOf(s, lim) == Done(ArrayOf(n), k) && k <= |s|
    ensures Decode(s, lim) ==
      match DecodeItems(s[k..], n, lim)
      case Done(items, used) => Done(Array(items), k + used)
      case OutOfData => OutOfData
      case Failed(e, at) => Failed(e, k + at)
  {
  }

  lemma DictStep(s: seq<byte>, k: nat, n: nat, lim: Limits)
    requires HeaderOf(s, lim) == Done(MapOf(n), k) && k <= |s|
    ensures Decode(s, lim) ==
      match DecodeEntries(s[k..], n, [], lim)
      case Done(entries, used) => Done(Dict(entries), k + used)
      case OutOfData => OutOfData
      case Failed(e, at) => Failed(e, k + at)
  {
  }

  lemma ScalarRead(v: Value, nest: int, s: seq<byte>, lim: Limits)
    requires !v.Array? && !v.Dict?
    requires WellFormed(v) && PackCheck(v, nest) == None && Fits(v, lim) && Encode(v) <= s
    ensures Decode(s, lim) == Done(v, |Encode(v)|)
  {
    var rest := s[|Encode(v)|..];
    assert s == Encode(v) + rest;
    ScalarReadsBack(v, nest, rest, lim);
  }

  /** Reading back an encoding in front of any other bytes. */
  lemma {:induction false} DecodeEncode(v: Value, nest: int, s: seq<byte>, lim: Limits)
    requires WellFormed(v) && PackCheck(v, nest) == None && Fits(v, lim)
    requires Encode(v) <= s
    ensures ReadsBack(Decode(s, lim), v, |Encode(v)|)
    decreases v
  {
    hide Decode, Encode;
    if v.Array? {
      DecodeEncodeArray(v.items, nest, s, lim);
    } else if v.Dict? {
      DecodeEncodeDict(v.entries, nest, s, lim);
    } else {
      ScalarRead(v, nest, s, lim);
    }
  }

  lemma {:induction false} DecodeEncodeArray(items: seq<Value>, nest: int, s: seq<byte>, lim: Limits)
    requires WellFormed(Array(items)) && PackCheck(Array(items), nest) == None && Fits(Array(items), lim)
    requires Encode(Array(items)) <= s
    ensures ReadsBack(Decode(s, lim), Array(items), |Encode(Array(items))|)
    decreases items, 1
  {
    hide HeaderOf, ArrayHeader;
    var k := |ArrayHeader(|items|)|;
    PrefixSplit(ArrayHeader(|items|), EncodeItems(items), s);
    ArrayHeaderRead(|items|, s, lim);
    ArrayStep(s, k, |items|, lim);
    DecodeEncodeItems(items, nest - 1, s[k..], lim);
  }

  lemma {:induction false} DecodeEncodeDict(entries: seq<Entry>, nest: int, s: seq<byte>, lim: Limits)
    requires WellFormed(Dict(entries)) && PackCheck(Dict(entries), nest) == None && Fits(Dict(entries), lim)
    requires Encode(Dict(entries)) <= s
    ensures ReadsBack(Decode(s, lim), Dict(entries), |Encode(Dict(entries))|)
    decreases entries, 1
  {
    hide HeaderOf, DictHeader;
    var k := |DictHeader(|entries|)|;
    PrefixSplit(DictHeader(|entries|), EncodeEntries(entries), s);
    DictHeaderRead(|entries|, s, lim);
    DictStep(s, k, |entries|, lim);
    assert [] + entries == entries;
    DecodeEncodeEntries(entries, nest - 2, s[k..], [], lim);
  }

  predicate ItemsReadBack(r: Parse<seq<Value>>, items: seq<Value>) {
    if AllTextKeys(items) then r == Done(items, |EncodeItems(items)|) else r.Failed? && r.error == BadMapKey
  }

  lemma {:induction false} DecodeEncodeItems(items: seq<Value>, nest: int, s: seq<byte>, lim: Limits)
    requires forall i :: 0 <= i < |items| ==> WellFormed(items[i]) && Fits(items[i], lim)
    requires CheckItems(items, nest) == None && EncodeItems(items) <= s
    ensures ItemsReadBack(DecodeItems(s, |items|, lim), items)
    decreases items, 0
  {
    hide Decode, Encode, WellFormed, PackCheck, Fits;
    if items != [] {
      var first, others := items[0], items[1..];
      var k := |Encode(first)|;
      PrefixSplit(Encode(first), EncodeItems(others), s);
      DecodeEncode(first, nest, s, lim);
      DecodeEncodeItems(others, nest, s[k..], lim);
      ItemStep(s, k, |others|, first, lim);
      assert items == [first] + others;
      assert AllTextKeys(items) <==> TextKeys(first) && AllTextKeys(others);
    }
  }

  predicate EntriesReadBack(r: Parse<seq<Entry>>, entries: seq<Entry>, acc: seq<Entry>) {
    if AllTextEntries(entries) then r == Done(acc + entries, |EncodeEntries(entries)|)
    else r.Failed? && r.error == BadMapKey
  }

  /** What `DecodeEncodeEntries` asks of the entries. */
  predicate EntriesEncodable(entries: seq<Entry>, nest: int, lim: Limits) {
    && (forall i :: 0 <= i < |entries| ==> WellFormed(entries[i].key) && Fits(entries[i].key, lim))
    && (forall i :: 0 <= i < |entries| ==> WellFormed(entries[i].value) && Fits(entries[i].value, lim))
    && CheckEntries(entries, nest) == None
  }

  lemma EntriesEncodableStep(entries: seq<Entry>, nest: int, lim: Limits)
    requires entries != [] && EntriesEncodable(entries, nest, lim)
    ensures
      var e := entries[0];
      && WellFormed(e.key) && Fits(e.key, lim) && PackCheck(e.key, nest) == None
      && WellFormed(e.value) && Fits(e.value, lim) && PackCheck(e.value, nest) == None
      && EntriesEncodable(entries[1..], nest, lim)
  {
  }

  lemma {:induction false} DecodeEncodeEntries(
    entries: seq<Entry>, nest: int, s: seq<byte>, acc: seq<Entry>, lim: Limits)
    requires EntriesEncodable(entries, nest, lim) && DistinctKeys(acc + entries)
    requires EncodeEntries(entries) <= s
    ensures EntriesReadBack(DecodeEntries(s, |entries|, acc, lim), entries, acc)
    decreases entries, 0
  {
    hide DecodeEntry, Encode, WellFormed, PackCheck, Fits;
    if entries == [] {
      assert acc + entries == acc;
    } else {
      var e, others := entries[0], entries[1..];
      EntriesEncodableStep(entries, nest, lim);
      var k, k' := |Encode(e.key)|, |Encode(e.value)|;
      PutNext(acc, e, others, entries);
      EntryPrefix(e, others, entries, s);
      DecodeEncodeEntry(e, nest, s, lim);
      var rest, acc' := s[k + k'..], acc + [e];
      EntryStep(s, k + k', rest, |entries|, |others|, e, acc, acc', lim);
      DecodeEncodeEntries(others, nest, rest, acc', lim);
      EntryCombine(e, others, entries, acc, DecodeEntries(s, |entries|, acc, lim),
                   DecodeEntries(rest, |others|, acc', lim));
    }
  }

  lemma {:induction false} DecodeEncodeEntry(e: Entry, nest: int, s: seq<byte>, lim: Limits)
    requires WellFormed(e.key) && Fits(e.key, lim) && PackCheck(e.key, nest) == None
    requires WellFormed(e.value) && Fits(e.value, lim) && PackCheck(e.value, nest) == None
    requires Encode(e.key) <= s && Encode(e.value) <= s[|Encode(e.key)|..]
    ensures EntryReadsBack(DecodeEntry(s, lim), e, |Encode(e.key)| + |Encode(e.value)|)
    decreases e
  {
    hide Decode, Encode, WellFormed, PackCheck, Fits;
    var k := |Encode(e.key)|;
    DecodeEncode(e.key, nest, s, lim);
    DecodeEncode(e.value, nest, s[k..], lim);
    EntryRead(s, k, s[k..], |Encode(e.value)|, e, lim);
  }

  lemma EntryPrefix(e: Entry, others: seq<Entry>, entries: seq<Entry>, s: seq<byte>)
    requires entries == [e] + others && EncodeEntries(entries) <= s
    ensures
      var k, k' := |Encode(e.key)|, |Encode(e.value)|;
      && Encode(e.key) <= s
      && Encode(e.value) <= s[k..]
      && EncodeEntries(others) <= s[k + k'..]
      && |EncodeEntries(entries)| == k + k' + |EncodeEntries(others)|
  {
    assert entries[0] == e && entries[1..] == others;
    var a, b, c := Encode(e.key), Encode(e.value), EncodeEntries(others);
    assert EncodeEntries(entries) == a + b + c;
    PrefixSplit(a + b, c, s);
    PrefixSplit(a, b, s);
  }

  lemma PutNext(acc: seq<Entry>, e: Entry, others: seq<Entry>, entries: seq<Entry>)
    requires entries != [] && e == entries[0] && others == entries[1..] && DistinctKeys(acc + entries)
    ensures entries == [e] + others && acc + entries == acc + [e] + others
    ensures Put(acc, e.key, e.value) == acc + [e]
  {
    var all := acc + entries;
    assert all[|acc|] == e && forall i :: 0 <= i < |acc| ==> all[i] == acc[i];
    PutFresh(acc, e.key, e.value);
  }

  // ---------------------------------------------------------------------------------------------
  // The limits of unpackb
  // ---------------------------------------------------------------------------------------------

  predicate Covers(lim: Limits, n: nat) {
    n <= lim.maxStr && n <= lim.maxBin && n <= lim.maxArray && n <= lim.maxExt && n <= 2 * lim.maxMap + 1
  }

  /** Limits that cover the length of an encoding never reject anything inside it. */
  lemma {:induction false} CoveredFits(v: Value, lim: Limits)
    requires Covers(lim, |Encode(v)|)
    ensures Fits(v, lim) && |Encode(v)| >= 1
    decreases v
  {
    match v {
      case Array(items) => CoveredItems(items, lim);
      case Dict(entries) => CoveredEntries(entries, lim);
      case _ =>
    }
  }

  lemma {:induction false} CoveredItems(items: seq<Value>, lim: Limits)
    requires Covers(lim, |EncodeItems(items)|)
    ensures |items| <= |EncodeItems(items)|
    ensures forall i :: 0 <= i < |items| ==> Fits(items[i], lim)
    decreases items
  {
    hide Encode, Fits;
    if items != [] {
      CoveredFits(items[0], lim);
      CoveredItems(items[1..], lim);
    }
  }

  lemma {:induction false} CoveredEntries(entries: seq<Entry>, lim: Limits)
    requires Covers(lim, |EncodeEntries(entries)|)
    ensures 2 * |entries| <= |EncodeEntries(entries)|
    ensures forall i :: 0 <= i < |entries| ==> Fits(entries[i].key, lim) && Fits(entries[i].value, lim)
    decreases entries
  {
    hide Encode, Fits;
    if entries != [] {
      var Entry(key, value) := entries[0];
      assert key < entries[0] && value < entries[0];
      CoveredFits(key, lim);
      CoveredFits(value, lim);
      CoveredEntries(entries[1..], lim);
    }
  }

  /**
    The round trip, exactly: for every value that `pack` accepts, `unpackb(pack(v))` is `v` if and only if all
    dict keys are text. Otherwise it is the error of `strict_map_key`, never one of the derived limits.
  */
  lemma RoundTrip(v: Value)
    requires WellFormed(v) && Packable(v)
    ensures UnpackB(Encode(v)) == Ok(v) <==> TextKeys(v)
    ensures !TextKeys(v) ==> UnpackB(Encode(v)) == Err(BadMapKey)
  {
    hide Decode, Encode, WellFormed, PackCheck, Fits;
    var lim := DefaultLimits(|Encode(v)|);
    CoveredFits(v, lim);
    DecodeEncode(v, RECURSE_LIMIT, Encode(v), lim);
  }

  /** A dict with the key 1 is packed, and then refused. */
  lemma IntegerKeyIsRefused()
    ensures
      var v := Dict([Entry(Int(1), Nil)]);
      Packable(v) && UnpackB(Encode(v)) == Err(BadMapKey)
  {
    hide Encode, Decode;
    var e := Entry(Int(1), Nil);
    var v := Dict([e]);
    assert WellFormed(e.key) && WellFormed(e.value);
    assert PackCheck(e.key, RECURSE_LIMIT - 2) == None && PackCheck(e.value, RECURSE_LIMIT - 2) == None;
    assert [e][1..] == [] && CheckEntries([], RECURSE_LIMIT - 2) == None;
    assert CheckEntries([e], RECURSE_LIMIT - 2) == None;
    assert WellFormed(v);
    assert PackCheck(v, RECURSE_LIMIT) == None;
    assert !TextKeys(v) by {
      assert v.entries[0] == e;
    }
    RoundTrip(v);
  }
}
