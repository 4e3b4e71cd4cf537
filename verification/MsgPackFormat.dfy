/**
  The MessagePack wire format as functions: what the packer writes for a value, and what the unpacker makes
  of the bytes in front of its cursor. The classes in `Packer` and `Unpacker` are proved against these.
*/
module MsgPackFormat {
  import opened Basics
  import opened Bytes
  import opened MsgPackValue
  import T = MsgPackTimestamp

  const RECURSE_LIMIT := 511

  // ---------------------------------------------------------------------------------------------
  // Writing
  // ---------------------------------------------------------------------------------------------

  function EncodeInt(i: int): seq<byte> {
    if 0 <= i < 0x80 then BigEndian(i, 1)
    else if -0x20 <= i < 0 then BigEndian(i, 1)
    else if 0x80 <= i <= 0xFF then [0xCC] + BigEndian(i, 1)
    else if -0x80 <= i < 0 then [0xD0] + BigEndian(i, 1)
    else if 0xFF < i <= 0xFFFF then [0xCD] + BigEndian(i, 2)
    else if -0x8000 <= i < -0x80 then [0xD1] + BigEndian(i, 2)
    else if 0xFFFF < i <= 0xFFFF_FFFF then [0xCE] + BigEndian(i, 4)
    else if -0x8000_0000 <= i < -0x8000 then [0xD2] + BigEndian(i, 4)
    else if 0xFFFF_FFFF < i then [0xCF] + BigEndian(i, 8)
    else [0xD3] + BigEndian(i, 8)
  }

  predicate IntFits(i: int) {
    -0x8000_0000_0000_0000 <= i <= 0xFFFF_FFFF_FFFF_FFFF
  }

  predicate LengthFits(n: nat) {
    n <= 0xFFFF_FFFF
  }

  function RawHeader(n: nat): seq<byte> {
    if n <= 0x1F then [0xA0 + n]
    else if n <= 0xFF then [0xD9] + BigEndian(n, 1)
    else if n <= 0xFFFF then [0xDA] + BigEndian(n, 2)
    else [0xDB] + BigEndian(n, 4)
  }

  function BinHeader(n: nat): seq<byte> {
    if n <= 0xFF then [0xC4] + BigEndian(n, 1)
    else if n <= 0xFFFF then [0xC5] + BigEndian(n, 2)
    else [0xC6] + BigEndian(n, 4)
  }

  function ArrayHeader(n: nat): seq<byte> {
    if n <= 0x0F then [0x90 + n]
    else if n <= 0xFFFF then [0xDC] + BigEndian(n, 2)
    else [0xDD] + BigEndian(n, 4)
  }

  function DictHeader(n: nat): seq<byte> {
    if n <= 0x0F then [0x80 + n]
    else if n <= 0xFFFF then [0xDE] + BigEndian(n, 2)
    else [0xDF] + BigEndian(n, 4)
  }

  function ExtHeader(n: nat, code: int): seq<byte> {
    (if n == 1 then [0xD4]
     else if n == 2 then [0xD5]
     else if n == 4 then [0xD6]
     else if n == 8 then [0xD7]
     else if n == 16 then [0xD8]
     else if n <= 0xFF then [0xC7] + BigEndian(n, 1)
     else if n <= 0xFFFF then [0xC8] + BigEndian(n, 2)
     else [0xC9] + BigEndian(n, 4))
    + BigEndian(code, 1)
  }

  function Encode(v: Value): seq<byte>
    decreases v
  {
    match v
    case Nil => [0xC0]
    case Bool(b) => [if b then 0xC3 else 0xC2]
    case Int(i) => EncodeInt(i)
    case Float(bits) => [0xCB] + bits
    case Str(utf8) => RawHeader(|utf8|) + utf8
    case Bin(data) => BinHeader(|data|) + data
    case Ext(code, payload) => ExtHeader(|payload|, code) + payload
    case Timestamp(seconds, nanoseconds) =>
      var payload := T.ToBytes(seconds, if nanoseconds < 0 then 0 else nanoseconds);
      ExtHeader(|payload|, -1) + payload
    case Array(items) => ArrayHeader(|items|) + EncodeItems(items)
    case Dict(entries) => DictHeader(|entries|) + EncodeEntries(entries)
  }

  function EncodeItems(items: seq<Value>): seq<byte>
    decreases items
  {
    if items == [] then [] else Encode(items[0]) + EncodeItems(items[1..])
  }

  function EncodeEntries(entries: seq<Entry>): seq<byte>
    decreases entries
  {
    if entries == [] then []
    else
      var Entry(key, value) := entries[0];
      assert key < entries[0] && value < entries[0];
      Encode(key) + Encode(value) + EncodeEntries(entries[1..])
  }

  /** The first error that packing `v` runs into, in the order in which the packer walks over it. */
  function PackCheck(v: Value, nest: int): Option<PackError>
    decreases v
  {
    if nest < 0 then Some(RecursionLimit) else
    match v
    case Int(i) => if IntFits(i) then None else Some(IntegerOverflow)
    case Str(utf8) => if LengthFits(|utf8|) then None else Some(TooLarge)
    case Bin(data) => if LengthFits(|data|) then None else Some(TooLarge)
    case Ext(_, payload) => if LengthFits(|payload|) then None else Some(StructRange)
    case Timestamp(seconds, _) => if T.SecondsFit(seconds) then None else Some(StructRange)
    case Array(items) => if LengthFits(|items|) then CheckItems(items, nest - 1) else Some(TooLarge)
    case Dict(entries) => if LengthFits(|entries|) then CheckEntries(entries, nest - 2) else Some(TooLarge)
    case _ => None
  }

  function CheckItems(items: seq<Value>, nest: int): Option<PackError>
    decreases items
  {
    if items == [] then None
    else if PackCheck(items[0], nest).Some? then PackCheck(items[0], nest)
    else CheckItems(items[1..], nest)
  }

  function CheckEntries(entries: seq<Entry>, nest: int): Option<PackError>
    decreases entries
  {
    if entries == [] then None
    else
      var Entry(key, value) := entries[0];
      assert key < entries[0] && value < entries[0];
      if PackCheck(key, nest).Some? then PackCheck(key, nest)
      else if PackCheck(value, nest).Some? then PackCheck(value, nest)
      else CheckEntries(entries[1..], nest)
  }

  predicate Packable(v: Value) {
    PackCheck(v, RECURSE_LIMIT) == None
  }

  // ---------------------------------------------------------------------------------------------
  // Reading one header
  // ---------------------------------------------------------------------------------------------

  /** The five length limits of an unpacker. */
  datatype Limits = Limits(maxStr: nat, maxBin: nat, maxArray: nat, maxMap: nat, maxExt: nat)

  /** The result of `_read_header`: a finished scalar, a payload, or the number of elements to come. */
  datatype Header =
    | Immediate(v: Value)
    | RawData(data: seq<byte>)
    | BinData(data: seq<byte>)
    | ExtData(code: int, data: seq<byte>)
    | ArrayOf(n: nat)
    | MapOf(n: nat)

  /** What a first byte announces: the table of section "Formats" of the MessagePack specification. */
  datatype Format =
    | Inline(v: Value)
    | Number(width: nat, signed: bool)
    | Floating(width: nat)
    | FixStr(n: nat)
    | FixArray(n: nat)
    | FixMap(n: nat)
    | FixExt(size: nat)
    | StrLen(width: nat)
    | BinLen(width: nat)
    | ExtLen(width: nat)
    | ArrayLen(width: nat)
    | MapLen(width: nat)
    | Unused

  function FormatOf(b: byte): Format {
    if b < 0x80 then Inline(Int(b))
    else if b < 0x90 then FixMap(b - 0x80)
    else if b < 0xA0 then FixArray(b - 0x90)
    else if b < 0xC0 then FixStr(b - 0xA0)
    else if b >= 0xE0 then Inline(Int(b - 0x100))
    else match b
      case 0xC0 => Inline(Nil)
      case 0xC2 => Inline(Bool(false))
      case 0xC3 => Inline(Bool(true))
      case 0xC4 => BinLen(1)
      case 0xC5 => BinLen(2)
      case 0xC6 => BinLen(4)
      case 0xC7 => ExtLen(1)
      case 0xC8 => ExtLen(2)
      case 0xC9 => ExtLen(4)
      case 0xCA => Floating(4)
      case 0xCB => Floating(8)
      case 0xCC => Number(1, false)
      case 0xCD => Number(2, false)
      case 0xCE => Number(4, false)
      case 0xCF => Number(8, false)
      case 0xD0 => Number(1, true)
      case 0xD1 => Number(2, true)
      case 0xD2 => Number(4, true)
      case 0xD3 => Number(8, true)
      case 0xD4 => FixExt(1)
      case 0xD5 => FixExt(2)
      case 0xD6 => FixExt(4)
      case 0xD7 => FixExt(8)
      case 0xD8 => FixExt(16)
      case 0xD9 => StrLen(1)
      case 0xDA => StrLen(2)
      case 0xDB => StrLen(4)
      case 0xDC => ArrayLen(2)
      case 0xDD => ArrayLen(4)
      case 0xDE => MapLen(2)
      case 0xDF => MapLen(4)
      case _ => Unused
  }

  /** The double that a single-precision payload widens to (sign, rebiased exponent, shifted mantissa). */
  function Widen(bits: seq<byte>): (r: seq<byte>)
    requires |bits| == 4
    ensures |r| == 8
  {
    var n := FromBigEndian(bits);
    var sign, exponent, mantissa := n / 0x8000_0000, n / 0x80_0000 % 0x100, n % 0x80_0000;
    var magnitude :=
      if exponent == 0xFF then 0x7FF0_0000_0000_0000 + mantissa * 0x2000_0000
      else if exponent > 0 then (exponent + 896) * 0x10_0000_0000_0000 + mantissa * 0x2000_0000
      else if mantissa > 0 then Normalized(mantissa, 897)
      else 0;
    BigEndian(sign * 0x8000_0000_0000_0000 + magnitude, 8)
  }

  /** A subnormal mantissa, doubled until its leading bit stands where a double implies it. */
  function Normalized(mantissa: nat, exponent: int): int
    requires mantissa > 0
    decreases 0x80_0000 - mantissa
  {
    if mantissa < 0x80_0000 then Normalized(2 * mantissa, exponent - 1)
    else exponent * 0x10_0000_0000_0000 + (mantissa - 0x80_0000) * 0x2000_0000
  }

  /** A payload of `n` bytes behind `at` bytes that are already read. */
  function Payload(s: seq<byte>, at: nat, n: nat): Parse<seq<byte>> {
    if at + n <= |s| then Done(s[at..at + n], at + n) else OutOfData
  }

  /** A length field of `width` bytes right behind the first byte. */
  function Length(s: seq<byte>, width: nat): Parse<nat> {
    match Payload(s, 1, width)
    case Done(field, used) => Done(FromBigEndian(field), used)
    case OutOfData => OutOfData
    case Failed(e, at) => Failed(e, at)
  }

  function NumberHeader(s: seq<byte>, w: nat, signed: bool): Parse<Header> {
    match Length(s, w)
    case Done(n, used) => Done(Immediate(Int(if signed then Signed(n, w) else n)), used)
    case OutOfData => OutOfData
    case Failed(e, at) => Failed(e, at)
  }

  function FloatHeader(s: seq<byte>, w: nat): Parse<Header> {
    match Payload(s, 1, w)
    case Done(bits, used) => Done(Immediate(Float(if |bits| == 4 then Widen(bits) else bits)), used)
    case OutOfData => OutOfData
    case Failed(e, at) => Failed(e, at)
  }

  function StrHeader(s: seq<byte>, n: nat, at: nat, lim: Limits): Parse<Header> {
    if n > lim.maxStr then Failed(LimitExceeded, at) else
    match Payload(s, at, n)
    case Done(data, used) => Done(RawData(data), used)
    case OutOfData => OutOfData
    case Failed(e, k) => Failed(e, k)
  }

  function StrLenHeader(s: seq<byte>, w: nat, lim: Limits): Parse<Header> {
    match Length(s, w)
    case Done(n, used) => StrHeader(s, n, used, lim)
    case OutOfData => OutOfData
    case Failed(e, at) => Failed(e, at)
  }

  function BinLenHeader(s: seq<byte>, w: nat, lim: Limits): Parse<Header> {
    match Length(s, w)
    case Done(n, used) => (
      if n > lim.maxBin then Failed(LimitExceeded, used) else
      match Payload(s, used, n)
      case Done(data, k) => Done(BinData(data), k)
      case OutOfData => OutOfData
      case Failed(e, at) => Failed(e, at))
    case OutOfData => OutOfData
    case Failed(e, at) => Failed(e, at)
  }

  function FixExtHeader(s: seq<byte>, size: nat, lim: Limits): Parse<Header> {
    if size > lim.maxExt then Failed(LimitExceeded, 1) else
    match Payload(s, 1, size + 1)
    case Done(data, used) => Done(ExtData(Signed(data[0], 1), data[1..]), used)
    case OutOfData => OutOfData
    case Failed(e, at) => Failed(e, at)
  }

  /** The length field and the type code are read together. */
  function ExtLenHeader(s: seq<byte>, w: nat, lim: Limits): Parse<Header> {
    match Payload(s, 1, w + 1)
    case Done(field, used) => (
      var n := FromBigEndian(field[..w]);
      if n > lim.maxExt then Failed(LimitExceeded, used) else
      match Payload(s, used, n)
      case Done(data, k) => Done(ExtData(Signed(field[w], 1), data), k)
      case OutOfData => OutOfData
      case Failed(e, at) => Failed(e, at))
    case OutOfData => OutOfData
    case Failed(e, at) => Failed(e, at)
  }

  function ArrayLenHeader(s: seq<byte>, w: nat, lim: Limits): Parse<Header> {
    match Length(s, w)
    case Done(n, used) => if n > lim.maxArray then Failed(LimitExceeded, used) else Done(ArrayOf(n), used)
    case OutOfData => OutOfData
    case Failed(e, at) => Failed(e, at)
  }

  function MapLenHeader(s: seq<byte>, w: nat, lim: Limits): Parse<Header> {
    match Length(s, w)
    case Done(n, used) => if n > lim.maxMap then Failed(LimitExceeded, used) else Done(MapOf(n), used)
    case OutOfData => OutOfData
    case Failed(e, at) => Failed(e, at)
  }

  /** The header whose first byte announced `format`. */
  function HeaderBody(s: seq<byte>, format: Format, lim: Limits): (r: Parse<Header>)
    requires s != []
    ensures r.Done? ==> 1 <= r.used <= |s|
    ensures r.Failed? ==> 1 <= r.at <= |s|
  {
    match format
    case Inline(v) => Done(Immediate(v), 1)
    case Unused => Failed(UnknownHeader, 1)
    case Number(w, signed) => NumberHeader(s, w, signed)
    case Floating(w) => FloatHeader(s, w)
    case FixStr(n) => StrHeader(s, n, 1, lim)
    case FixArray(n) => if n > lim.maxArray then Failed(LimitExceeded, 1) else Done(ArrayOf(n), 1)
    case FixMap(n) => if n > lim.maxMap then Failed(LimitExceeded, 1) else Done(MapOf(n), 1)
    case FixExt(size) => FixExtHeader(s, size, lim)
    case StrLen(w) => StrLenHeader(s, w, lim)
    case BinLen(w) => BinLenHeader(s, w, lim)
    case ExtLen(w) => ExtLenHeader(s, w, lim)
    case ArrayLen(w) => ArrayLenHeader(s, w, lim)
    case MapLen(w) => MapLenHeader(s, w, lim)
  }

  /** `_read_header` with the cursor in front of `s`. */
  function HeaderOf(s: seq<byte>, lim: Limits): (r: Parse<Header>)
    ensures r.Done? ==> 1 <= r.used <= |s|
    ensures r.Failed? ==> 1 <= r.at <= |s|
  {
    if s == [] then OutOfData else HeaderBody(s, FormatOf(s[0]), lim)
  }

  // ---------------------------------------------------------------------------------------------
  // Reading one value
  // ---------------------------------------------------------------------------------------------

  datatype Scalar = Good(v: Value) | Bad(error: UnpackError)

  /** The tail of `_unpack` for everything that is not a container. */
  function Finish(h: Header): Scalar
    requires !h.ArrayOf? && !h.MapOf?
  {
    match h
    case Immediate(v) => Good(v)
    case RawData(data) => if ValidUtf8(data) then Good(Str(data)) else Bad(BadUtf8)
    case BinData(data) => Good(Bin(data))
    case ExtData(code, data) =>
      if code == -1 then
        match T.FromBytes(data)
        case Some(t) => Good(t)
        case None => Bad(BadTimestamp)
      else if 0 <= code <= 127 then Good(Ext(code, data))
      else Bad(BadExtCode)
  }

  /** The outcome `r` of reading on behind `k` bytes. */
  function Behind<T>(k: nat, r: Parse<T>): Parse<T> {
    match r
    case Done(v, used) => Done(v, k + used)
    case OutOfData => OutOfData
    case Failed(e, at) => Failed(e, k + at)
  }

  /** `_unpack(EX_CONSTRUCT)` with the cursor in front of `s`. */
  function Decode(s: seq<byte>, lim: Limits): (r: Parse<Value>)
    ensures r.Done? ==> 1 <= r.used <= |s|
    ensures r.Failed? ==> 1 <= r.at <= |s|
    decreases |s|, 0
  {
    match HeaderOf(s, lim)
    case OutOfData => OutOfData
    case Failed(e, at) => Failed(e, at)
    case Done(ArrayOf(n), k) => (
      match DecodeItems(s[k..], n, lim)
      case Done(items, used) => Done(Array(items), k + used)
      case OutOfData => OutOfData
      case Failed(e, at) => Failed(e, k + at))
    case Done(MapOf(n), k) => (
      match DecodeEntries(s[k..], n, [], lim)
      case Done(entries, used) => Done(Dict(entries), k + used)
      case OutOfData => OutOfData
      case Failed(e, at) => Failed(e, k + at))
    case Done(h, k) => (
      match Finish(h)
      case Good(v) => Done(v, k)
      case Bad(e) => Failed(e, k))
  }

  function DecodeItems(s: seq<byte>, n: nat, lim: Limits): (r: Parse<seq<Value>>)
    ensures r.Done? ==> r.used <= |s| && |r.value| == n
    ensures r.Failed? ==> r.at <= |s|
    decreases |s|, n
  {
    if n == 0 then Done([], 0) else
    match Decode(s, lim)
    case OutOfData => OutOfData
    case Failed(e, at) => Failed(e, at)
    case Done(v, k) =>
      match DecodeItems(s[k..], n - 1, lim)
      case Done(vs, used) => Done([v] + vs, k + used)
      case OutOfData => OutOfData
      case Failed(e, at) => Failed(e, k + at)
  }

  /** A key, checked as `strict_map_key` asks for, and its value. */
  function DecodeEntry(s: seq<byte>, lim: Limits): (r: Parse<Entry>)
    ensures r.Done? ==> 2 <= r.used <= |s| && IsTextKey(r.value.key)
    ensures r.Failed? ==> 1 <= r.at <= |s|
    decreases |s|, 1
  {
    match Decode(s, lim)
    case OutOfData => OutOfData
    case Failed(e, at) => Failed(e, at)
    case Done(key, k) =>
      if !IsTextKey(key) then Failed(BadMapKey, k) else
      match Decode(s[k..], lim)
      case OutOfData => OutOfData
      case Failed(e, at) => Failed(e, k + at)
      case Done(value, used) => Done(Entry(key, value), k + used)
  }

  function DecodeEntries(s: seq<byte>, n: nat, acc: seq<Entry>, lim: Limits): (r: Parse<seq<Entry>>)
    ensures r.Done? ==> r.used <= |s|
    ensures r.Failed? ==> r.at <= |s|
    decreases |s|, n + 1
  {
    if n == 0 then Done(acc, 0) else
    match DecodeEntry(s, lim)
    case OutOfData => OutOfData
    case Failed(e, at) => Failed(e, at)
    case Done(e, k) =>
      Behind(k, DecodeEntries(s[k..], n - 1, Put(acc, e.key, e.value), lim))
  }

  /** `_unpack(EX_SKIP)`: the same headers, but no look at keys, text, codes or timestamps. */
  function Skip(s: seq<byte>, lim: Limits): (r: Parse<()>)
    ensures r.Done? ==> 1 <= r.used <= |s|
    ensures r.Failed? ==> 1 <= r.at <= |s|
    decreases |s|, 0
  {
    match HeaderOf(s, lim)
    case OutOfData => OutOfData
    case Failed(e, at) => Failed(e, at)
    case Done(h, k) =>
      if h.ArrayOf? then Behind(k, SkipItems(s[k..], h.n, lim))
      else if h.MapOf? then Behind(k, SkipEntries(s[k..], h.n, lim))
      else Done((), k)
  }

  function SkipItems(s: seq<byte>, n: nat, lim: Limits): (r: Parse<()>)
    ensures r.Done? ==> r.used <= |s|
    ensures r.Failed? ==> r.at <= |s|
    decreases |s|, n
  {
    if n == 0 then Done((), 0) else
    match Skip(s, lim)
    case Done(_, k) => Behind(k, SkipItems(s[k..], n - 1, lim))
    case stopped => stopped
  }

  function SkipEntry(s: seq<byte>, lim: Limits): (r: Parse<()>)
    ensures r.Done? ==> 2 <= r.used <= |s|
    ensures r.Failed? ==> 1 <= r.at <= |s|
    decreases |s|, 1
  {
    match Skip(s, lim)
    case Done(_, k) => Behind(k, Skip(s[k..], lim))
    case stopped => stopped
  }

  function SkipEntries(s: seq<byte>, n: nat, lim: Limits): (r: Parse<()>)
    ensures r.Done? ==> r.used <= |s|
    ensures r.Failed? ==> r.at <= |s|
    decreases |s|, n + 1
  {
    if n == 0 then Done((), 0) else
    match SkipEntry(s, lim)
    case Done(_, k) => Behind(k, SkipEntries(s[k..], n - 1, lim))
    case stopped => stopped
  }

  // ---------------------------------------------------------------------------------------------
  // One-shot reading
  // ---------------------------------------------------------------------------------------------

  /** The limits that `Unpacker.__init__` derives from `max_buffer_size` (0 stands for 2**31 - 1). */
  function DefaultLimits(maxBufferSize: nat): Limits {
    var size := if maxBufferSize == 0 then 0x7FFF_FFFF else maxBufferSize;
    Limits(size, size, size, size / 2, size)
  }

  datatype Unpacked = Ok(v: Value) | Err(error: UnpackError)

  /** `unpackb(packed)`. */
  function UnpackB(packed: seq<byte>): Unpacked {
    match Decode(packed, DefaultLimits(|packed|))
    case OutOfData => Err(Incomplete)
    case Failed(e, _) => Err(e)
    case Done(v, used) => if used < |packed| then Err(ExtraData) else Ok(v)
  }
}
