/** The values that the MessagePack codec exchanges, and the errors that it raises. */
module MsgPackValue {
  import opened Basics
  import opened Bytes

  /**
    A Python value as the codec sees it. `Str` holds the UTF-8 form of a `str`, `Float` the eight bytes of
    a double, `Array` a list, and `Dict` a dict in its insertion order.
  */
  datatype Value =
    | Nil
    | Bool(b: bool)
    | Int(i: int)
    | Float(bits: seq<byte>)
    | Str(utf8: seq<byte>)
    | Bin(data: seq<byte>)
    | Ext(code: int, payload: seq<byte>)
    | Timestamp(seconds: int, nanoseconds: int)
    | Array(items: seq<Value>)
    | Dict(entries: seq<Entry>)

  datatype Entry = Entry(key: Value, value: Value)

  predicate IsContinuation(b: byte) {
    0x80 <= b <= 0xBF
  }

  /** Well-formed UTF-8, as Python's strict decoder accepts it (no overlong forms, no surrogates). */
  predicate ValidUtf8(s: seq<byte>) {
    if s == [] then true
    else if s[0] < 0x80 then ValidUtf8(s[1..])
    else if |s| >= 2 && 0xC2 <= s[0] <= 0xDF then IsContinuation(s[1]) && ValidUtf8(s[2..])
    else if |s| >= 3 && 0xE0 <= s[0] <= 0xEF then
      && IsContinuation(s[1]) && IsContinuation(s[2])
      && (s[0] == 0xE0 ==> 0xA0 <= s[1])
      && (s[0] == 0xED ==> s[1] <= 0x9F)
      && ValidUtf8(s[3..])
    else if |s| >= 4 && 0xF0 <= s[0] <= 0xF4 then
      && IsContinuation(s[1]) && IsContinuation(s[2]) && IsContinuation(s[3])
      && (s[0] == 0xF0 ==> 0x90 <= s[1])
      && (s[0] == 0xF4 ==> s[1] <= 0x8F)
      && ValidUtf8(s[4..])
    else false
  }

  /** What the constructors of the Python classes guarantee about every value. */
  predicate WellFormed(v: Value) {
    match v
    case Float(bits) => |bits| == 8
    case Str(utf8) => ValidUtf8(utf8)
    case Ext(code, _) => 0 <= code <= 127
    case Timestamp(_, nanoseconds) => 0 <= nanoseconds < 1_000_000_000
    case Array(items) => forall i :: 0 <= i < |items| ==> WellFormed(items[i])
    case Dict(entries) =>
      && (forall i :: 0 <= i < |entries| ==> WellFormed(entries[i].key) && WellFormed(entries[i].value))
      && DistinctKeys(entries)
    case _ => true
  }

  predicate DistinctKeys(entries: seq<Entry>) {
    forall i, j :: 0 <= i < j < |entries| ==> entries[i].key != entries[j].key
  }

  predicate IsTextKey(v: Value) {
    v.Str? || v.Bin?
  }

  /** Every dict key, at every depth, is a `str` or `bytes`: what `strict_map_key` asks for. */
  predicate TextKeys(v: Value) {
    match v
    case Array(items) => forall i :: 0 <= i < |items| ==> TextKeys(items[i])
    case Dict(entries) =>
      forall i :: 0 <= i < |entries| ==> IsTextKey(entries[i].key) && TextKeys(entries[i].value)
    case _ => true
  }

  /** Assignment `d[key] = value`: an existing key keeps its place and takes the new value. */
  function Put(entries: seq<Entry>, key: Value, value: Value): (r: seq<Entry>)
  {
    if entries == [] then [Entry(key, value)]
    else if entries[0].key == key then [Entry(key, value)] + entries[1..]
    else [entries[0]] + Put(entries[1..], key, value)
  }

  lemma {:induction false} PutFresh(entries: seq<Entry>, key: Value, value: Value)
    requires forall i :: 0 <= i < |entries| ==> entries[i].key != key
    ensures Put(entries, key, value) == entries + [Entry(key, value)]
  {
    if entries != [] {
      PutFresh(entries[1..], key, value);
    }
  }

  datatype PackError = RecursionLimit | IntegerOverflow | TooLarge | StructRange

  datatype UnpackError =
    | LimitExceeded | UnknownHeader | BadMapKey | BadUtf8 | BadExtCode | BadTimestamp | Incomplete | ExtraData

  /** The outcome of reading a prefix of some bytes, with the number of bytes the cursor moved over. */
  datatype Parse<+T> = Done(value: T, used: nat) | OutOfData | Failed(error: UnpackError, at: nat)
}
