/** How the decoder behaves on prefixes of its input, and how skipping relates to decoding. */
module MsgPackPrefix {
  import opened Basics
  import opened Bytes
  import opened MsgPackValue
  import opened MsgPackFormat

  // ---------------------------------------------------------------------------------------------
  // More bytes do not change a finished outcome
  // ---------------------------------------------------------------------------------------------

  lemma PayloadExtends(s: seq<byte>, u: seq<byte>, at: nat, n: nat)
    requires s <= u && Payload(s, at, n) != OutOfData
    ensures Payload(u, at, n) == Payload(s, at, n)
  {
    assert u[at..at + n] == s[at..at + n];
  }

  lemma LengthExtends(s: seq<byte>, u: seq<byte>, w: nat)
    requires s <= u && Length(s, w) != OutOfData
    ensures Length(u, w) == Length(s, w)
  {
    PayloadExtends(s, u, 1, w);
  }

  lemma HeaderExtends(s: seq<byte>, u: seq<byte>, lim: Limits)
    requires s <= u && HeaderOf(s, lim) != OutOfData
    ensures HeaderOf(u, lim) == HeaderOf(s, lim)
  {
    assert u[0] == s[0];
    match FormatOf(s[0]) {
      case Number(w, signed) => LengthExtends(s, u, w);
      case Floating(w) => PayloadExtends(s, u, 1, w);
      case FixStr(n) => StrExtends(s, u, n, 1, lim);
      case FixExt(size) =>
        if size <= lim.maxExt {
          PayloadExtends(s, u, 1, size + 1);
        }
      case StrLen(w) =>
        LengthExtends(s, u, w);
        StrExtends(s, u, Length(s, w).value, Length(s, w).used, lim);
      case BinLen(w) => BinExtends(s, u, w, lim);
      case ExtLen(w) => ExtExtends(s, u, w, lim);
      case ArrayLen(w) => LengthExtends(s, u, w);
      case MapLen(w) => LengthExtends(s, u, w);
      case _ =>
    }
  }

  lemma StrExtends(s: seq<byte>, u: seq<byte>, n: nat, at: nat, lim: Limits)
    requires s <= u && StrHeader(s, n, at, lim) != OutOfData
    ensures StrHeader(u, n, at, lim) == StrHeader(s, n, at, lim)
  {
    if n <= lim.maxStr {
      PayloadExtends(s, u, at, n);
    }
  }

  lemma BinExtends(s: seq<byte>, u: seq<byte>, w: nat, lim: Limits)
    requires s <= u && BinLenHeader(s, w, lim) != OutOfData
    ensures BinLenHeader(u, w, lim) == BinLenHeader(s, w, lim)
  {
    LengthExtends(s, u, w);
    var n := Length(s, w).value;
    if n <= lim.maxBin {
      PayloadExtends(s, u, Length(s, w).used, n);
    }
  }

  lemma ExtExtends(s: seq<byte>, u: seq<byte>, w: nat, lim: Limits)
    requires s <= u && ExtLenHeader(s, w, lim) != OutOfData
    ensures ExtLenHeader(u, w, lim) == ExtLenHeader(s, w, lim)
  {
    PayloadExtends(s, u, 1, w + 1);
    var field := Payload(s, 1, w + 1).value;
    var n := FromBigEndian(field[..w]);
    if n <= lim.maxExt {
      PayloadExtends(s, u, Payload(s, 1, w + 1).used, n);
    }
  }

  /** Decoding depends only on the bytes it moves over: later bytes change neither a value nor an error. */
  lemma {:induction false} DecodeExtends(s: seq<byte>, u: seq<byte>, lim: Limits)
    requires s <= u && Decode(s, lim) != OutOfData
    ensures Decode(u, lim) == Decode(s, lim)
    decreases |s|, 0
  {
    hide HeaderOf;
    HeaderExtends(s, u, lim);
    var h := HeaderOf(s, lim);
    if h.Done? {
      var k := h.used;
      assert s[k..] <= u[k..];
      match h.value {
        case ArrayOf(n) => ItemsExtend(s[k..], u[k..], n, lim);
        case MapOf(n) => EntriesExtend(s[k..], u[k..], n, [], lim);
        case _ =>
      }
    }
  }

  lemma {:induction false} ItemsExtend(s: seq<byte>, u: seq<byte>, n: nat, lim: Limits)
    requires s <= u && DecodeItems(s, n, lim) != OutOfData
    ensures DecodeItems(u, n, lim) == DecodeItems(s, n, lim)
    decreases |s|, n
  {
    hide Decode;
    if n > 0 {
      DecodeExtends(s, u, lim);
      var r := Decode(s, lim);
      if r.Done? {
        ItemsExtend(s[r.used..], u[r.used..], n - 1, lim);
      }
    }
  }

  lemma {:induction false} EntryExtends(s: seq<byte>, u: seq<byte>, lim: Limits)
    requires s <= u && DecodeEntry(s, lim) != OutOfData
    ensures DecodeEntry(u, lim) == DecodeEntry(s, lim)
    decreases |s|, 1
  {
    hide Decode;
    DecodeExtends(s, u, lim);
    var r := Decode(s, lim);
    if r.Done? && IsTextKey(r.value) {
      DecodeExtends(s[r.used..], u[r.used..], lim);
    }
  }

  lemma {:induction false} EntriesExtend(s: seq<byte>, u: seq<byte>, n: nat, acc: seq<Entry>, lim: Limits)
    requires s <= u && DecodeEntries(s, n, acc, lim) != OutOfData
    ensures DecodeEntries(u, n, acc, lim) == DecodeEntries(s, n, acc, lim)
    decreases |s|, n + 1
  {
    hide DecodeEntry;
    if n > 0 {
      EntryExtends(s, u, lim);
      var r := DecodeEntry(s, lim);
      if r.Done? {
        var acc' := EntriesUnfold(s, u, n, acc, r.value, r.used, lim);
        EntriesExtend(s[r.used..], u[r.used..], n - 1, acc', lim);
      }
    }
  }

  lemma EntriesUnfold(s: seq<byte>, u: seq<byte>, n: nat, acc: seq<Entry>, e: Entry, k: nat, lim: Limits)
    returns (acc': seq<Entry>)
    requires n > 0 && DecodeEntry(s, lim) == Done(e, k) && DecodeEntry(u, lim) == Done(e, k)
    ensures DecodeEntries(s, n, acc, lim) == Behind(k, DecodeEntries(s[k..], n - 1, acc', lim))
    ensures DecodeEntries(u, n, acc, lim) == Behind(k, DecodeEntries(u[k..], n - 1, acc', lim))
  {
    acc' := Put(acc, e.key, e.value);
  }

  /** Every proper prefix of what one decode consumed is incomplete, and never an error. */
  lemma ProperPrefixIsIncomplete(s: seq<byte>, n: nat, lim: Limits)
    requires Decode(s, lim).Done? && n < Decode(s, lim).used
    ensures Decode(s[..n], lim) == OutOfData
  {
    if Decode(s[..n], lim) != OutOfData {
      DecodeExtends(s[..n], s, lim);
    }
  }

  lemma {:induction false} SkipExtends(s: seq<byte>, u: seq<byte>, lim: Limits)
    requires s <= u && Skip(s, lim) != OutOfData
    ensures Skip(u, lim) == Skip(s, lim)
    decreases |s|, 0
  {
    HeaderExtends(s, u, lim);
    var h := HeaderOf(s, lim);
    if h.Done? {
      var k := h.used;
      assert s[k..] <= u[k..];
      match h.value {
        case ArrayOf(n) => SkipItemsExtend(s[k..], u[k..], n, lim);
        case MapOf(n) => SkipEntriesExtend(s[k..], u[k..], n, lim);
        case _ =>
      }
    }
  }

  lemma {:induction false} SkipItemsExtend(s: seq<byte>, u: seq<byte>, n: nat, lim: Limits)
    requires s <= u && SkipItems(s, n, lim) != OutOfData
    ensures SkipItems(u, n, lim) == SkipItems(s, n, lim)
    decreases |s|, n
  {
    hide Skip;
    if n > 0 {
      SkipExtends(s, u, lim);
      var r := Skip(s, lim);
      if r.Done? {
        SkipItemsExtend(s[r.used..], u[r.used..], n - 1, lim);
      }
    }
  }

  lemma {:induction false} SkipEntryExtends(s: seq<byte>, u: seq<byte>, lim: Limits)
    requires s <= u && SkipEntry(s, lim) != OutOfData
    ensures SkipEntry(u, lim) == SkipEntry(s, lim)
    decreases |s|, 1
  {
    hide Skip;
    SkipExtends(s, u, lim);
    var r := Skip(s, lim);
    if r.Done? {
      SkipExtends(s[r.used..], u[r.used..], lim);
    }
  }

  lemma {:induction false} SkipEntriesExtend(s: seq<byte>, u: seq<byte>, n: nat, lim: Limits)
    requires s <= u && SkipEntries(s, n, lim) != OutOfData
    ensures SkipEntries(u, n, lim) == SkipEntries(s, n, lim)
    decreases |s|, n + 1
  {
    hide SkipEntry;
    if n > 0 {
      SkipEntryExtends(s, u, lim);
      var r := SkipEntry(s, lim);
      if r.Done? {
        SkipEntriesExtend(s[r.used..], u[r.used..], n - 1, lim);
      }
    }
  }

  // ---------------------------------------------------------------------------------------------
  // Skipping moves exactly as far as decoding
  // ---------------------------------------------------------------------------------------------

  /** Header errors; the others are about contents. */
  predicate IsHeaderError(e: UnpackError) {
    e == LimitExceeded || e == UnknownHeader
  }

  predicate SkipMatches<T>(skipped: Parse<()>, decoded: Parse<T>) {
    match decoded
    case Done(_, used) => skipped == Done((), used)
    case OutOfData => skipped == OutOfData
    case Failed(e, at) => IsHeaderError(e) ==> skipped == Failed(e, at)
  }

  /**
    `skip` ends where `unpack` ends, runs out of data where `unpack` does and raises the same header errors;
    only contents that `unpack` refuses (keys, text, codes, timestamps) can be skipped.
  */
  lemma {:induction false} SkipAgrees(s: seq<byte>, lim: Limits)
    ensures SkipMatches(Skip(s, lim), Decode(s, lim))
    decreases |s|, 0
  {
    var h := HeaderOf(s, lim);
    if h.Done? {
      match h.value {
        case ArrayOf(n) => SkipItemsAgree(s[h.used..], n, lim);
        case MapOf(n) => SkipEntriesAgree(s[h.used..], n, [], lim);
        case _ =>
      }
    } else if h.Failed? {
      HeaderErrors(s, lim);
    }
  }

  lemma HeaderErrors(s: seq<byte>, lim: Limits)
    requires HeaderOf(s, lim).Failed?
    ensures IsHeaderError(HeaderOf(s, lim).error)
  {
  }

  lemma {:induction false} SkipItemsAgree(s: seq<byte>, n: nat, lim: Limits)
    ensures SkipMatches(SkipItems(s, n, lim), DecodeItems(s, n, lim))
    decreases |s|, n
  {
    hide Skip, Decode;
    if n > 0 {
      SkipAgrees(s, lim);
      var r := Decode(s, lim);
      if r.Done? {
        SkipItemsAgree(s[r.used..], n - 1, lim);
      }
    }
  }

  lemma {:induction false} SkipEntryAgrees(s: seq<byte>, lim: Limits)
    ensures SkipMatches(SkipEntry(s, lim), DecodeEntry(s, lim))
    decreases |s|, 1
  {
    hide Skip, Decode;
    SkipAgrees(s, lim);
    var r := Decode(s, lim);
    if r.Done? {
      SkipAgrees(s[r.used..], lim);
    }
  }

  lemma {:induction false} SkipEntriesAgree(s: seq<byte>, n: nat, acc: seq<Entry>, lim: Limits)
    ensures SkipMatches(SkipEntries(s, n, lim), DecodeEntries(s, n, acc, lim))
    decreases |s|, n + 1
  {
    hide SkipEntry, DecodeEntry;
    if n > 0 {
      SkipEntryAgrees(s, lim);
      var r := DecodeEntry(s, lim);
      if r.Done? {
        SkipEntriesAgree(s[r.used..], n - 1, Put(acc, r.value.key, r.value.value), lim);
      }
    }
  }
}
