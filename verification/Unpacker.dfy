/** The streaming unpacker: a buffer with a cursor, and a checkpoint to fall back to when data runs out. */
module MsgPackUnpacker {
  import opened Basics
  import opened Bytes
  import opened MsgPackValue
  import opened MsgPackFormat
  import opened MsgPackStream
  import T = MsgPackTimestamp

  /** How a call ends: it returns, raises `OutOfData`, or raises another error. */
  datatype Outcome<+A> = Return(v: A) | NoData | Raise(error: UnpackError)

  /** The cursor moved from `start` to `now` as `p` says, or back to the checkpoint. */
  ghost predicate Moved<A>(p: Parse<A>, start: nat, r: Outcome<A>, now: nat, checkpoint: nat) {
    match p
    case Done(v, k) => r == Return(v) && now == start + k
    case OutOfData => r == NoData && now == checkpoint
    case Failed(e, at) => r == Raise(e) && now == start + at
  }

  class Unpacker {
    var buffer: seq<byte>
    var buffI: nat
    var checkpoint: nat
    var streamOffset: nat
    const maxBufferSize: nat
    const lim: Limits

    /** All bytes ever accepted, the calls completed so far, and whether some call has raised an error. */
    ghost var fed: seq<byte>
    ghost var steps: seq<Step>
    ghost var derailed: bool

    ghost predicate Bounds()
      reads this
    {
      checkpoint <= buffI <= |buffer|
    }

    /** The buffer holds what is fed and not consumed; until an error, whole steps lie behind the checkpoint. */
    ghost predicate Valid()
      reads this
    {
      && Bounds()
      && streamOffset <= |fed| && fed[streamOffset..] == buffer[checkpoint..]
      && (!derailed ==> buffI == checkpoint && Trace(fed, steps, streamOffset, lim))
    }

    constructor (maxBufferSize: nat)
      ensures Valid() && fed == [] && steps == [] && !derailed && buffer == [] && buffI == 0
      ensures lim == DefaultLimits(maxBufferSize)
      ensures this.maxBufferSize == if maxBufferSize == 0 then 0x7FFF_FFFF else maxBufferSize
    {
      buffer, buffI, checkpoint, streamOffset := [], 0, 0, 0;
      this.maxBufferSize := if maxBufferSize == 0 then 0x7FFF_FFFF else maxBufferSize;
      lim := DefaultLimits(maxBufferSize);
      fed, steps, derailed := [], [], false;
    }

    /** `feed`: refuses what does not fit, and drops what lies in front of the checkpoint. */
    method Feed(nextBytes: seq<byte>) returns (accepted: bool)
      requires Valid()
      modifies this
      ensures Valid()
      ensures accepted <==> |old(buffer)| - old(buffI) + |nextBytes| <= maxBufferSize
      ensures fed == if accepted then old(fed) + nextBytes else old(fed)
      ensures steps == old(steps) && derailed == old(derailed) && streamOffset == old(streamOffset)
      ensures buffer[buffI..] == old(buffer[buffI..]) + (if accepted then nextBytes else [])
      ensures buffI - checkpoint == old(buffI - checkpoint)
    {
      hide Trace;
      if |buffer| - buffI + |nextBytes| > maxBufferSize {
        return false;
      }
      if checkpoint > 0 {
        buffer := buffer[checkpoint..];
        buffI := buffI - checkpoint;
        checkpoint := 0;
      }
      buffer := buffer + nextBytes;
      if !derailed {
        TraceExtends(fed, fed + nextBytes, steps, streamOffset, lim);
      }
      fed := fed + nextBytes;
      accepted := true;
    }

    method Consume()
      requires Bounds()
      modifies this`streamOffset, this`checkpoint
      ensures Bounds() && checkpoint == buffI && streamOffset == old(streamOffset) + (buffI - old(checkpoint))
    {
      streamOffset := streamOffset + (buffI - checkpoint);
      checkpoint := buffI;
    }

    method Reserve(n: nat) returns (ok: bool)
      requires Bounds()
      modifies this`buffI
      ensures Bounds()
      ensures ok <==> old(buffI) + n <= |buffer|
      ensures buffI == if ok then old(buffI) else checkpoint
    {
      if |buffer| - buffI - n >= 0 {
        return true;
      }
      buffI := checkpoint;
      ok := false;
    }

    method Read(n: nat) returns (r: Outcome<seq<byte>>)
      requires Bounds()
      modifies this`buffI
      ensures Bounds()
      ensures old(buffI) + n <= |buffer| ==>
        r == Return(buffer[old(buffI)..old(buffI) + n]) && buffI == old(buffI) + n
      ensures old(buffI) + n > |buffer| ==> r == NoData && buffI == checkpoint
    {
      var ok := Reserve(n);
      if !ok {
        return NoData;
      }
      r := Return(buffer[buffI..buffI + n]);
      buffI := buffI + n;
    }

    /** A length field behind the first byte, and the check against a limit that follows it. */
    method ReadLength(width: nat, limit: nat) returns (r: Outcome<nat>)
      requires Bounds()
      modifies this`buffI
      ensures Bounds()
      ensures
        var i := old(buffI);
        if i + width > |buffer| then r == NoData && buffI == checkpoint else
          var n := FromBigEndian(buffer[i..i + width]);
          r == (if n > limit then Raise(LimitExceeded) else Return(n)) && buffI == i + width
    {
      var field := Read(width);
      if !field.Return? {
        return NoData;
      }
      var n := FromBigEndian(field.v);
      r := if n > limit then Raise(LimitExceeded) else Return(n);
    }

    /** `_read_header`. */
    method ReadHeader() returns (r: Outcome<Header>)
      requires Bounds()
      modifies this`buffI
      ensures Bounds()
      ensures Moved(HeaderOf(old(buffer[buffI..]), lim), old(buffI), r, buffI, checkpoint)
    {
      hide NumberHeader, FloatHeader, StrHeader, StrLenHeader, BinLenHeader, FixExtHeader, ExtLenHeader,
        ArrayLenHeader, MapLenHeader;
      ghost var s, start := buffer[buffI..], buffI;
      var ok := Reserve(1);
      if !ok {
        return NoData;
      }
      var b := buffer[buffI];
      buffI := buffI + 1;
      if b < 0xC4 || b >= 0xE0 {
        r := ReadFixHeader(b, s, start);
      } else if 0xC4 <= b <= 0xC6 {
        r := ReadBinHeader(if b == 0xC4 then 1 else if b == 0xC5 then 2 else 4, s, start);
      } else if 0xC7 <= b <= 0xC9 {
        r := ReadExtHeader(if b == 0xC7 then 1 else if b == 0xC8 then 2 else 4, s, start);
      } else if 0xCA <= b <= 0xD3 {
        r := ReadNumber(b, s, start);
      } else if 0xD4 <= b <= 0xD8 {
        var size := if b == 0xD4 then 1 else if b == 0xD5 then 2 else if b == 0xD6 then 4
                    else if b == 0xD7 then 8 else 16;
        r := ReadFixExt(size, s, start);
      } else if 0xD9 <= b <= 0xDB {
        r := ReadStrHeader(if b == 0xD9 then 1 else if b == 0xDA then 2 else 4, s, start);
      } else if 0xDC <= b <= 0xDD {
        r := ReadArrayHeader(if b == 0xDC then 2 else 4, s, start);
      } else {
        r := ReadMapHeader(if b == 0xDE then 2 else 4, s, start);
      }
    }

    /** The cursor is behind the first byte of `s`, which starts at `start`. */
    ghost predicate BehindFirst(s: seq<byte>, start: nat)
      reads this
    {
      && Bounds() && start + 1 == buffI && s == buffer[start..]
    }

    /** The formats whose first byte holds the value or the length. */
    method ReadFixHeader(b: byte, ghost s: seq<byte>, ghost start: nat) returns (r: Outcome<Header>)
      requires BehindFirst(s, start) && (b < 0xC4 || b >= 0xE0)
      modifies this`buffI
      ensures Bounds() && Moved(HeaderBody(s, FormatOf(b), lim), start, r, buffI, checkpoint)
    {
      if b < 0x80 {
        r := Return(Immediate(Int(b)));
      } else if b >= 0xE0 {
        var inverted: int := 0xFF - b;
        r := Return(Immediate(Int(-1 - inverted)));
      } else if 0xA0 <= b < 0xC0 {
        var n := b - 0xA0;
        if n > lim.maxStr { return Raise(LimitExceeded); }
        var data := Read(n);
        assert data.Return? ==> data.v == s[1..1 + n];
        r := if data.Return? then Return(RawData(data.v)) else NoData;
      } else if 0x90 <= b < 0xA0 {
        var n := b - 0x90;
        r := if n > lim.maxArray then Raise(LimitExceeded) else Return(ArrayOf(n));
      } else if 0x80 <= b < 0x90 {
        var n := b - 0x80;
        r := if n > lim.maxMap then Raise(LimitExceeded) else Return(MapOf(n));
      } else if b == 0xC0 {
        r := Return(Immediate(Nil));
      } else if b == 0xC2 {
        r := Return(Immediate(Bool(false)));
      } else if b == 0xC3 {
        r := Return(Immediate(Bool(true)));
      } else {
        r := Raise(UnknownHeader);
      }
    }

    method ReadArrayHeader(w: nat, ghost s: seq<byte>, ghost start: nat) returns (r: Outcome<Header>)
      requires BehindFirst(s, start)
      modifies this`buffI
      ensures Bounds() && Moved(ArrayLenHeader(s, w, lim), start, r, buffI, checkpoint)
    {
      var n := ReadLength(w, lim.maxArray);
      assert !n.NoData? ==> buffer[start + 1..start + 1 + w] == s[1..1 + w];
      r := match n case Return(k) => Return(ArrayOf(k)) case NoData => NoData case Raise(e) => Raise(e);
    }

    method ReadMapHeader(w: nat, ghost s: seq<byte>, ghost start: nat) returns (r: Outcome<Header>)
      requires BehindFirst(s, start)
      modifies this`buffI
      ensures Bounds() && Moved(MapLenHeader(s, w, lim), start, r, buffI, checkpoint)
    {
      var n := ReadLength(w, lim.maxMap);
      assert !n.NoData? ==> buffer[start + 1..start + 1 + w] == s[1..1 + w];
      r := match n case Return(k) => Return(MapOf(k)) case NoData => NoData case Raise(e) => Raise(e);
    }

    method ReadStrHeader(w: nat, ghost s: seq<byte>, ghost start: nat) returns (r: Outcome<Header>)
      requires BehindFirst(s, start)
      modifies this`buffI
      ensures Bounds() && Moved(StrLenHeader(s, w, lim), start, r, buffI, checkpoint)
    {
      var n := ReadLength(w, lim.maxStr);
      assert !n.NoData? ==> buffer[start + 1..start + 1 + w] == s[1..1 + w];
      if !n.Return? {
        return if n.NoData? then NoData else Raise(n.error);
      }
      var data := Read(n.v);
      assert data.Return? ==> data.v == s[1 + w..1 + w + n.v];
      r := if data.Return? then Return(RawData(data.v)) else NoData;
    }

    method ReadBinHeader(w: nat, ghost s: seq<byte>, ghost start: nat) returns (r: Outcome<Header>)
      requires BehindFirst(s, start)
      modifies this`buffI
      ensures Bounds() && Moved(BinLenHeader(s, w, lim), start, r, buffI, checkpoint)
    {
      var n := ReadLength(w, lim.maxBin);
      assert !n.NoData? ==> buffer[start + 1..start + 1 + w] == s[1..1 + w];
      if !n.Return? {
        return if n.NoData? then NoData else Raise(n.error);
      }
      var data := Read(n.v);
      assert data.Return? ==> data.v == s[1 + w..1 + w + n.v];
      r := if data.Return? then Return(BinData(data.v)) else NoData;
    }

    /** The struct formats of 0xC7 to 0xC9 read the length and the type code together. */
    method ReadExtHeader(w: nat, ghost s: seq<byte>, ghost start: nat) returns (r: Outcome<Header>)
      requires BehindFirst(s, start)
      modifies this`buffI
      ensures Bounds() && Moved(ExtLenHeader(s, w, lim), start, r, buffI, checkpoint)
    {
      var field := Read(w + 1);
      if !field.Return? {
        return NoData;
      }
      assert field.v == s[1..1 + (w + 1)];
      var n, code := FromBigEndian(field.v[..w]), Signed(field.v[w], 1);
      if n > lim.maxExt {
        return Raise(LimitExceeded);
      }
      var data := Read(n);
      assert data.Return? ==> data.v == s[2 + w..2 + w + n];
      r := if data.Return? then Return(ExtData(code, data.v)) else NoData;
    }

    method ReadFixExt(size: nat, ghost s: seq<byte>, ghost start: nat) returns (r: Outcome<Header>)
      requires BehindFirst(s, start)
      modifies this`buffI
      ensures Bounds() && Moved(FixExtHeader(s, size, lim), start, r, buffI, checkpoint)
    {
      if lim.maxExt < size {
        return Raise(LimitExceeded);
      }
      var data := Read(size + 1);
      assert data.Return? ==> data.v == s[1..1 + (size + 1)];
      r := if data.Return? then Return(ExtData(Signed(data.v[0], 1), data.v[1..])) else NoData;
    }

    method ReadField(size: nat, ghost s: seq<byte>, ghost start: nat) returns (r: Outcome<seq<byte>>)
      requires BehindFirst(s, start)
      modifies this`buffI
      ensures Bounds() && Moved(Payload(s, 1, size), start, r, buffI, checkpoint)
    {
      r := Read(size);
      assert r.Return? ==> r.v == s[1..1 + size];
    }

    /** The fixed-width numbers 0xCA to 0xD3. */
    method ReadNumber(b: byte, ghost s: seq<byte>, ghost start: nat) returns (r: Outcome<Header>)
      requires BehindFirst(s, start) && 0xCA <= b <= 0xD3
      modifies this`buffI
      ensures Bounds()
      ensures FormatOf(b).Floating? ==> Moved(FloatHeader(s, FormatOf(b).width), start, r, buffI, checkpoint)
      ensures FormatOf(b).Number? ==>
        Moved(NumberHeader(s, FormatOf(b).width, FormatOf(b).signed), start, r, buffI, checkpoint)
    {
      hide Widen, FromBigEndian;
      var size := if b == 0xCC || b == 0xD0 then 1 else if b == 0xCD || b == 0xD1 then 2
                  else if b == 0xCA || b == 0xCE || b == 0xD2 then 4 else 8;
      assert size == FormatOf(b).width;
      var field := ReadField(size, s, start);
      if !field.Return? {
        return NoData;
      }
      if b == 0xCA {
        r := Return(Immediate(Float(Widen(field.v))));
      } else if b == 0xCB {
        r := Return(Immediate(Float(field.v)));
      } else if b <= 0xCF {
        r := Return(Immediate(Int(FromBigEndian(field.v))));
      } else {
        r := Return(Immediate(Int(Signed(FromBigEndian(field.v), size))));
      }
    }

    // -------------------------------------------------------------------------------------------
    // Whole values
    // -------------------------------------------------------------------------------------------

    /** `_unpack(EX_CONSTRUCT)`. */
    method UnpackValue() returns (r: Outcome<Value>)
      requires Bounds()
      modifies this`buffI
      ensures Bounds()
      ensures Moved(Decode(old(buffer[buffI..]), lim), old(buffI), r, buffI, checkpoint)
      decreases |buffer| - buffI, 0
    {
      hide HeaderOf, T.FromBytes, ValidUtf8;
      ghost var s, start := buffer[buffI..], buffI;
      var h := ReadHeader();
      if h.NoData? { return NoData; }
      if h.Raise? { return Raise(h.error); }
      ghost var k := HeaderOf(s, lim).used;
      assert buffer[buffI..] == s[k..];
      match h.v {
        case ArrayOf(n) =>
          var items := UnpackItems(n);
          r := match items case Return(vs) => Return(Array(vs)) case NoData => NoData case Raise(e) => Raise(e);
        case MapOf(n) =>
          var entries := UnpackEntries(n);
          r := match entries case Return(es) => Return(Dict(es)) case NoData => NoData case Raise(e) => Raise(e);
        case Immediate(v) => r := Return(v);
        case RawData(data) => r := if ValidUtf8(data) then Return(Str(data)) else Raise(BadUtf8);
        case BinData(data) => r := Return(Bin(data));
        case ExtData(code, data) =>
          if code == -1 {
            var t := T.FromBytes(data);
            r := if t.Some? then Return(t.value) else Raise(BadTimestamp);
          } else {
            r := if 0 <= code <= 127 then Return(Ext(code, data)) else Raise(BadExtCode);
          }
      }
    }

    /** The outcome `r` of reading on behind `k` bytes that held `vs`. */
    static ghost function Prepend(vs: seq<Value>, k: nat, r: Parse<seq<Value>>): Parse<seq<Value>> {
      match r
      case Done(others, used) => Done(vs + others, k + used)
      case OutOfData => OutOfData
      case Failed(e, at) => Failed(e, k + at)
    }

    static lemma PrependNothing(r: Parse<seq<Value>>)
      ensures Prepend([], 0, r) == r
    {
      assert r.Done? ==> [] + r.value == r.value;
    }

    static lemma NoItem(vs: seq<Value>, k: nat, s: seq<byte>, lim: Limits)
      ensures Prepend(vs, k, DecodeItems(s, 0, lim)) == Done(vs, k)
    {
      assert vs + [] == vs;
    }

    static lemma NextItem(vs: seq<Value>, k: nat, s: seq<byte>, n: nat, lim: Limits)
      requires n > 0
      ensures Prepend(vs, k, DecodeItems(s, n, lim)) ==
        match Decode(s, lim)
        case Done(v, used) => Prepend(vs + [v], k + used, DecodeItems(s[used..], n - 1, lim))
        case OutOfData => OutOfData
        case Failed(e, at) => Failed(e, k + at)
    {
      hide Decode;
      var first := Decode(s, lim);
      if first.Done? {
        var others := DecodeItems(s[first.used..], n - 1, lim);
        assert others.Done? ==> vs + ([first.value] + others.value) == (vs + [first.value]) + others.value;
      }
    }

    method UnpackItems(n: nat) returns (r: Outcome<seq<Value>>)
      requires Bounds()
      modifies this`buffI
      ensures Bounds()
      ensures Moved(DecodeItems(old(buffer[buffI..]), n, lim), old(buffI), r, buffI, checkpoint)
      decreases |buffer| - buffI, 1
    {
      hide Decode, DecodeItems, Prepend;
      ghost var s, start := buffer[buffI..], buffI;
      var ret, i := [], 0;
      PrependNothing(DecodeItems(s, n, lim));
      while i < n
        invariant i <= n && Bounds() && start <= buffI
        invariant DecodeItems(s, n, lim) == Prepend(ret, buffI - start, DecodeItems(buffer[buffI..], n - i, lim))
      {
        ghost var here, at := buffer[buffI..], buffI;
        NextItem(ret, at - start, here, n - i, lim);
        var v := UnpackValue();
        if v.NoData? { return NoData; }
        if v.Raise? { return Raise(v.error); }
        assert buffer[buffI..] == here[buffI - at..];
        ret := ret + [v.v];
        i := i + 1;
      }
      NoItem(ret, buffI - start, buffer[buffI..], lim);
      r := Return(ret);
    }

    method UnpackEntries(n: nat) returns (r: Outcome<seq<Entry>>)
      requires Bounds()
      modifies this`buffI
      ensures Bounds()
      ensures Moved(DecodeEntries(old(buffer[buffI..]), n, [], lim), old(buffI), r, buffI, checkpoint)
      decreases |buffer| - buffI, 2
    {
      hide DecodeEntry, Put;
      ghost var s, start := buffer[buffI..], buffI;
      var ret, i := [], 0;
      while i < n
        invariant i <= n && Bounds() && start <= buffI
        invariant DecodeEntries(s, n, [], lim) == Behind(buffI - start, DecodeEntries(buffer[buffI..], n - i, ret, lim))
      {
        ghost var here, at := buffer[buffI..], buffI;
        var e := UnpackEntry();
        if e.NoData? { return NoData; }
        if e.Raise? { return Raise(e.error); }
        assert buffer[buffI..] == here[buffI - at..];
        ret := Put(ret, e.v.key, e.v.value);
        i := i + 1;
      }
      r := Return(ret);
    }

    /** One pass through the loop over a map: the key, its check, the value. */
    method UnpackEntry() returns (r: Outcome<Entry>)
      requires Bounds()
      modifies this`buffI
      ensures Bounds()
      ensures Moved(DecodeEntry(old(buffer[buffI..]), lim), old(buffI), r, buffI, checkpoint)
      decreases |buffer| - buffI, 1
    {
      hide Decode;
      ghost var s, start := buffer[buffI..], buffI;
      var key := UnpackValue();
      if key.NoData? { return NoData; }
      if key.Raise? { return Raise(key.error); }
      if !IsTextKey(key.v) { return Raise(BadMapKey); }
      assert buffer[buffI..] == s[buffI - start..];
      var value := UnpackValue();
      if value.NoData? { return NoData; }
      if value.Raise? { return Raise(value.error); }
      r := Return(Entry(key.v, value.v));
    }

    /** `_unpack(EX_SKIP)`. */
    method SkipValue() returns (r: Outcome<()>)
      requires Bounds()
      modifies this`buffI
      ensures Bounds()
      ensures Moved(Skip(old(buffer[buffI..]), lim), old(buffI), r, buffI, checkpoint)
      decreases |buffer| - buffI, 0
    {
      hide HeaderOf;
      ghost var s, start := buffer[buffI..], buffI;
      var h := ReadHeader();
      if h.NoData? { return NoData; }
      if h.Raise? { return Raise(h.error); }
      ghost var k := HeaderOf(s, lim).used;
      assert buffer[buffI..] == s[k..];
      match h.v {
        case ArrayOf(n) => r := SkipElements(n);
        case MapOf(n) => r := SkipPairs(n);
        case _ => r := Return(());
      }
    }

    method SkipElements(n: nat) returns (r: Outcome<()>)
      requires Bounds()
      modifies this`buffI
      ensures Bounds()
      ensures Moved(SkipItems(old(buffer[buffI..]), n, lim), old(buffI), r, buffI, checkpoint)
      decreases |buffer| - buffI, 1
    {
      hide Skip, HeaderOf;
      ghost var s, start := buffer[buffI..], buffI;
      var i := 0;
      while i < n
        invariant i <= n && Bounds() && start <= buffI
        invariant SkipItems(s, n, lim) == Behind(buffI - start, SkipItems(buffer[buffI..], n - i, lim))
      {
        ghost var here, at := buffer[buffI..], buffI;
        var v := SkipValue();
        if !v.Return? { return v; }
        assert buffer[buffI..] == here[buffI - at..];
        i := i + 1;
      }
      r := Return(());
    }

    method SkipPairs(n: nat) returns (r: Outcome<()>)
      requires Bounds()
      modifies this`buffI
      ensures Bounds()
      ensures Moved(SkipEntries(old(buffer[buffI..]), n, lim), old(buffI), r, buffI, checkpoint)
      decreases |buffer| - buffI, 2
    {
      hide SkipEntry;
      ghost var s, start := buffer[buffI..], buffI;
      var i := 0;
      while i < n
        invariant i <= n && Bounds() && start <= buffI
        invariant SkipEntries(s, n, lim) == Behind(buffI - start, SkipEntries(buffer[buffI..], n - i, lim))
      {
        ghost var here, at := buffer[buffI..], buffI;
        var pair := SkipPair();
        if !pair.Return? { return pair; }
        assert buffer[buffI..] == here[buffI - at..];
        i := i + 1;
      }
      r := Return(());
    }

    /** One pass through the loop over a map. */
    method SkipPair() returns (r: Outcome<()>)
      requires Bounds()
      modifies this`buffI
      ensures Bounds()
      ensures Moved(SkipEntry(old(buffer[buffI..]), lim), old(buffI), r, buffI, checkpoint)
      decreases |buffer| - buffI, 1
    {
      hide Skip;
      ghost var s, start := buffer[buffI..], buffI;
      r := SkipValue();
      if !r.Return? { return r; }
      assert buffer[buffI..] == s[buffI - start..];
      r := SkipValue();
    }

    // -------------------------------------------------------------------------------------------
    // The public calls
    // -------------------------------------------------------------------------------------------

    /** Bookkeeping after a call that completed `step` from a checkpointed cursor. */
    ghost method Completed(step: Step, k: nat)
      requires Bounds() && checkpoint == buffI && streamOffset <= |fed| && fed[streamOffset..] == buffer[buffI..]
      requires !derailed ==>
        && k <= streamOffset && Trace(fed, steps, streamOffset - k, lim)
        && StepAt(fed[streamOffset - k..], step, lim) == Done((), k)
      modifies this`steps
      ensures Valid() && steps == old(steps) + [step]
    {
      hide Trace, StepAt;
      if !derailed {
        TraceAppend(fed, steps, streamOffset - k, step, k, lim);
      }
      steps := steps + [step];
    }

    /** `__next__`: yields the next value, or stops (`NoData`) with the cursor back at the checkpoint. */
    method Next() returns (r: Outcome<Value>)
      requires Valid()
      modifies this
      ensures Valid() && fed == old(fed)
      ensures
        match Decode(old(buffer[buffI..]), lim)
        case Done(v, k) =>
          && r == Return(v) && steps == old(steps) + [Got(v)] && derailed == old(derailed)
          && streamOffset == old(streamOffset + buffI - checkpoint) + k
        case OutOfData =>
          r == NoData && steps == old(steps) && derailed == old(derailed) && streamOffset == old(streamOffset)
        case Failed(e, at) =>
          && r == Raise(e) && steps == old(steps) && derailed && streamOffset == old(streamOffset)
          && buffer == old(buffer) && buffI == old(buffI) + at
    {
      hide Decode, Trace;
      ghost var s, start, base := buffer[buffI..], buffI, streamOffset;
      r := UnpackValue();
      if r.Raise? {
        derailed := true;
        return;
      }
      assert fed[streamOffset..][buffI - checkpoint..] == buffer[buffI..];
      assert r.Return? && !derailed ==> fed[streamOffset..] == s;
      Consume();
      if r.Return? {
        assert fed[streamOffset..] == buffer[buffI..];
        Completed(Got(r.v), buffI - start);
      }
    }

    /** `skip`. */
    method SkipNext() returns (r: Outcome<()>)
      requires Valid()
      modifies this
      ensures Valid() && fed == old(fed)
      ensures
        match Skip(old(buffer[buffI..]), lim)
        case Done(_, k) =>
          && r == Return(()) && steps == old(steps) + [Skipped] && derailed == old(derailed)
          && streamOffset == old(streamOffset + buffI - checkpoint) + k
        case OutOfData =>
          r == NoData && steps == old(steps) && derailed == old(derailed) && streamOffset == old(streamOffset)
        case Failed(e, at) =>
          && r == Raise(e) && steps == old(steps) && derailed && streamOffset == old(streamOffset)
          && buffer == old(buffer) && buffI == old(buffI) + at
    {
      hide Skip, Trace;
      ghost var s, start := buffer[buffI..], buffI;
      r := SkipValue();
      if r.Raise? {
        derailed := true;
        return;
      }
      if r.NoData? {
        return;
      }
      assert fed[streamOffset..][buffI - checkpoint..] == buffer[buffI..];
      assert !derailed ==> fed[streamOffset..] == s;
      ghost var base := streamOffset;
      Consume();
      assert fed[streamOffset..] == buffer[buffI..];
      assert !derailed ==> fed[base..] == s && base == streamOffset - (buffI - start);
      assert r.v == ();
      Completed(Skipped, buffI - start);
    }

    /** `tell`: the bytes of all completed calls, skipped or yielded. */
    method Tell() returns (offset: nat)
      requires Valid()
      ensures offset == streamOffset
      ensures !derailed ==> Trace(fed, steps, offset, lim)
    {
      offset := streamOffset;
    }
  }

  /** `unpackb`. */
  method UnpackBytes(packed: seq<byte>) returns (r: Unpacked)
    ensures r == UnpackB(packed)
  {
    hide Decode, Trace;
    var unpacker := new Unpacker(|packed|);
    var accepted := unpacker.Feed(packed);
    assert unpacker.buffer[unpacker.buffI..] == packed;
    var v := unpacker.UnpackValue();
    match v {
      case NoData => r := Err(Incomplete);
      case Raise(e) => r := Err(e);
      case Return(value) => r := if unpacker.buffI < |unpacker.buffer| then Err(UnpackError.ExtraData) else Ok(value);
    }
  }

  /** The end of a run over some chunks: all read, stopped by an error, or by a chunk that did not fit. */
  datatype Run = Run(values: seq<Value>, error: Option<UnpackError>, tell: nat, full: bool)

  /** The chunk exceeds the buffer together with what was unread before it, and no error came first. */
  ghost predicate Stuck(chunks: seq<seq<byte>>, i: nat, maxBufferSize: nat)
    requires i < |chunks|
  {
    var read := Flatten(chunks[..i]);
    var d := Drain(read, DefaultLimits(maxBufferSize));
    d.error == None && |read| - d.used + |chunks[i]| > if maxBufferSize == 0 then 0x7FFF_FFFF else maxBufferSize
  }

  /** The run ended at the first such chunk, with what the chunks before it hold. */
  ghost predicate StopsAt(chunks: seq<seq<byte>>, i: nat, maxBufferSize: nat, run: Run)
    requires i < |chunks|
  {
    && Stuck(chunks, i, maxBufferSize) && (forall j :: 0 <= j < i ==> !Stuck(chunks, j, maxBufferSize))
    && Drain(Flatten(chunks[..i]), DefaultLimits(maxBufferSize)) == Drained(run.values, run.tell, None)
  }

  lemma IsStuck(chunks: seq<seq<byte>>, i: nat, maxBufferSize: nat, d: Drained)
    requires i < |chunks| && Drain(Flatten(chunks[..i]), DefaultLimits(maxBufferSize)) == d && d.error == None
    ensures Stuck(chunks, i, maxBufferSize) <==>
      |Flatten(chunks[..i])| - d.used + |chunks[i]| > if maxBufferSize == 0 then 0x7FFF_FFFF else maxBufferSize
  {
  }

  /** Behind an error nothing is fed any more. */
  lemma NotStuckBehind(chunks: seq<seq<byte>>, i: nat, maxBufferSize: nat)
    requires i <= |chunks| && Drain(Flatten(chunks[..i]), DefaultLimits(maxBufferSize)).error.Some?
    ensures forall j :: i <= j < |chunks| ==> !Stuck(chunks, j, maxBufferSize)
  {
    forall j | i <= j < |chunks| ensures !Stuck(chunks, j, maxBufferSize) {
      assert chunks[..j][..i] == chunks[..i];
      FlattenPrefix(chunks[..j], i);
      ErrorStays(Flatten(chunks[..i]), Flatten(chunks[..j]), DefaultLimits(maxBufferSize));
    }
  }

  lemma DrainFails(s: seq<byte>, lim: Limits)
    requires Decode(s, lim).Failed?
    ensures Drain(s, lim) == Drained([], 0, Some(Decode(s, lim).error))
  {
  }

  lemma DrainStops(s: seq<byte>, lim: Limits)
    requires Decode(s, lim) == OutOfData
    ensures Drain(s, lim) == Drained([], 0, None)
  {
  }

  /**
    The streaming loop of the class documentation: feed a chunk, iterate, feed the next. However the bytes are
    cut into chunks, it yields what the uncut stream holds, stops at the same error, and `tell` is the number of
    bytes of the values.
  */
  method ReadChunks(chunks: seq<seq<byte>>, maxBufferSize: nat) returns (run: Run)
    ensures run.full <==> exists i :: 0 <= i < |chunks| && Stuck(chunks, i, maxBufferSize)
    ensures run.full ==> exists i :: 0 <= i < |chunks| && StopsAt(chunks, i, maxBufferSize, run)
    ensures !run.full ==>
      var d := Drain(Flatten(chunks), DefaultLimits(maxBufferSize));
      run.values == d.values && run.error == d.error && run.tell == d.used
  {
    hide Decode, Trace, StepAt, Stuck, Drain;
    var unpacker := new Unpacker(maxBufferSize);
    var lim := unpacker.lim;
    var values := [];
    var i := 0;
    DrainEmpty(lim);
    while i < |chunks|
      invariant i <= |chunks| && fresh(unpacker) && unpacker.Valid() && unpacker.lim == lim
      invariant unpacker.fed == Flatten(chunks[..i]) && !unpacker.derailed
      invariant Skipped !in unpacker.steps && values == Values(unpacker.steps)
      invariant Drain(unpacker.fed[unpacker.streamOffset..], lim) == Drained([], 0, None)
      invariant forall j :: 0 <= j < i ==> !Stuck(chunks, j, maxBufferSize)
    {
      assert chunks[..i + 1][..i] == chunks[..i];
      TraceDrains(unpacker.fed, unpacker.steps, unpacker.streamOffset, lim);
      IsStuck(chunks, i, maxBufferSize, Drained(values, unpacker.streamOffset, None));
      var accepted := unpacker.Feed(chunks[i]);
      if !accepted {
        run := Run(values, None, unpacker.streamOffset, true);
        assert StopsAt(chunks, i, maxBufferSize, run);
        return;
      }
      i := i + 1;
      var more := true;
      while more
        invariant fresh(unpacker) && unpacker.Valid() && unpacker.lim == lim
        invariant unpacker.fed == Flatten(chunks[..i]) && !unpacker.derailed
        invariant Skipped !in unpacker.steps && values == Values(unpacker.steps)
        invariant !more ==> Drain(unpacker.fed[unpacker.streamOffset..], lim) == Drained([], 0, None)
        decreases |unpacker.fed| - unpacker.streamOffset, more
      {
        ghost var before, front := unpacker.steps, unpacker.fed[unpacker.streamOffset..];
        TraceDrains(unpacker.fed, before, unpacker.streamOffset, lim);
        var v := unpacker.Next();
        match v {
          case Return(value) =>
            ValuesAppend(before, Got(value));
            values := values + [value];
          case NoData =>
            DrainStops(front, lim);
            more := false;
          case Raise(e) =>
            DrainFails(front, lim);
            FlattenPrefix(chunks, i);
            ErrorStays(unpacker.fed, Flatten(chunks), lim);
            NotStuckBehind(chunks, i, maxBufferSize);
            return Run(values, Some(e), unpacker.streamOffset, false);
        }
      }
    }
    assert chunks[..i] == chunks;
    TraceDrains(unpacker.fed, unpacker.steps, unpacker.streamOffset, lim);
    run := Run(values, None, unpacker.streamOffset, false);
  }
}
