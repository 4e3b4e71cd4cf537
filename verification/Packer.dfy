/** The streaming packer: it appends to a buffer, and starts over when a value cannot be packed. */
module MsgPackPacker {
  import opened Basics
  import opened Bytes
  import opened MsgPackValue
  import opened MsgPackFormat
  import T = MsgPackTimestamp

  datatype Packed = Returned(bytes: seq<byte>) | Buffered | Raised(error: PackError)

  class Packer {
    var buffer: seq<byte>
    const autoreset: bool

    constructor (autoreset: bool)
      ensures buffer == [] && this.autoreset == autoreset
    {
      buffer := [];
      this.autoreset := autoreset;
    }

    method Write(data: seq<byte>)
      modifies this
      ensures buffer == old(buffer) + data
    {
      buffer := buffer + data;
    }

    method PackInt(i: int) returns (error: Option<PackError>)
      modifies this
      ensures error == if IntFits(i) then None else Some(IntegerOverflow)
      ensures buffer == old(buffer) + (if IntFits(i) then EncodeInt(i) else [])
    {
      error := None;
      if 0 <= i < 0x80 { Write(BigEndian(i, 1)); return; }
      if -0x20 <= i < 0 { Write(BigEndian(i, 1)); return; }
      if 0x80 <= i <= 0xFF { Write([0xCC] + BigEndian(i, 1)); return; }
      if -0x80 <= i < 0 { Write([0xD0] + BigEndian(i, 1)); return; }
      if 0xFF < i <= 0xFFFF { Write([0xCD] + BigEndian(i, 2)); return; }
      if -0x8000 <= i < -0x80 { Write([0xD1] + BigEndian(i, 2)); return; }
      if 0xFFFF < i <= 0xFFFF_FFFF { Write([0xCE] + BigEndian(i, 4)); return; }
      if -0x8000_0000 <= i < -0x8000 { Write([0xD2] + BigEndian(i, 4)); return; }
      if 0xFFFF_FFFF < i <= 0xFFFF_FFFF_FFFF_FFFF { Write([0xCF] + BigEndian(i, 8)); return; }
      if -0x8000_0000_0000_0000 <= i < -0x8000_0000 { Write([0xD3] + BigEndian(i, 8)); return; }
      error := Some(IntegerOverflow);
      assert buffer == buffer + [];
    }

    method PackExt(code: int, data: seq<byte>) returns (error: Option<PackError>)
      requires -1 <= code <= 127
      modifies this
      ensures error == if LengthFits(|data|) then None else Some(StructRange)
      ensures error == None ==> buffer == old(buffer) + (ExtHeader(|data|, code) + data)
    {
      var n := |data|;
      if n == 1 { Write([0xD4]); }
      else if n == 2 { Write([0xD5]); }
      else if n == 4 { Write([0xD6]); }
      else if n == 8 { Write([0xD7]); }
      else if n == 16 { Write([0xD8]); }
      else if n <= 0xFF { Write([0xC7] + BigEndian(n, 1)); }
      else if n <= 0xFFFF { Write([0xC8] + BigEndian(n, 2)); }
      else if n <= 0xFFFF_FFFF { Write([0xC9] + BigEndian(n, 4)); }
      else { return Some(StructRange); }
      ghost var header := buffer;
      Write(BigEndian(code, 1));
      Write(data);
      error := None;
      assert buffer == old(buffer) + (ExtHeader(n, code) + data);
    }

    method PackArrayHeader(n: nat) returns (error: Option<PackError>)
      modifies this
      ensures error == if LengthFits(n) then None else Some(TooLarge)
      ensures error == None ==> buffer == old(buffer) + ArrayHeader(n)
    {
      error := None;
      if n <= 0x0F { Write([0x90 + n]); return; }
      if n <= 0xFFFF { Write([0xDC] + BigEndian(n, 2)); return; }
      if n <= 0xFFFF_FFFF { Write([0xDD] + BigEndian(n, 4)); return; }
      error := Some(TooLarge);
    }

    method PackDictHeader(n: nat) returns (error: Option<PackError>)
      modifies this
      ensures error == if LengthFits(n) then None else Some(TooLarge)
      ensures error == None ==> buffer == old(buffer) + DictHeader(n)
    {
      error := None;
      if n <= 0x0F { Write([0x80 + n]); return; }
      if n <= 0xFFFF { Write([0xDE] + BigEndian(n, 2)); return; }
      if n <= 0xFFFF_FFFF { Write([0xDF] + BigEndian(n, 4)); return; }
      error := Some(TooLarge);
    }

    method PackRaw(data: seq<byte>) returns (error: Option<PackError>)
      modifies this
      ensures error == if LengthFits(|data|) then None else Some(TooLarge)
      ensures error == None ==> buffer == old(buffer) + (RawHeader(|data|) + data)
    {
      var n := |data|;
      if n >= 0x1_0000_0000 { return Some(TooLarge); }
      if n <= 0x1F { Write([0xA0 + n]); }
      else if n <= 0xFF { Write([0xD9] + BigEndian(n, 1)); }
      else if n <= 0xFFFF { Write([0xDA] + BigEndian(n, 2)); }
      else { Write([0xDB] + BigEndian(n, 4)); }
      Write(data);
      error := None;
      assert buffer == old(buffer) + (RawHeader(n) + data);
    }

    method PackBin(data: seq<byte>) returns (error: Option<PackError>)
      modifies this
      ensures error == if LengthFits(|data|) then None else Some(TooLarge)
      ensures error == None ==> buffer == old(buffer) + (BinHeader(|data|) + data)
    {
      var n := |data|;
      if n >= 0x1_0000_0000 { return Some(TooLarge); }
      if n <= 0xFF { Write([0xC4] + BigEndian(n, 1)); }
      else if n <= 0xFFFF { Write([0xC5] + BigEndian(n, 2)); }
      else { Write([0xC6] + BigEndian(n, 4)); }
      Write(data);
      error := None;
      assert buffer == old(buffer) + (BinHeader(n) + data);
    }

    /** `_pack`: appends the encoding, or stops at the first error with whatever it has written so far. */
    method PackValue(v: Value, nest: int) returns (error: Option<PackError>)
      requires WellFormed(v)
      modifies this
      ensures error == PackCheck(v, nest)
      ensures error == None ==> buffer == old(buffer) + Encode(v)
      decreases v
    {
      hide EncodeInt, ExtHeader, RawHeader, BinHeader, ArrayHeader, DictHeader, T.ToBytes, BigEndian;
      if nest < 0 { return Some(RecursionLimit); }
      match v {
        case Nil => Write([0xC0]); error := None;
        case Bool(b) => Write([if b then 0xC3 else 0xC2]); error := None;
        case Int(i) => error := PackInt(i);
        case Float(bits) => Write([0xCB] + bits); error := None;
        case Str(utf8) => error := PackRaw(utf8);
        case Bin(data) => error := PackBin(data);
        case Ext(code, payload) => error := PackExt(code, payload);
        case Timestamp(seconds, nanoseconds) =>
          if !T.SecondsFit(seconds) { return Some(StructRange); }
          T.PayloadIsShort(seconds, nanoseconds);
          error := PackExt(-1, T.ToBytes(seconds, nanoseconds));
        case Array(items) =>
          error := PackArrayHeader(|items|);
          if error == None {
            error := PackItems(items, nest - 1);
            assert error == None ==> buffer == old(buffer) + (ArrayHeader(|items|) + EncodeItems(items));
          }
        case Dict(entries) =>
          error := PackDictHeader(|entries|);
          if error == None {
            error := PackEntries(entries, nest - 2);
            assert error == None ==> buffer == old(buffer) + (DictHeader(|entries|) + EncodeEntries(entries));
          }
      }
    }

    /** The loop over a list. */
    method PackItems(items: seq<Value>, nest: int) returns (error: Option<PackError>)
      requires forall i :: 0 <= i < |items| ==> WellFormed(items[i])
      modifies this
      ensures error == CheckItems(items, nest)
      ensures error == None ==> buffer == old(buffer) + EncodeItems(items)
      decreases items
    {
      hide Encode, PackCheck;
      var i := 0;
      while i < |items|
        invariant i <= |items|
        invariant CheckItems(items[i..], nest) == CheckItems(items, nest)
        invariant buffer + EncodeItems(items[i..]) == old(buffer) + EncodeItems(items)
      {
        assert items[i..][0] == items[i] && items[i..][1..] == items[i + 1..];
        error := PackValue(items[i], nest);
        if error != None { return; }
        i := i + 1;
      }
      assert items[i..] == [];
      error := None;
    }

    /** The loop over the items of a dict. */
    method PackEntries(entries: seq<Entry>, nest: int) returns (error: Option<PackError>)
      requires forall i :: 0 <= i < |entries| ==> WellFormed(entries[i].key) && WellFormed(entries[i].value)
      modifies this
      ensures error == CheckEntries(entries, nest)
      ensures error == None ==> buffer == old(buffer) + EncodeEntries(entries)
      decreases entries
    {
      hide Encode, PackCheck;
      var i := 0;
      while i < |entries|
        invariant i <= |entries|
        invariant CheckEntries(entries[i..], nest) == CheckEntries(entries, nest)
        invariant buffer + EncodeEntries(entries[i..]) == old(buffer) + EncodeEntries(entries)
      {
        var Entry(key, value) := entries[i];
        assert key < entries[i] && value < entries[i];
        assert entries[i..][0] == entries[i] && entries[i..][1..] == entries[i + 1..];
        error := PackValue(key, nest);
        if error != None { return; }
        error := PackValue(value, nest);
        if error != None { return; }
        i := i + 1;
      }
      assert entries[i..] == [];
      error := None;
    }

    /**
      `pack`: all of the encoding or nothing. After an error the buffer is that of a fresh packer, also when it
      held earlier values.
    */
    method Pack(v: Value) returns (r: Packed)
      requires WellFormed(v)
      modifies this
      ensures !Packable(v) ==> r == Raised(PackCheck(v, RECURSE_LIMIT).value) && buffer == []
      ensures Packable(v) && autoreset ==> r == Returned(old(buffer) + Encode(v)) && buffer == []
      ensures Packable(v) && !autoreset ==> r == Buffered && buffer == old(buffer) + Encode(v)
    {
      hide Encode, PackCheck;
      var error := PackValue(v, RECURSE_LIMIT);
      if error.Some? {
        buffer := [];
        return Raised(error.value);
      }
      if autoreset {
        r := Returned(buffer);
        buffer := [];
      } else {
        r := Buffered;
      }
    }
  }
}
