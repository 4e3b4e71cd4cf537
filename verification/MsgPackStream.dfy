/** What a whole stream of bytes holds, independent of how it arrives. */
module MsgPackStream {
  import opened Basics
  import opened Bytes
  import opened MsgPackValue
  import opened MsgPackFormat
  import P = MsgPackPrefix
  import R = MsgPackRoundTrip

  /** The values in front of a stream, the bytes that they take up, and the error behind them, if any. */
  datatype Drained = Drained(values: seq<Value>, used: nat, error: Option<UnpackError>)

  function Drain(s: seq<byte>, lim: Limits): (d: Drained)
    ensures d.used <= |s|
    decreases |s|
  {
    match Decode(s, lim)
    case OutOfData => Drained([], 0, None)
    case Failed(e, _) => Drained([], 0, Some(e))
    case Done(v, k) =>
      var d := Drain(s[k..], lim);
      Drained([v] + d.values, k + d.used, d.error)
  }

  lemma DrainEmpty(lim: Limits)
    ensures Drain([], lim) == Drained([], 0, None)
  {
  }

  /** An error, once reached, stays where it is. */
  lemma {:induction false} ErrorStays(s: seq<byte>, u: seq<byte>, lim: Limits)
    requires s <= u && Drain(s, lim).error.Some?
    ensures Drain(u, lim) == Drain(s, lim)
    decreases |s|
  {
    hide Decode;
    P.DecodeExtends(s, u, lim);
    var r := Decode(s, lim);
    if r.Done? {
      assert s[r.used..] <= u[r.used..];
      ErrorStays(s[r.used..], u[r.used..], lim);
    }
  }

  /** One completed call on a streaming unpacker. */
  datatype Step = Got(v: Value) | Skipped

  function StepAt(s: seq<byte>, step: Step, lim: Limits): Parse<()> {
    match step
    case Skipped => Skip(s, lim)
    case Got(v) =>
      match Decode(s, lim)
      case Done(v', k) => if v == v' then Done((), k) else OutOfData
      case _ => OutOfData
  }

  /** Reading `s` from the start, the steps succeed one behind the other and take up `used` bytes in all. */
  predicate Trace(s: seq<byte>, steps: seq<Step>, used: nat, lim: Limits)
    decreases |steps|
  {
    if steps == [] then used == 0 else
    match StepAt(s, steps[0], lim)
    case Done(_, k) => k <= used && k <= |s| && Trace(s[k..], steps[1..], used - k, lim)
    case _ => false
  }

  lemma StepExtends(s: seq<byte>, u: seq<byte>, step: Step, lim: Limits)
    requires s <= u && StepAt(s, step, lim).Done?
    ensures StepAt(u, step, lim) == StepAt(s, step, lim)
  {
    hide Decode, Skip;
    match step {
      case Skipped => P.SkipExtends(s, u, lim);
      case Got(_) => P.DecodeExtends(s, u, lim);
    }
  }

  /** Bytes that arrive later do not undo any step. */
  lemma {:induction false} TraceExtends(s: seq<byte>, u: seq<byte>, steps: seq<Step>, used: nat, lim: Limits)
    requires s <= u && Trace(s, steps, used, lim)
    ensures Trace(u, steps, used, lim)
    decreases |steps|
  {
    hide StepAt;
    if steps != [] {
      StepExtends(s, u, steps[0], lim);
      var k := StepAt(s, steps[0], lim).used;
      assert s[k..] <= u[k..];
      TraceExtends(s[k..], u[k..], steps[1..], used - k, lim);
    }
  }

  lemma {:induction false} TraceAppend(
    s: seq<byte>, steps: seq<Step>, used: nat, step: Step, k: nat, lim: Limits)
    requires Trace(s, steps, used, lim) && used <= |s|
    requires StepAt(s[used..], step, lim) == Done((), k) && used + k <= |s|
    ensures Trace(s, steps + [step], used + k, lim)
    decreases |steps|
  {
    hide StepAt;
    var all := steps + [step];
    if steps == [] {
      assert s[0..] == s && all[0] == step && all[1..] == [];
    } else {
      var j := StepAt(s, steps[0], lim).used;
      assert s[j..][used - j..] == s[used..];
      TraceAppend(s[j..], steps[1..], used - j, step, k, lim);
      assert all[0] == steps[0] && all[1..] == steps[1..] + [step];
    }
  }

  function Values(steps: seq<Step>): seq<Value>
    decreases |steps|
  {
    if steps == [] then [] else
      (if steps[0].Got? then [steps[0].v] else []) + Values(steps[1..])
  }

  /** Without skips, the steps are the first values of the stream. */
  lemma {:induction false} TraceDrains(s: seq<byte>, steps: seq<Step>, used: nat, lim: Limits)
    requires Trace(s, steps, used, lim) && used <= |s| && Skipped !in steps
    ensures
      var d, rest := Drain(s, lim), Drain(s[used..], lim);
      d == Drained(Values(steps) + rest.values, used + rest.used, rest.error)
    decreases |steps|
  {
    hide Decode, Skip;
    if steps == [] {
      assert s[0..] == s;
    } else {
      assert steps[0] in steps && steps[0].Got?;
      var k := StepAt(s, steps[0], lim).used;
      assert s[k..][used - k..] == s[used..];
      assert Skipped !in steps[1..];
      TraceDrains(s[k..], steps[1..], used - k, lim);
      var rest := Drain(s[used..], lim);
      assert Values(steps) + rest.values == [steps[0].v] + (Values(steps[1..]) + rest.values);
    }
  }

  lemma ValuesAppend(steps: seq<Step>, step: Step)
    ensures Values(steps + [step]) == Values(steps) + (if step.Got? then [step.v] else [])
    decreases |steps|
  {
    var all := steps + [step];
    if steps == [] {
      assert all[1..] == [];
    } else {
      assert all[0] == steps[0] && all[1..] == steps[1..] + [step];
      ValuesAppend(steps[1..], step);
    }
  }

  // ---------------------------------------------------------------------------------------------
  // Streams of packed values
  // ---------------------------------------------------------------------------------------------

  function EncodeAll(vs: seq<Value>): seq<byte> {
    if vs == [] then [] else Encode(vs[0]) + EncodeAll(vs[1..])
  }

  predicate Streamable(v: Value, lim: Limits) {
    WellFormed(v) && Packable(v) && TextKeys(v) && R.Fits(v, lim)
  }

  lemma DecodePacked(v: Value, s: seq<byte>, lim: Limits)
    requires Streamable(v, lim) && Encode(v) <= s
    ensures Decode(s, lim) == Done(v, |Encode(v)|)
  {
    hide Decode, Encode;
    R.DecodeEncode(v, RECURSE_LIMIT, s, lim);
  }

  /**
    A stream of packed values with an incomplete tail (any proper prefix of one more packed value, possibly
    empty) holds exactly those values, and ends in front of the tail.
  */
  lemma {:induction false} PackedStream(vs: seq<Value>, tail: seq<byte>, w: Value, lim: Limits)
    requires forall i :: 0 <= i < |vs| ==> Streamable(vs[i], lim)
    requires Streamable(w, lim) && tail < Encode(w)
    ensures Drain(EncodeAll(vs) + tail, lim) == Drained(vs, |EncodeAll(vs)|, None)
    decreases |vs|
  {
    hide Decode, Encode, Streamable;
    if vs == [] {
      DecodePacked(w, Encode(w), lim);
      assert EncodeAll(vs) + tail == Encode(w)[..|tail|];
      P.ProperPrefixIsIncomplete(Encode(w), |tail|, lim);
    } else {
      var s, k := EncodeAll(vs) + tail, |Encode(vs[0])|;
      assert s == Encode(vs[0]) + (EncodeAll(vs[1..]) + tail);
      assert s[k..] == EncodeAll(vs[1..]) + tail;
      DecodePacked(vs[0], s, lim);
      PackedStream(vs[1..], tail, w, lim);
    }
  }

  function Flatten(chunks: seq<seq<byte>>): seq<byte> {
    if chunks == [] then [] else Flatten(chunks[..|chunks| - 1]) + chunks[|chunks| - 1]
  }

  lemma FlattenPrefix(chunks: seq<seq<byte>>, i: nat)
    requires i <= |chunks|
    ensures Flatten(chunks[..i]) <= Flatten(chunks)
    decreases |chunks| - i
  {
    if i == |chunks| {
      assert chunks[..i] == chunks;
    } else {
      FlattenPrefix(chunks, i + 1);
      var front := chunks[..i + 1];
      assert front[..i] == chunks[..i];
      assert Flatten(front) == Flatten(front[..i]) + front[i];
    }
  }
}
