/** Blend trees: which clips an animation state plays, and in which shares. */
module BlendTrees {
  datatype Parameter = Float(value: real) | Flag(on: bool) | Trigger

  type Parameters = map<string, Parameter>

  datatype Entry = Entry(threshold: real, clip: nat)

  datatype BlendTree = Single(clip: nat) | Blend1D(parameter: string, entries: seq<Entry>)

  datatype Share = Share(clip: nat, weight: real)

  function Clips(tree: BlendTree): seq<nat> {
    match tree
    case Single(c) => [c]
    case Blend1D(_, entries) => seq(|entries|, k requires 0 <= k < |entries| => entries[k].clip)
  }

  function ValueOf(parameter: string, params: Parameters): real {
    if parameter in params && params[parameter].Float? then params[parameter].value else 0.0
  }

  /** The first neighbours from `i` on with the value between them; the last entry when there are none. */
  function Segment(entries: seq<Entry>, value: real, i: nat): (k: nat)
    requires i < |entries|
    ensures i <= k < |entries|
    decreases |entries| - i
  {
    if i == |entries| - 1 || entries[i].threshold <= value <= entries[i + 1].threshold then i
    else Segment(entries, value, i + 1)
  }

  function Position(a: Entry, b: Entry, value: real): real {
    if b.threshold > a.threshold then (value - a.threshold) / (b.threshold - a.threshold) else 0.0
  }

  function Evaluate(tree: BlendTree, params: Parameters): seq<Share> {
    match tree
    case Single(c) => [Share(c, 1.0)]
    case Blend1D(parameter, entries) =>
      var value := ValueOf(parameter, params);
      var last := |entries| - 1;
      if entries == [] then []
      else if |entries| == 1 || value <= entries[0].threshold then [Share(entries[0].clip, 1.0)]
      else if value >= entries[last].threshold then [Share(entries[last].clip, 1.0)]
      else
        var k := Segment(entries, value, 0);
        if k < last then
          var t := Position(entries[k], entries[k + 1], value);
          [Share(entries[k].clip, 1.0 - t), Share(entries[k + 1].clip, t)]
        else [Share(entries[last].clip, 1.0)]
  }

  predicate IsEmpty(tree: BlendTree) {
    tree.Blend1D? && tree.entries == []
  }

  function Total(shares: seq<Share>): real {
    if shares == [] then 0.0 else Total(shares[..|shares| - 1]) + shares[|shares| - 1].weight
  }

  lemma TotalOfTwo(a: Share, b: Share)
    ensures Total([a, b]) == a.weight + b.weight
  {
    assert Total([a]) == a.weight by {
      assert [a][..0] == [];
    }
    assert [a, b][..1] == [a];
  }

  lemma PositionInterpolates(a: Entry, b: Entry, value: real)
    requires a.threshold <= value <= b.threshold
    ensures 0.0 <= Position(a, b, value) <= 1.0
    ensures (1.0 - Position(a, b, value)) * a.threshold + Position(a, b, value) * b.threshold == value
  {
    var w := b.threshold - a.threshold;
    var t := Position(a, b, value);
    if w > 0.0 {
      assert t * w == value - a.threshold;
    }
    assert (1.0 - t) * a.threshold + t * b.threshold == a.threshold + t * w;
  }

  /** The shares of every tree that has entries are not negative and add up to one; they go to clips of the tree. */
  lemma SharesAddUp(tree: BlendTree, params: Parameters)
    ensures Total(Evaluate(tree, params)) == if IsEmpty(tree) then 0.0 else 1.0
    ensures forall s :: s in Evaluate(tree, params) ==> 0.0 <= s.weight <= 1.0 && s.clip in Clips(tree)
  {
    var shares := Evaluate(tree, params);
    if tree.Blend1D? && tree.entries != [] {
      var entries, value := tree.entries, ValueOf(tree.parameter, params);
      var k := Segment(entries, value, 0);
      assert forall i :: 0 <= i < |entries| ==> Clips(tree)[i] == entries[i].clip;
      if |shares| == 2 {
        SegmentHolds(entries, value, 0);
        PositionInterpolates(entries[k], entries[k + 1], value);
        TotalOfTwo(shares[0], shares[1]);
        assert shares == [shares[0], shares[1]];
      }
    }
  }

  /** Whatever the order of the thresholds, a value between the first and the last lies between two neighbours. */
  lemma {:induction false} SegmentHolds(entries: seq<Entry>, value: real, i: nat)
    requires i < |entries|
    ensures var k := Segment(entries, value, i);
      k < |entries| - 1 ==> entries[k].threshold <= value <= entries[k + 1].threshold
    ensures entries[i].threshold < value < entries[|entries| - 1].threshold ==> Segment(entries, value, i) < |entries| - 1
    decreases |entries| - i
  {
    if i < |entries| - 1 {
      SegmentHolds(entries, value, i + 1);
    }
  }

  /** What a tree reads: the number under its parameter, or zero when there is none. */
  predicate Reads(parameter: string, params: Parameters, v: real) {
    if parameter in params && params[parameter].Float? then params[parameter] == Float(v) else v == 0.0
  }

  /** Outside the range the nearer end is played alone; the first end wins when the ends are the wrong way round. */
  lemma EndsAreHeld(tree: BlendTree, params: Parameters, v: real)
    requires tree.Blend1D? && tree.entries != [] && Reads(tree.parameter, params, v)
    ensures v <= tree.entries[0].threshold ==> Evaluate(tree, params) == [Share(tree.entries[0].clip, 1.0)]
    ensures
      var last := tree.entries[|tree.entries| - 1];
      v > tree.entries[0].threshold && v >= last.threshold ==> Evaluate(tree, params) == [Share(last.clip, 1.0)]
  {
  }

  /** The value lies between entries `k` and `k + 1`. */
  predicate Between(entries: seq<Entry>, k: nat, v: real) {
    k + 1 < |entries| && entries[k].threshold <= v <= entries[k + 1].threshold
  }

  lemma {:induction false} SegmentIsFirst(entries: seq<Entry>, value: real, i: nat)
    requires i < |entries|
    ensures forall j :: i <= j < Segment(entries, value, i) ==> !Between(entries, j, value)
    decreases |entries| - i
  {
    if i < |entries| - 1 {
      SegmentIsFirst(entries, value, i + 1);
    }
  }

  /** Inside the range, the first two neighbours around the value are mixed so that their thresholds average to it. */
  lemma BlendMeetsValue(tree: BlendTree, params: Parameters, v: real) returns (k: nat, t: real)
    requires tree.Blend1D? && tree.entries != [] && Reads(tree.parameter, params, v)
    requires tree.entries[0].threshold < v < tree.entries[|tree.entries| - 1].threshold
    ensures Between(tree.entries, k, v) && (forall j :: 0 <= j < k ==> !Between(tree.entries, j, v)) && 0.0 <= t <= 1.0
    ensures Evaluate(tree, params) == [Share(tree.entries[k].clip, 1.0 - t), Share(tree.entries[k + 1].clip, t)]
    ensures (1.0 - t) * tree.entries[k].threshold + t * tree.entries[k + 1].threshold == v
    ensures tree.entries[k].threshold == tree.entries[k + 1].threshold ==> t == 0.0
  {
    k := Segment(tree.entries, v, 0);
    SegmentHolds(tree.entries, v, 0);
    SegmentIsFirst(tree.entries, v, 0);
    t := Position(tree.entries[k], tree.entries[k + 1], v);
    PositionInterpolates(tree.entries[k], tree.entries[k + 1], v);
  }
}
