/** Merging of the parts that name the same clip. */
module ClipMerge {
  datatype ActiveAnimation = ActiveAnimation(clip: nat, weight: real, time: real)

  function Moment(a: ActiveAnimation): real {
    a.time * a.weight
  }

  function WeightOf(parts: seq<ActiveAnimation>, c: nat): real {
    if parts == [] then 0.0 else
      var a := parts[|parts| - 1];
      WeightOf(parts[..|parts| - 1], c) + (if a.clip == c then a.weight else 0.0)
  }

  function MomentOf(parts: seq<ActiveAnimation>, c: nat): real {
    if parts == [] then 0.0 else
      var a := parts[|parts| - 1];
      MomentOf(parts[..|parts| - 1], c) + (if a.clip == c then Moment(a) else 0.0)
  }

  function TotalWeight(parts: seq<ActiveAnimation>): real {
    if parts == [] then 0.0 else TotalWeight(parts[..|parts| - 1]) + parts[|parts| - 1].weight
  }

  ghost predicate NonNegative(parts: seq<ActiveAnimation>) {
    forall a :: a in parts ==> a.weight >= 0.0
  }

  ghost predicate Averages(parts: seq<ActiveAnimation>, a: ActiveAnimation) {
    a.weight > 0.0 && a.weight == WeightOf(parts, a.clip) && a.time == MomentOf(parts, a.clip) / a.weight
  }

  /** One entry, in any order, for every clip with some weight: its whole weight, and the average of its times. */
  ghost predicate Merges(parts: seq<ActiveAnimation>, merged: seq<ActiveAnimation>) {
    && (forall i, j :: 0 <= i < j < |merged| ==> merged[i].clip != merged[j].clip)
    && (forall a :: a in merged ==> Averages(parts, a))
    && (forall c :: WeightOf(parts, c) > 0.0 ==> exists a :: a in merged && a.clip == c)
  }

  method MergeClips(parts: seq<ActiveAnimation>) returns (merged: seq<ActiveAnimation>)
    ensures Merges(parts, merged)
  {
    hide WeightOf, MomentOf, Moment;
    SumsOfNone();
    var sums: map<nat, (real, real)> := map[];
    for i := 0 to |parts|
      invariant forall c :: c in sums ==> sums[c] == (WeightOf(parts[..i], c), MomentOf(parts[..i], c))
      invariant forall c :: c !in sums ==> WeightOf(parts[..i], c) == 0.0 && MomentOf(parts[..i], c) == 0.0
    {
      var a := parts[i];
      var entry := if a.clip in sums then sums[a.clip] else (0.0, 0.0);
      sums := sums[a.clip := (entry.0 + a.weight, entry.1 + Moment(a))];
      forall c
        ensures WeightOf(parts[..i + 1], c) == WeightOf(parts[..i], c) + (if a.clip == c then a.weight else 0.0)
        ensures MomentOf(parts[..i + 1], c) == MomentOf(parts[..i], c) + (if a.clip == c then Moment(a) else 0.0)
      {
        Push(parts[..i], a, c);
        assert parts[..i + 1] == parts[..i] + [a];
      }
    }
    assert parts[..|parts|] == parts;
    merged := [];
    var left := sums.Keys;
    while left != {}
      invariant left <= sums.Keys
      invariant forall i, j :: 0 <= i < j < |merged| ==> merged[i].clip != merged[j].clip
      invariant forall a :: a in merged ==> a.clip !in left && Averages(parts, a)
      invariant forall c :: c in sums && c !in left && sums[c].0 > 0.0 ==> exists a :: a in merged && a.clip == c
    {
      var c :| c in left;
      left := left - {c};
      if sums[c].0 > 0.0 {
        var a := ActiveAnimation(c, sums[c].0, sums[c].1 / sums[c].0);
        ghost var before := merged;
        merged := merged + [a];
        assert a in merged && forall b :: b in before ==> b in merged;
      }
    }
  }

  lemma SumsOfNone()
    ensures TotalWeight([]) == 0.0 && forall c :: WeightOf([], c) == 0.0 && MomentOf([], c) == 0.0
  {
  }

  lemma Push(front: seq<ActiveAnimation>, a: ActiveAnimation, c: nat)
    ensures WeightOf(front + [a], c) == WeightOf(front, c) + (if a.clip == c then a.weight else 0.0)
    ensures MomentOf(front + [a], c) == MomentOf(front, c) + (if a.clip == c then Moment(a) else 0.0)
    ensures TotalWeight(front + [a]) == TotalWeight(front) + a.weight
  {
    hide Moment;
    assert (front + [a])[..|front|] == front;
  }

  // ---------------------------------------------------------------------------------------------
  // Nothing is lost
  // ---------------------------------------------------------------------------------------------

  function Without(parts: seq<ActiveAnimation>, c: nat): seq<ActiveAnimation> {
    if parts == [] then [] else
      var a := parts[|parts| - 1];
      Without(parts[..|parts| - 1], c) + (if a.clip == c then [] else [a])
  }

  lemma {:induction false} WithoutWeights(parts: seq<ActiveAnimation>, c: nat, d: nat)
    ensures TotalWeight(parts) == WeightOf(parts, c) + TotalWeight(Without(parts, c))
    ensures c != d ==>
      WeightOf(Without(parts, c), d) == WeightOf(parts, d) && MomentOf(Without(parts, c), d) == MomentOf(parts, d)
    ensures WeightOf(Without(parts, c), c) == 0.0
  {
    hide Moment, WeightOf, MomentOf, TotalWeight;
    SumsOfNone();
    if parts != [] {
      var n := |parts| - 1;
      var front, a := parts[..n], parts[n];
      var rest := Without(front, c);
      WithoutWeights(front, c, d);
      assert parts == front + [a] && rest + [] == rest;
      Push(front, a, c);
      Push(front, a, d);
      Push(rest, a, c);
      Push(rest, a, d);
    }
  }

  lemma {:induction false} WithoutIsPart(parts: seq<ActiveAnimation>, c: nat)
    ensures forall a :: a in Without(parts, c) ==> a in parts
  {
    if parts != [] {
      WithoutIsPart(parts[..|parts| - 1], c);
    }
  }

  lemma {:induction false} PartOfWeight(parts: seq<ActiveAnimation>, c: nat)
    requires NonNegative(parts)
    ensures WeightOf(parts, c) >= 0.0
    ensures forall a :: a in parts && a.clip == c ==> a.weight <= WeightOf(parts, c)
  {
    if parts != [] {
      PartOfWeight(parts[..|parts| - 1], c);
    }
  }

  lemma {:induction false} NoWeight(parts: seq<ActiveAnimation>)
    requires forall a :: a in parts ==> a.weight == 0.0
    ensures TotalWeight(parts) == 0.0
  {
    if parts != [] {
      NoWeight(parts[..|parts| - 1]);
    }
  }

  /** Merging keeps the total weight. */
  lemma {:induction false} MergeKeepsTotal(parts: seq<ActiveAnimation>, merged: seq<ActiveAnimation>)
    requires NonNegative(parts) && Merges(parts, merged)
    ensures TotalWeight(merged) == TotalWeight(parts)
    decreases |merged|
  {
    if merged == [] {
      forall a | a in parts
        ensures a.weight == 0.0
      {
        PartOfWeight(parts, a.clip);
      }
      NoWeight(parts);
    } else {
      hide WeightOf, MomentOf, Without, Merges;
      var n := |merged| - 1;
      var c := merged[n].clip;
      var others := Without(parts, c);
      forall d
        ensures d != c ==> WeightOf(others, d) == WeightOf(parts, d) && MomentOf(others, d) == MomentOf(parts, d)
        ensures WeightOf(others, c) == 0.0 && TotalWeight(parts) == WeightOf(parts, c) + TotalWeight(others)
      {
        WithoutWeights(parts, c, d);
      }
      WithoutIsPart(parts, c);
      FrontMerges(parts, others, merged, c);
      MergeKeepsTotal(others, merged[..n]);
    }
  }

  lemma FrontMerges(parts: seq<ActiveAnimation>, others: seq<ActiveAnimation>, merged: seq<ActiveAnimation>, c: nat)
    requires merged != [] && Merges(parts, merged) && c == merged[|merged| - 1].clip && WeightOf(others, c) == 0.0
    requires forall d :: d != c ==> WeightOf(others, d) == WeightOf(parts, d) && MomentOf(others, d) == MomentOf(parts, d)
    ensures Merges(others, merged[..|merged| - 1]) && merged[|merged| - 1].weight == WeightOf(parts, c)
  {
    hide WeightOf, MomentOf;
    var front := merged[..|merged| - 1];
    assert merged[|merged| - 1] in merged;
    forall a | a in front
      ensures a in merged && a.clip != c
    {
      var i :| 0 <= i < |front| && front[i] == a;
      assert merged[i] == a;
    }
    forall d | WeightOf(others, d) > 0.0
      ensures exists a :: a in front && a.clip == d
    {
      var a :| a in merged && a.clip == d;
      var i :| 0 <= i < |merged| && merged[i] == a;
      assert front[i] == a;
    }
  }

  // ---------------------------------------------------------------------------------------------
  // Times are averaged
  // ---------------------------------------------------------------------------------------------

  /** Adding a part with weight `v` at `t` keeps a lower bound of all the parts. */
  lemma LowerBound(low: real, w: real, moment: real, t: real, v: real, next: real)
    requires low * w <= moment && next <= low && next <= t && w >= 0.0 && v >= 0.0
    ensures next * (w + v) <= moment + t * v
  {
    Monotone(next, low, w);
    Monotone(next, t, v);
  }

  lemma UpperBound(high: real, w: real, moment: real, t: real, v: real, next: real)
    requires moment <= high * w && high <= next && t <= next && w >= 0.0 && v >= 0.0
    ensures moment + t * v <= next * (w + v)
  {
    Monotone(high, next, w);
    Monotone(t, next, v);
  }

  lemma Monotone(x: real, y: real, w: real)
    requires x <= y && w >= 0.0
    ensures x * w <= y * w
  {
    assert (y - x) * w >= 0.0;
  }

  /** The average `moment / w` lies between `low` and `high`. */
  predicate Within(low: real, high: real, w: real, moment: real) {
    low * w <= moment <= high * w
  }

  lemma NextBounds(low: real, high: real, w: real, moment: real, a: ActiveAnimation)
    requires Within(low, high, w, moment) && w >= 0.0 && a.weight > 0.0
    ensures Within(if a.time < low then a.time else low, if a.time > high then a.time else high,
                   w + a.weight, moment + Moment(a))
  {
    LowerBound(low, w, moment, a.time, a.weight, if a.time < low then a.time else low);
    UpperBound(high, w, moment, a.time, a.weight, if a.time > high then a.time else high);
  }

  lemma AloneWithin(a: ActiveAnimation)
    ensures Within(a.time, a.time, a.weight, Moment(a))
  {
  }

  lemma Weightless(a: ActiveAnimation)
    requires a.weight == 0.0
    ensures Moment(a) == 0.0
  {
  }

  lemma {:induction false} MomentBounds(parts: seq<ActiveAnimation>, c: nat) returns (low: nat, high: nat)
    requires NonNegative(parts) && WeightOf(parts, c) > 0.0
    ensures low < |parts| && parts[low].clip == c && parts[low].weight > 0.0
    ensures high < |parts| && parts[high].clip == c && parts[high].weight > 0.0
    ensures Within(parts[low].time, parts[high].time, WeightOf(parts, c), MomentOf(parts, c))
  {
    hide WeightOf, MomentOf, Moment, Within;
    SumsOfNone();
    var n := |parts| - 1;
    var front, a := parts[..n], parts[n];
    assert parts == front + [a];
    Push(front, a, c);
    var w, moment := WeightOf(front, c), MomentOf(front, c);
    PartOfWeight(front, c);
    if w > 0.0 {
      low, high := MomentBounds(front, c);
      if a.clip == c && a.weight > 0.0 {
        NextBounds(parts[low].time, parts[high].time, w, moment, a);
        low, high := if a.time < parts[low].time then n else low, if a.time > parts[high].time then n else high;
      } else if a.clip == c {
        assert a in parts;
        Weightless(a);
      }
    } else {
      NoMoment(front, c);
      AloneWithin(a);
      low, high := n, n;
    }
  }

  lemma {:induction false} NoMoment(parts: seq<ActiveAnimation>, c: nat)
    requires NonNegative(parts) && WeightOf(parts, c) == 0.0
    ensures MomentOf(parts, c) == 0.0
  {
    if parts != [] {
      PartOfWeight(parts[..|parts| - 1], c);
      NoMoment(parts[..|parts| - 1], c);
    }
  }

  /** The time of a merged clip lies between the times of two of its parts that have weight. */
  lemma MergedTimeIsBetween(parts: seq<ActiveAnimation>, merged: seq<ActiveAnimation>, a: ActiveAnimation)
    returns (low: nat, high: nat)
    requires NonNegative(parts) && Merges(parts, merged) && a in merged
    ensures low < |parts| && parts[low].clip == a.clip && parts[low].weight > 0.0
    ensures high < |parts| && parts[high].clip == a.clip && parts[high].weight > 0.0
    ensures parts[low].time <= a.time <= parts[high].time
  {
    low, high := MomentBounds(parts, a.clip);
    Quotient(parts[low].time, MomentOf(parts, a.clip), parts[high].time, a.weight);
  }

  lemma Quotient(low: real, moment: real, high: real, w: real)
    requires w > 0.0 && low * w <= moment <= high * w
    ensures low <= moment / w <= high
  {
    var q := moment / w;
    assert q * w == moment;
    if q < low {
      Strict(q, low, w);
    }
    if high < q {
      Strict(high, q, w);
    }
  }

  lemma Strict(x: real, y: real, w: real)
    requires w > 0.0 && x < y
    ensures x * w < y * w
  {
    assert (y - x) * w > 0.0;
  }
}
