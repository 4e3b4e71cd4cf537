/** Playback of one clip and the markers it passes. */
module Animation {
  import opened Basics

  datatype Marker = Marker(time: real, name: string)

  datatype Clip = Clip(duration: real, markers: seq<Marker>)

  /** The fields of a player. */
  datatype Playback = Playback(clip: nat, time: real, speed: real, looping: bool, playing: bool, justEnded: bool)

  datatype MarkerEvent = MarkerEvent(clip: nat, marker: nat)

  datatype AnimationEvent =
    | StateChanged(from: string, to: string)
    | AnimationLoop(clip: nat)
    | AnimationEnd(clip: nat)

  /** The remainder that is never negative. */
  function RemEuclid(x: real, d: real): (r: real)
    requires d > 0.0
    ensures 0.0 <= r < d
  {
    FloorBounds(x, d);
    x - (x / d).Floor as real * d
  }

  /** How far the clock moves in `dt` seconds. */
  function Move(dt: real, speed: real): real {
    dt * speed
  }

  function Advanced(p: Playback, dt: real, duration: real): Playback {
    var t := p.time + Move(dt, p.speed);
    if !p.playing then p
    else if duration <= 0.0 then p.(time := 0.0, justEnded := false)
    else if p.looping then p.(time := RemEuclid(t, duration), justEnded := false)
    else if t > duration then p.(time := duration, playing := false, justEnded := true)
    else p.(time := t, justEnded := false)
  }

  predicate IsMultiple(x: real, d: real, k: int) {
    x == k as real * d
  }

  ghost predicate WholeMultiple(x: real, d: real) {
    exists k: int {:trigger IsMultiple(x, d, k)} :: IsMultiple(x, d, k)
  }

  /**
    One step, in every case: a looping clock stays within the clip and loses whole laps only, the clock of a clip that
    plays once moves on to the end at most and stops when it would get past it.
  */
  lemma StepMeets(p: Playback, dt: real, duration: real)
    ensures
      var next, t := Advanced(p, dt, duration), p.time + dt * p.speed;
      if !p.playing then next == p
      else
        && next == p.(time := next.time, playing := next.playing, justEnded := !next.playing)
        && if duration <= 0.0 then next.time == 0.0 && next.playing
           else if p.looping then
             next.playing && 0.0 <= next.time < duration && WholeMultiple(t - next.time, duration)
           else
             next.time == (if t > duration then duration else t) && (next.playing <==> t <= duration)
  {
    var next, t := Advanced(p, dt, duration), p.time + Move(dt, p.speed);
    if p.playing && duration > 0.0 && p.looping {
      LapsLost(t, duration);
      assert p.time + dt * p.speed - next.time == t - next.time;
    }
  }

  lemma LapsLost(t: real, d: real)
    requires d > 0.0
    ensures WholeMultiple(t - RemEuclid(t, d), d)
  {
    assert IsMultiple(t - RemEuclid(t, d), d, (t / d).Floor);
  }

  class AnimationPlayer {
    var clip: nat
    var time: real
    var speed: real
    var looping: bool
    var playing: bool
    var justEnded: bool

    function View(): Playback
      reads this
    {
      Playback(clip, time, speed, looping, playing, justEnded)
    }

    constructor (clip: nat)
      ensures View() == Playback(clip, 0.0, 1.0, true, true, false)
    {
      this.clip, time, speed := clip, 0.0, 1.0;
      looping, playing, justEnded := true, true, false;
    }

    method Advance(dt: real, duration: real)
      modifies this
      ensures View() == Advanced(old(View()), dt, duration)
    {
      hide RemEuclid;
      if !playing {
        return;
      }
      justEnded := false;
      time := time + dt * speed;
      if duration <= 0.0 {
        time := 0.0;
      } else if looping {
        time := RemEuclid(time, duration);
      } else if time > duration {
        time := duration;
        playing := false;
        justEnded := true;
      }
    }
  }

  // ---------------------------------------------------------------------------------------------
  // Markers
  // ---------------------------------------------------------------------------------------------

  /** A step from `prev` to `curr` passes the time `m`; a step that goes back is taken to wrap around. */
  predicate Passes(m: real, prev: real, curr: real) {
    if curr >= prev then prev < m <= curr else m > prev || m <= curr
  }

  /** The markers passed by one step, in order. */
  function Passed(markers: seq<Marker>, prev: real, curr: real): seq<nat> {
    if markers == [] then [] else
      var n := |markers| - 1;
      Passed(markers[..n], prev, curr) + (if Passes(markers[n].time, prev, curr) then [n] else [])
  }

  method CheckMarkersCrossed(markers: seq<Marker>, prev: real, curr: real, duration: real) returns (result: seq<nat>)
    ensures result == if duration <= 0.0 then [] else Passed(markers, prev, curr)
  {
    result := [];
    if markers == [] || duration <= 0.0 {
      return;
    }
    assert markers[..|markers|] == markers;
    if curr >= prev {
      for i := 0 to |markers|
        invariant result == Passed(markers[..i], prev, curr)
      {
        assert markers[..i + 1][..i] == markers[..i];
        if markers[i].time > prev && markers[i].time <= curr {
          result := result + [i];
        }
      }
    } else {
      for i := 0 to |markers|
        invariant result == Passed(markers[..i], prev, curr)
      {
        assert markers[..i + 1][..i] == markers[..i];
        if markers[i].time > prev || markers[i].time <= curr {
          result := result + [i];
        }
      }
    }
  }

  function Hit(m: real, prev: real, curr: real): nat {
    if Passes(m, prev, curr) then 1 else 0
  }

  /** A step reports exactly the markers it passes, each once. */
  lemma {:induction false} PassedOnce(markers: seq<Marker>, prev: real, curr: real, i: nat)
    ensures multiset(Passed(markers, prev, curr))[i] == if i < |markers| then Hit(markers[i].time, prev, curr) else 0
  {
    if markers != [] {
      var n := |markers| - 1;
      PassedOnce(markers[..n], prev, curr, i);
    }
  }

  /** Scenes that play clips and collect what happens. */
  class Scene {
    const animations: seq<Clip>
    var animationEvents: seq<AnimationEvent>
    var markerEvents: seq<MarkerEvent>

    constructor (animations: seq<Clip>)
      ensures this.animations == animations && animationEvents == [] && markerEvents == []
    {
      this.animations := animations;
      animationEvents, markerEvents := [], [];
    }

    method UpdateAnimation(player: AnimationPlayer, dt: real)
      modifies this, player
      ensures player.clip < |animations| ==>
        player.View() == Advanced(old(player.View()), dt, animations[player.clip].duration)
        && animationEvents == old(animationEvents) + Reports(old(player.View()), animations[player.clip], [dt])
        && markerEvents == old(markerEvents) + Events(old(player.View()), animations[player.clip], [dt])
      ensures player.clip >= |animations| ==>
        player.View() == old(player.View())
        && animationEvents == old(animationEvents) && markerEvents == old(markerEvents)
    {
      hide Advanced, Reports, Events, Tagged, PassedIn;
      if player.clip >= |animations| {
        return;
      }
      var clip := animations[player.clip];
      var prev := player.time;
      player.Advance(dt, clip.duration);
      if player.time < prev {
        animationEvents := animationEvents + [AnimationLoop(player.clip)];
      }
      if player.justEnded {
        animationEvents := animationEvents + [AnimationEnd(player.clip)];
      }
      ReportsOfOne(old(player.View()), clip, dt);
      StepFrames(old(player.View()), dt, clip.duration);
      EventsOfOne(old(player.View()), clip, dt);
      RecordMarkers(player.clip, prev, player.time);
    }

    /** The markers that a step of a clip passed. */
    method RecordMarkers(index: nat, prev: real, curr: real)
      requires index < |animations|
      modifies `markerEvents
      ensures markerEvents == old(markerEvents) + Tagged(index, PassedIn(animations[index], prev, curr))
    {
      hide Passed;
      var clip := animations[index];
      if clip.markers == [] {
        NoMarkers(prev, curr);
        return;
      }
      var crossed := CheckMarkersCrossed(clip.markers, prev, curr, clip.duration);
      for k := 0 to |crossed|
        invariant markerEvents == old(markerEvents) + Tagged(index, crossed[..k])
      {
        markerEvents := markerEvents + [MarkerEvent(index, crossed[k])];
      }
      assert crossed[..|crossed|] == crossed;
    }
  }

  /** A clip without a duration passes no marker. */
  function PassedIn(clip: Clip, prev: real, curr: real): seq<nat> {
    if clip.duration <= 0.0 then [] else Passed(clip.markers, prev, curr)
  }

  lemma NoMarkers(prev: real, curr: real)
    ensures Passed([], prev, curr) == []
  {
  }

  lemma EventsOfOne(p: Playback, clip: Clip, dt: real)
    ensures Events(p, clip, [dt]) == Tagged(p.clip, PassedIn(clip, p.time, Advanced(p, dt, clip.duration).time))
  {
    hide Advanced, Passed;
    assert [dt][1..] == [];
  }

  function Tagged(clip: nat, indices: seq<nat>): (r: seq<MarkerEvent>)
    ensures |r| == |indices|
  {
    seq(|indices|, k requires 0 <= k < |indices| => MarkerEvent(clip, indices[k]))
  }

  /** What one step of a player is reported as. */
  function Report(p: Playback, next: Playback): seq<AnimationEvent> {
    (if next.time < p.time then [AnimationLoop(p.clip)] else [])
    + (if next.justEnded then [AnimationEnd(p.clip)] else [])
  }

  /** What a run of steps of `dts[0]`, `dts[1]`, … seconds is reported as. */
  function Reports(p: Playback, clip: Clip, dts: seq<real>): seq<AnimationEvent>
    decreases |dts|
  {
    if dts == [] then [] else
      var next := Advanced(p, dts[0], clip.duration);
      Report(p, next) + Reports(next, clip, dts[1..])
  }

  lemma ReportsStep(p: Playback, clip: Clip, dts: seq<real>)
    requires dts != []
    ensures
      var next := Advanced(p, dts[0], clip.duration);
      var all, rest := multiset(Reports(p, clip, dts)), multiset(Reports(next, clip, dts[1..]));
      && all[AnimationLoop(p.clip)] == (if next.time < p.time then 1 else 0) + rest[AnimationLoop(p.clip)]
      && all[AnimationEnd(p.clip)] == (if next.justEnded then 1 else 0) + rest[AnimationEnd(p.clip)]
  {
    hide Advanced;
  }

  lemma NoReports(p: Playback, clip: Clip)
    ensures Reports(p, clip, []) == []
  {
  }

  /** A step leaves the settings alone, and a player that it stops has just ended. */
  lemma StepFrames(p: Playback, dt: real, duration: real)
    ensures
      var next := Advanced(p, dt, duration);
      && next.clip == p.clip && next.speed == p.speed && next.looping == p.looping
      && (p.playing ==> next.justEnded == !next.playing)
      && (!p.playing ==> next == p)
  {
  }

  lemma ReportsOfOne(p: Playback, clip: Clip, dt: real)
    ensures Reports(p, clip, [dt]) == Report(p, Advanced(p, dt, clip.duration))
  {
    hide Advanced;
    assert [dt][1..] == [];
  }

  /** The marker events of a run of steps of `dts[0]`, `dts[1]`, … seconds. */
  function Events(p: Playback, clip: Clip, dts: seq<real>): seq<MarkerEvent>
    decreases |dts|
  {
    if dts == [] then [] else
      var next := Advanced(p, dts[0], clip.duration);
      Tagged(p.clip, PassedIn(clip, p.time, next.time))
      + Events(next, clip, dts[1..])
  }

  lemma {:induction false} TaggedCount(clip: nat, indices: seq<nat>, i: nat)
    ensures multiset(Tagged(clip, indices))[MarkerEvent(clip, i)] == multiset(indices)[i]
  {
    if indices != [] {
      var n := |indices| - 1;
      TaggedCount(clip, indices[..n], i);
      assert indices == indices[..n] + [indices[n]];
      assert Tagged(clip, indices) == Tagged(clip, indices[..n]) + [MarkerEvent(clip, indices[n])];
    }
  }

  // ---------------------------------------------------------------------------------------------
  // The closed form
  // ---------------------------------------------------------------------------------------------

  /** How often the clock of a looping clip has been at `m` by the unwrapped time `t`, up to a constant. */
  function Rounds(t: real, m: real, d: real): int
    requires d > 0.0
  {
    ((t - m) / d).Floor
  }

  /** The seconds of a run. */
  function Elapsed(dts: seq<real>): real
    decreases |dts|
  {
    if dts == [] then 0.0 else dts[0] + Elapsed(dts[1..])
  }

  /** How far the clock moves in a run. */
  function Travel(dts: seq<real>, speed: real): real
    decreases |dts|
  {
    if dts == [] then 0.0 else Move(dts[0], speed) + Travel(dts[1..], speed)
  }

  /** The unwrapped clock of a player after a run. */
  function Clock(p: Playback, dts: seq<real>): real {
    p.time + p.speed * Elapsed(dts)
  }

  lemma ClockTravels(p: Playback, dts: seq<real>)
    ensures Clock(p, dts) == p.time + Travel(dts, p.speed)
  {
    hide Elapsed, Travel;
    TravelIsElapsed(dts, p.speed);
  }

  /** The clock moves by the speed times the time that passes. */
  lemma {:induction false} TravelIsElapsed(dts: seq<real>, speed: real)
    ensures Travel(dts, speed) == speed * Elapsed(dts)
    decreases |dts|
  {
    if dts != [] {
      TravelIsElapsed(dts[1..], speed);
      assert speed * (dts[0] + Elapsed(dts[1..])) == dts[0] * speed + speed * Elapsed(dts[1..]);
    }
  }

  function WholeLaps(s: real, d: real): int
    requires d > 0.0
  {
    (s / d).Floor
  }

  /** The whole laps in single steps. */
  function LapsInSteps(dts: seq<real>, speed: real, d: real): int
    requires d > 0.0
    decreases |dts|
  {
    if dts == [] then 0 else WholeLaps(dts[0] * speed, d) + LapsInSteps(dts[1..], speed, d)
  }

  lemma Divide(x: real, d: real, k: int)
    requires d > 0.0 && k as real * d <= x < (k + 1) as real * d
    ensures (x / d).Floor == k
  {
    var q := x / d;
    assert x == q * d;
    Product(q - k as real, d);
    Product((k + 1) as real - q, d);
    assert (q - k as real) * d == x - k as real * d;
    assert ((k + 1) as real - q) * d == (k + 1) as real * d - x;
  }

  lemma DivideShift(x: real, d: real, k: int)
    requires d > 0.0
    ensures ((x + k as real * d) / d).Floor == (x / d).Floor + k
  {
    var q := x / d;
    assert x == q * d;
    assert (x + k as real * d) / d == q + k as real by {
      assert (q + k as real) * d == x + k as real * d;
    }
  }

  lemma RoundsAre(t: real, m: real, d: real, k: int)
    requires d > 0.0 && -1 <= k <= 1
    requires (k == -1 && -d <= t - m < 0.0) || (k == 0 && 0.0 <= t - m < d) || (k == 1 && d <= t - m < 2.0 * d)
    ensures Rounds(t, m, d) == k
  {
    Divide(t - m, d, k);
  }

  lemma RemOf(x: real, d: real)
    requires d > 0.0 && 0.0 <= x < 2.0 * d
    ensures RemEuclid(x, d) == if x < d then x else x - d
  {
    Divide(x, d, if x < d then 0 else 1);
  }

  /** A step of less than a lap. */
  lemma ShortStep(t: real, r: real, m: real, d: real)
    requires d > 0.0 && 0.0 <= t < d && 0.0 <= r < d && 0.0 <= m <= d
    ensures Rounds(t + r, m, d) - Rounds(t, m, d) == Hit(m, t, RemEuclid(t + r, d))
  {
    hide Rounds, RemEuclid;
    RoundsAre(t, m, d, if t >= m then 0 else -1);
    RemOf(t + r, d);
    RoundsAre(t + r, m, d, if t + r < m then -1 else if t + r - m < d then 0 else 1);
  }

  lemma RemShift(x: real, d: real, k: int)
    requires d > 0.0
    ensures RemEuclid(x + k as real * d, d) == RemEuclid(x, d)
  {
    DivideShift(x, d, k);
    var f := (x / d).Floor;
    assert (f + k) as real * d == f as real * d + k as real * d;
  }

  /** Any step, forward or back: it reports a marker once for every time the clock is at it, less its whole laps. */
  lemma AnyStep(t: real, s: real, m: real, d: real)
    requires d > 0.0 && 0.0 <= t < d && 0.0 <= m <= d
    ensures Hit(m, t, RemEuclid(t + s, d)) + WholeLaps(s, d) == Rounds(t + s, m, d) - Rounds(t, m, d)
  {
    var k := (s / d).Floor;
    var r := RemEuclid(s, d);
    assert s == r + k as real * d;
    ShortStep(t, r, m, d);
    RemShift(t + r, d, k);
    assert t + r + k as real * d == t + s;
    DivideShift(t + r - m, d, k);
    assert t + r - m + k as real * d == t + s - m;
  }

  /** Rounds from a wrapped time are those from the unwrapped one. */
  lemma Rewind(t: real, s: real, rest: real, m: real, d: real)
    requires d > 0.0
    ensures var u := RemEuclid(t + s, d);
      Rounds(u + rest, m, d) - Rounds(u, m, d) == Rounds(t + s + rest, m, d) - Rounds(t + s, m, d)
  {
    var u := RemEuclid(t + s, d);
    var k := ((t + s) / d).Floor;
    assert t + s == u + k as real * d;
    DivideShift(u - m, d, k);
    DivideShift(u + rest - m, d, k);
    assert u + rest - m + k as real * d == t + s + rest - m && u - m + k as real * d == t + s - m;
  }

  lemma NoEvents(p: Playback, clip: Clip)
    ensures Events(p, clip, []) == []
  {
  }

  lemma LoopingStep(p: Playback, dt: real, duration: real)
    requires p.playing && p.looping && duration > 0.0
    ensures
      var next := Advanced(p, dt, duration);
      next == p.(time := RemEuclid(p.time + Move(dt, p.speed), duration), justEnded := false)
  {
  }

  lemma EventsStep(p: Playback, clip: Clip, dts: seq<real>, i: nat)
    requires dts != [] && clip.duration > 0.0 && i < |clip.markers|
    ensures
      var next := Advanced(p, dts[0], clip.duration);
      multiset(Events(p, clip, dts))[MarkerEvent(p.clip, i)] ==
        Hit(clip.markers[i].time, p.time, next.time)
        + multiset(Events(next, clip, dts[1..]))[MarkerEvent(p.clip, i)]
  {
    hide Advanced, Passes;
    var next := Advanced(p, dts[0], clip.duration);
    var now := Passed(clip.markers, p.time, next.time);
    PassedOnce(clip.markers, p.time, next.time, i);
    TaggedCount(p.clip, now, i);
    assert Events(p, clip, dts) == Tagged(p.clip, now) + Events(next, clip, dts[1..]);
  }

  lemma {:induction false} FiringsInSteps(p: Playback, clip: Clip, dts: seq<real>, i: nat)
    requires p.playing && p.looping && 0.0 <= p.time < clip.duration
    requires i < |clip.markers| && 0.0 <= clip.markers[i].time <= clip.duration
    ensures
      var d, m := clip.duration, clip.markers[i].time;
      multiset(Events(p, clip, dts))[MarkerEvent(p.clip, i)] + LapsInSteps(dts, p.speed, d)
      == Rounds(p.time + Travel(dts, p.speed), m, d) - Rounds(p.time, m, d)
    decreases |dts|
  {
    hide Advanced, Rounds, RemEuclid, Hit, Passes, Events, WholeLaps;
    var d, m := clip.duration, clip.markers[i].time;
    if dts == [] {
      NoEvents(p, clip);
    } else {
      var s := Move(dts[0], p.speed);
      var next := Advanced(p, dts[0], d);
      LoopingStep(p, dts[0], d);
      EventsStep(p, clip, dts, i);
      FiringsInSteps(next, clip, dts[1..], i);
      AnyStep(p.time, s, m, d);
      Rewind(p.time, s, Travel(dts[1..], p.speed), m, d);
      assert p.time + Travel(dts, p.speed) == p.time + s + Travel(dts[1..], p.speed);
    }
  }

  /**
    Over any run of a looping player, in steps of any size and direction, a marker of the clip fires as often as
    the unwrapped clock is at it, less the whole laps that single steps cover.
  */
  lemma MarkerFirings(p: Playback, clip: Clip, dts: seq<real>, i: nat)
    requires p.playing && p.looping && 0.0 <= p.time < clip.duration
    requires i < |clip.markers| && 0.0 <= clip.markers[i].time <= clip.duration
    ensures
      var d, m := clip.duration, clip.markers[i].time;
      multiset(Events(p, clip, dts))[MarkerEvent(p.clip, i)] + LapsInSteps(dts, p.speed, d)
      == Rounds(Clock(p, dts), m, d) - Rounds(p.time, m, d)
  {
    hide Rounds, Events, Clock, Travel, LapsInSteps;
    FiringsInSteps(p, clip, dts, i);
    ClockTravels(p, dts);
  }

  lemma {:induction false} LapsAreCovered(dts: seq<real>, speed: real, d: real)
    requires d > 0.0 && forall k :: 0 <= k < |dts| ==> Move(dts[k], speed) >= 0.0
    ensures LapsInSteps(dts, speed, d) >= 0
    ensures LapsInSteps(dts, speed, d) == 0 <==> forall k :: 0 <= k < |dts| ==> Move(dts[k], speed) < d
    decreases |dts|
  {
    if dts != [] {
      hide WholeLaps;
      var tail := dts[1..];
      assert forall k :: 0 < k < |dts| ==> dts[k] == tail[k - 1];
      LapsAreCovered(tail, speed, d);
      LapOfStep(Move(dts[0], speed), d);
      if forall k :: 0 <= k < |tail| ==> Move(tail[k], speed) < d {
        assert forall k :: 0 < k < |dts| ==> Move(dts[k], speed) < d;
      }
    }
  }

  lemma LapOfStep(s: real, d: real)
    requires d > 0.0 && s >= 0.0
    ensures WholeLaps(s, d) >= 0 && (WholeLaps(s, d) == 0 <==> s < d)
  {
    var q := s / d;
    assert s == q * d;
    if s < d {
      Divide(s, d, 0);
    } else {
      assert q >= 1.0;
    }
  }

  /** A run that only goes forward fires no marker too often, and loses none just when no step covers a whole lap. */
  lemma NoMarkerIsLost(p: Playback, clip: Clip, dts: seq<real>, i: nat)
    requires p.playing && p.looping && 0.0 <= p.time < clip.duration
    requires i < |clip.markers| && 0.0 <= clip.markers[i].time <= clip.duration
    requires forall k :: 0 <= k < |dts| ==> dts[k] * p.speed >= 0.0
    ensures
      var d, m := clip.duration, clip.markers[i].time;
      var fired := multiset(Events(p, clip, dts))[MarkerEvent(p.clip, i)];
      var due := Rounds(Clock(p, dts), m, d) - Rounds(p.time, m, d);
      fired <= due && (fired == due <==> forall k :: 0 <= k < |dts| ==> dts[k] * p.speed < d)
  {
    hide Rounds, Events, Clock, LapsInSteps;
    MarkerFirings(p, clip, dts, i);
    LapsAreCovered(dts, p.speed, clip.duration);
  }

  /** For a looping player a step back is the passing of the end. */
  lemma BackIsEnd(t: real, s: real, d: real)
    requires d > 0.0 && 0.0 <= t < d
    ensures
      (if RemEuclid(t + s, d) < t then 1 else 0) + WholeLaps(s, d) == Rounds(t + s, 0.0, d) - Rounds(t, 0.0, d)
  {
    AnyStep(t, s, d, d);
    DivideShift(t + s, d, -1);
    DivideShift(t, d, -1);
  }

  lemma {:induction false} LoopsInSteps(p: Playback, clip: Clip, dts: seq<real>)
    requires p.playing && p.looping && 0.0 <= p.time < clip.duration
    ensures
      multiset(Reports(p, clip, dts))[AnimationLoop(p.clip)] + LapsInSteps(dts, p.speed, clip.duration)
      == Rounds(p.time + Travel(dts, p.speed), 0.0, clip.duration) - Rounds(p.time, 0.0, clip.duration)
    decreases |dts|
  {
    hide Advanced, Rounds, RemEuclid, WholeLaps, Reports;
    if dts == [] {
      NoReports(p, clip);
    } else {
      ReportsStep(p, clip, dts);
      var d, s, next := clip.duration, Move(dts[0], p.speed), Advanced(p, dts[0], clip.duration);
      LoopingStep(p, dts[0], d);
      LoopsInSteps(next, clip, dts[1..]);
      BackIsEnd(p.time, s, d);
      Rewind(p.time, s, Travel(dts[1..], p.speed), 0.0, d);
      assert p.time + Travel(dts, p.speed) == p.time + s + Travel(dts[1..], p.speed);
    }
  }

  /** A looping player reports as many loops as its clock completes, less the whole laps that single steps cover. */
  lemma LoopsReported(p: Playback, clip: Clip, dts: seq<real>)
    requires p.playing && p.looping && 0.0 <= p.time < clip.duration
    ensures
      multiset(Reports(p, clip, dts))[AnimationLoop(p.clip)] + LapsInSteps(dts, p.speed, clip.duration)
      == Rounds(Clock(p, dts), 0.0, clip.duration) - Rounds(p.time, 0.0, clip.duration)
  {
    hide Rounds, Reports, Clock, Travel, LapsInSteps;
    LoopsInSteps(p, clip, dts);
    ClockTravels(p, dts);
  }

  /** The first step that stops the player; the length of the run if none does. */
  function StopsAt(p: Playback, clip: Clip, dts: seq<real>): (k: nat)
    ensures k <= |dts|
    decreases |dts|
  {
    if dts == [] then 0 else
      var next := Advanced(p, dts[0], clip.duration);
      if next.playing then 1 + StopsAt(next, clip, dts[1..]) else 0
  }

  /**
    The end of a clip is reported by the step that stops the player and again by every later one, so exactly once just
    when the run stops there.
  */
  lemma {:induction false} EndsReported(p: Playback, clip: Clip, dts: seq<real>)
    requires p.playing
    ensures
      var ends := multiset(Reports(p, clip, dts))[AnimationEnd(p.clip)];
      ends == |dts| - StopsAt(p, clip, dts) && (ends == 1 <==> StopsAt(p, clip, dts) + 1 == |dts|)
    decreases |dts|
  {
    hide Advanced, Reports;
    NoReports(p, clip);
    if dts != [] {
      ReportsStep(p, clip, dts);
      StepFrames(p, dts[0], clip.duration);
      var next := Advanced(p, dts[0], clip.duration);
      if next.playing {
        EndsReported(next, clip, dts[1..]);
      } else {
        EndIsRepeated(next, clip, dts[1..]);
      }
    }
  }

  lemma {:induction false} EndIsRepeated(p: Playback, clip: Clip, dts: seq<real>)
    requires !p.playing && p.justEnded
    ensures multiset(Reports(p, clip, dts))[AnimationEnd(p.clip)] == |dts|
    decreases |dts|
  {
    hide Advanced, Reports;
    NoReports(p, clip);
    if dts != [] {
      ReportsStep(p, clip, dts);
      StepFrames(p, dts[0], clip.duration);
      EndIsRepeated(p, clip, dts[1..]);
    }
  }

  /** A step of two laps passes a marker twice and reports it once. */
  lemma TwoLapsAtOnce()
    ensures
      var p, clip := Playback(0, 0.0, 1.0, true, true, false), Clip(1.0, [Marker(0.5, "step")]);
      && Rounds(Clock(p, [2.5]), 0.5, 1.0) - Rounds(p.time, 0.5, 1.0) == 3
      && multiset(Events(p, clip, [2.5]))[MarkerEvent(0, 0)] == 1
  {
    var p, clip := Playback(0, 0.0, 1.0, true, true, false), Clip(1.0, [Marker(0.5, "step")]);
    assert [2.5][1..] == [];
    assert p.speed * Elapsed([2.5]) == 2.5;
    MarkerFirings(p, clip, [2.5], 0);
    assert LapsInSteps([2.5], 1.0, 1.0) == 2;
  }

  /** A clip of one second, played once in steps of two seconds: its end is reported by each of them. */
  lemma EndTwice()
    ensures Reports(Playback(0, 0.0, 1.0, false, true, false), Clip(1.0, []), [2.0, 2.0]) == [AnimationEnd(0), AnimationEnd(0)]
  {
    assert [2.0, 2.0][1..] == [2.0] && [2.0][1..] == [];
  }

  // ---------------------------------------------------------------------------------------------
  // Clips that play once
  // ---------------------------------------------------------------------------------------------

  lemma {:induction false} FiresOnceInSteps(p: Playback, clip: Clip, dts: seq<real>, i: nat)
    requires !p.looping && 0.0 <= p.time <= clip.duration && clip.duration > 0.0 && p.playing
    requires i < |clip.markers| && 0.0 <= clip.markers[i].time <= clip.duration
    requires forall k :: 0 <= k < |dts| ==> Move(dts[k], p.speed) >= 0.0
    ensures
      var m := clip.markers[i].time;
      multiset(Events(p, clip, dts))[MarkerEvent(p.clip, i)] ==
        if p.time < m <= p.time + Travel(dts, p.speed) then 1 else 0
    decreases |dts|
  {
    hide Events;
    if dts == [] {
      NoEvents(p, clip);
    } else {
      var next := Advanced(p, dts[0], clip.duration);
      var tail := dts[1..];
      EventsStep(p, clip, dts, i);
      assert forall k :: 0 <= k < |tail| ==> tail[k] == dts[k + 1];
      ForwardTravel(tail, p.speed);
      if next.playing {
        FiresOnceInSteps(next, clip, tail, i);
      } else {
        StoppedIsSilent(next, clip, tail);
      }
    }
  }

  /** A clip that plays once, forward, fires each marker at most once: when the clock first gets to it. */
  lemma FiresOnce(p: Playback, clip: Clip, dts: seq<real>, i: nat)
    requires !p.looping && 0.0 <= p.time <= clip.duration && clip.duration > 0.0 && p.playing
    requires i < |clip.markers| && 0.0 <= clip.markers[i].time <= clip.duration
    requires forall k :: 0 <= k < |dts| ==> dts[k] * p.speed >= 0.0
    ensures
      var m := clip.markers[i].time;
      multiset(Events(p, clip, dts))[MarkerEvent(p.clip, i)] ==
        if p.time < m <= Clock(p, dts) then 1 else 0
  {
    hide Events, Clock, Travel;
    FiresOnceInSteps(p, clip, dts, i);
    ClockTravels(p, dts);
  }

  lemma {:induction false} ForwardTravel(dts: seq<real>, speed: real)
    requires forall k :: 0 <= k < |dts| ==> Move(dts[k], speed) >= 0.0
    ensures Travel(dts, speed) >= 0.0
    decreases |dts|
  {
    if dts != [] {
      var tail := dts[1..];
      assert forall k :: 0 <= k < |tail| ==> tail[k] == dts[k + 1];
      ForwardTravel(tail, speed);
    }
  }

  lemma {:induction false} StoppedIsSilent(p: Playback, clip: Clip, dts: seq<real>)
    requires !p.playing
    ensures Events(p, clip, dts) == []
    decreases |dts|
  {
    if dts != [] {
      StoppedIsSilent(p, clip, dts[1..]);
      NothingPassed(clip.markers, p.time);
    }
  }

  lemma {:induction false} NothingPassed(markers: seq<Marker>, t: real)
    ensures Passed(markers, t, t) == []
  {
    if markers != [] {
      NothingPassed(markers[..|markers| - 1], t);
    }
  }
}
