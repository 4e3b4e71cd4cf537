/** What the blending state machine makes of time, conditions and shares. */
module AnimationFlow {
  import opened Basics
  import opened Animation
  import opened BlendTrees
  import opened ClipMerge
  import opened AnimationGraph

  // ---------------------------------------------------------------------------------------------
  // Conditions
  // ---------------------------------------------------------------------------------------------

  /** Conditions on a number are strict outside and closed inside, and exactly one of the three holds. */
  lemma NumberConditions(name: string, params: Parameters, v: real, low: real, high: real)
    requires name in params && params[name] == Float(v) && low <= high
    ensures Holds(FloatLess(name, low), params) <==> v < low
    ensures Holds(FloatGreater(name, high), params) <==> v > high
    ensures Holds(FloatInRange(name, low, high), params)
      <==> !Holds(FloatLess(name, low), params) && !Holds(FloatGreater(name, high), params)
    ensures !Holds(OnTrigger(name), params) && !Holds(BoolIs(name, true), params) && !Holds(BoolIs(name, false), params)
  {
  }

  /** A flag answers to one of two conditions, a trigger to one; a parameter that is not set to none at all. */
  lemma OtherConditions(c: Condition, params: Parameters)
    requires !c.Always?
    ensures c.name !in params ==> !Holds(c, params)
    ensures c.name in params && params[c.name].Flag? ==> (Holds(c, params) <==> c == BoolIs(c.name, params[c.name].on))
    ensures c.name in params && params[c.name].Trigger? ==> (Holds(c, params) <==> c == OnTrigger(c.name))
    ensures Holds(Always, params)
  {
  }

  /** Transition `k` is the first of the list whose condition holds. */
  predicate IsFirstHolding(transitions: seq<Transition>, params: Parameters, k: nat) {
    && k < |transitions| && Holds(transitions[k].condition, params)
    && forall i :: 0 <= i < k ==> !Holds(transitions[i].condition, params)
  }

  lemma {:induction false} FirstHoldingIsFirst(transitions: seq<Transition>, params: Parameters, k: nat)
    requires IsFirstHolding(transitions, params, k)
    ensures FirstHolding(transitions, params) == Some(transitions[k])
    decreases k
  {
    hide Holds;
    if k > 0 {
      FirstHoldingIsFirst(transitions[1..], params, k - 1);
    }
  }

  predicate NoneIsDue(transitions: seq<Transition>, params: Parameters) {
    forall i :: 0 <= i < |transitions| ==> !Holds(transitions[i].condition, params)
  }

  lemma {:induction false} NoneHolds(transitions: seq<Transition>, params: Parameters)
    requires NoneIsDue(transitions, params)
    ensures FirstHolding(transitions, params) == None
  {
    hide Holds;
    if transitions != [] {
      NoneHolds(transitions[1..], params);
    }
  }

  /**
    A transition starts just when none is running and the condition of one holds, and then it is the first such one.
    A trigger that started it is gone, so that it starts nothing again; everything else is as before.
  */
  lemma TransitionStarts(m: Machine, k: nat)
    requires Aligned(m) && m.current < |m.names|
    ensures m.target.Some? ==> Choose(m) == m
    ensures m.target.None? && NoneIsDue(m.transitions[m.current], m.params) ==> Choose(m) == m
    ensures m.target.None? && IsFirstHolding(m.transitions[m.current], m.params, k) ==>
      var r, t := Choose(m), m.transitions[m.current][k];
      && r.target == Some(t.to) && r.duration == t.duration && r.progress == 0.0
      && r == m.(target := r.target, duration := r.duration, progress := r.progress, params := r.params)
      && (t.condition.OnTrigger? ==> !Holds(t.condition, r.params))
      && (forall name :: name in r.params ==> name in m.params && r.params[name] == m.params[name])
      && (forall name :: name in m.params && name !in r.params ==> t.condition == OnTrigger(name))
  {
    hide Holds;
    var transitions := m.transitions[m.current];
    if IsFirstHolding(transitions, m.params, k) {
      FirstHoldingIsFirst(transitions, m.params, k);
      TriggerGone(transitions[k].condition, m.params);
    }
    if NoneIsDue(transitions, m.params) {
      NoneHolds(transitions, m.params);
    }
  }

  lemma TriggerGone(c: Condition, params: Parameters)
    ensures c.OnTrigger? ==> !Holds(c, params - {c.name})
  {
  }

  // ---------------------------------------------------------------------------------------------
  // How long a transition takes
  // ---------------------------------------------------------------------------------------------

  /** Updates of `dts[0]`, `dts[1]`, … seconds. */
  function Ticks(dts: seq<real>, clips: seq<Clip>): (r: seq<Action>)
    ensures |r| == |dts|
  {
    seq(|dts|, k requires 0 <= k < |dts| => Tick(dts[k], clips))
  }

  /** The seconds that a transition takes: at least the distance from one to the next larger single. */
  function Length(m: Machine): real {
    if m.duration > 1.0 / 8388608.0 then m.duration else 1.0 / 8388608.0
  }

  /** The share of the target after `seconds` more of a transition. */
  function ShareAfter(m: Machine, seconds: real): real {
    m.progress + seconds / Length(m)
  }

  lemma ShareGrows(m: Machine, m': Machine, a: real, b: real)
    requires m'.progress == ShareAfter(m, a) && m'.duration == m.duration
    ensures ShareAfter(m', b) == ShareAfter(m, a + b)
    ensures ShareAfter(m, 0.0) == m.progress
  {
    var d := Length(m);
    assert (a + b) / d == a / d + b / d;
  }

  lemma StepProgress(m: Machine, dt: real, clips: seq<Clip>)
    requires Wellformed(m) && m.target.Some?
    ensures
      var s := Stepped(m, dt, clips);
      s.target == m.target && s.progress == ShareAfter(m, dt) && s.duration == m.duration && s.current == m.current
  {
    hide Wellformed, FirstHolding, Played, Times;
    AlignedTables(m);
    DriveFrames(m.(currentTime := m.currentTime + dt), m.current, dt, clips);
    var e := Entered(m, dt, clips);
    AlignedTables(e);
    DriveFrames(e, e.target.value, dt, clips);
  }

  /**
    A running transition goes on until the seconds of its updates fill its duration, or the least one; with that update
    the target becomes the current state, and not before.
  */
  lemma {:induction false} TransitionTakes(m: Machine, dts: seq<real>, clips: seq<Clip>)
    requires Wellformed(m) && m.target.Some? && m.progress < 1.0
    requires forall k :: 0 <= k < |dts| ==> ShareAfter(m, Elapsed(dts[..k])) < 1.0
    ensures
      var r := Run(m, Ticks(dts, clips));
      if ShareAfter(m, Elapsed(dts)) >= 1.0 then
        r.current == m.target.value && r.target == None && r.currentTime == 0.0 && r.progress == 0.0 && r.duration == 0.0
      else
        r.current == m.current && r.target == m.target && r.duration == m.duration
        && r.progress == ShareAfter(m, Elapsed(dts))
    decreases |dts|
  {
    hide Wellformed, Stepped, ShareAfter;
    if dts == [] {
      ShareOfNothing(m);
    } else {
      var tail := dts[1..];
      StepProgress(m, dts[0], clips);
      assert Ticks(dts, clips)[1..] == Ticks(tail, clips);
      var m' := Act(m, Ticks(dts, clips)[0]);
      if tail == [] {
        assert Elapsed(dts) == dts[0];
      } else {
        assert dts[..1] == [dts[0]] && Elapsed([dts[0]]) == dts[0] by {
          assert [dts[0]][1..] == [];
        }
        ShareGrows(m, m', dts[0], Elapsed(tail));
        forall k | 0 <= k < |tail| ensures ShareAfter(m', Elapsed(tail[..k])) < 1.0 {
          assert dts[..k + 1][1..] == tail[..k];
          ShareGrows(m, m', dts[0], Elapsed(tail[..k]));
        }
        TransitionTakes(m', tail, clips);
      }
    }
  }

  lemma ShareOfNothing(m: Machine)
    ensures ShareAfter(m, 0.0) == m.progress && Elapsed([]) == 0.0
  {
  }

  // ---------------------------------------------------------------------------------------------
  // What an update drives
  // ---------------------------------------------------------------------------------------------

  /** Where the clock of a player would be without wrapping around, in a state of the given speed. */
  function Unwrapped(p: Playback, dt: real, speed: real): real {
    p.time + dt * speed * p.speed
  }

  /** Driving a state takes its players on by the time that passes at the speed of the state, and nobody else. */
  lemma DriveMeets(m: Machine, id: StateId, dt: real, clips: seq<Clip>, c: nat)
    requires Wellformed(m) && id < |m.names| && m.states[id].Some? && c in m.players[id]
    ensures forall i :: 0 <= i < |m.players| && i != id ==> Drive(m, id, dt, clips).players[i] == m.players[i]
    ensures c in Drive(m, id, dt, clips).players[id]
    ensures
      var p, q := m.players[id][c], Drive(m, id, dt, clips).players[id][c];
      if c >= |clips| then q == p
      else
        && q == p.(time := q.time)
        && Drive(m, id, dt, clips).prevTimes[c] == q.time
        && if clips[c].duration <= 0.0 then q.time == 0.0
           else
             0.0 <= q.time < clips[c].duration
             && WholeMultiple(Unwrapped(p, dt, m.states[id].value.speed) - q.time, clips[c].duration)
  {
    hide Advanced, Running, Move, WholeMultiple, Unwrapped;
    PlayerRuns(m, id, c);
    if c < |clips| {
      var p, q := m.players[id][c], Drive(m, id, dt, clips).players[id][c];
      MovesAndSteps(p, dt, m.states[id].value.speed, clips[c].duration, q);
    }
  }

  lemma MovesAndSteps(p: Playback, dt: real, speed: real, duration: real, q: Playback)
    requires p.looping && p.playing && !p.justEnded && q == Advanced(p, Move(dt, speed), duration)
    ensures q == p.(time := q.time)
    ensures
      if duration <= 0.0 then q.time == 0.0
      else 0.0 <= q.time < duration && WholeMultiple(Unwrapped(p, dt, speed) - q.time, duration)
  {
    hide Advanced, WholeMultiple;
    var step := Move(dt, speed);
    StepMeets(p, step, duration);
    SameMultiple(p.time + step * p.speed - q.time, Unwrapped(p, dt, speed) - q.time, duration);
  }

  lemma SameMultiple(x: real, y: real, d: real)
    requires x == y
    ensures WholeMultiple(x, d) ==> WholeMultiple(y, d)
  {
  }

  lemma PlayerRuns(m: Machine, id: StateId, c: nat)
    requires Wellformed(m) && id < |m.names| && c in m.players[id]
    ensures var p := m.players[id][c]; p.looping && p.playing && !p.justEnded
  {
  }

  /**
    An update drives the current state and the target, which a transition to itself drives twice, and no other state;
    the time in the current state goes on.
  */
  lemma UpdateDrives(m: Machine, dt: real, clips: seq<Clip>, id: StateId)
    requires Wellformed(m) && id < |m.names|
    ensures Stepped(m, dt, clips).currentTime == m.currentTime + dt
    ensures
      var target, now := Choose(m).target, Stepped(m, dt, clips).players[id];
      var once := Drive(m, id, dt, clips);
      now ==
        if id == m.current && target == Some(id) then Drive(once, id, dt, clips).players[id]
        else if id == m.current || target == Some(id) then once.players[id]
        else m.players[id]
  {
    hide Wellformed, Drive, Choose, Entered;
    AlignedTables(m);
    EnteredPlayers(m, dt, clips);
    var e := Entered(m, dt, clips);
    AlignedTables(e);
    OthersStay(m, m.current, dt, clips);
    if e.target.Some? {
      FadedPlayers(e, dt, clips);
      DrivesAlike(m, e, e.target.value, dt, clips);
      DrivesAlike(Drive(m, m.current, dt, clips), e, e.target.value, dt, clips);
    }
  }

  lemma EnteredPlayers(m: Machine, dt: real, clips: seq<Clip>)
    requires Wellformed(m)
    ensures
      var e := Entered(m, dt, clips);
      && e.players == Drive(m, m.current, dt, clips).players && e.target == Choose(m).target && e.states == m.states
      && |e.players| == |m.names| && e.currentTime == m.currentTime + dt
  {
    hide Wellformed, FirstHolding, Played, Times;
    AlignedTables(m);
    AlignedTables(Entered(m, dt, clips));
    DriveFrames(m.(currentTime := m.currentTime + dt), m.current, dt, clips);
  }

  lemma FadedPlayers(e: Machine, dt: real, clips: seq<Clip>)
    requires Wellformed(e) && e.target.Some? && Aligned(e) && e.target.value < |e.names|
    ensures Faded(e, dt, clips).players == Drive(e, e.target.value, dt, clips).players
    ensures Faded(e, dt, clips).currentTime == e.currentTime
    ensures forall i :: 0 <= i < |e.players| && i != e.target.value ==> Faded(e, dt, clips).players[i] == e.players[i]
  {
    hide Wellformed, Played, Times;
  }

  lemma OthersStay(m: Machine, id: StateId, dt: real, clips: seq<Clip>)
    requires Aligned(m) && id < |m.names|
    ensures Aligned(Drive(m, id, dt, clips)) && |Drive(m, id, dt, clips).names| == |m.names|
    ensures Drive(m, id, dt, clips).states == m.states
    ensures forall i :: 0 <= i < |m.players| && i != id ==> Drive(m, id, dt, clips).players[i] == m.players[i]
  {
    hide Played, Times;
  }

  /** Driving a state depends on its own table entries only. */
  lemma DrivesAlike(m: Machine, m': Machine, id: StateId, dt: real, clips: seq<Clip>)
    requires Aligned(m) && Aligned(m') && id < |m.names| && id < |m'.names|
    ensures m.states[id] == m'.states[id] && m.players[id] == m'.players[id] ==>
      Drive(m, id, dt, clips).players[id] == Drive(m', id, dt, clips).players[id]
  {
    hide Played, Times;
  }

  // ---------------------------------------------------------------------------------------------
  // The mix
  // ---------------------------------------------------------------------------------------------

  /** The share of clip `c`. */
  function ShareOf(shares: seq<Share>, c: nat): real {
    if shares == [] then 0.0 else
      var s := shares[|shares| - 1];
      ShareOf(shares[..|shares| - 1], c) + (if s.clip == c then s.weight else 0.0)
  }

  /** The share of clip `c` in what the state plays by itself. */
  function ShareIn(m: Machine, id: StateId, c: nat): real
    requires Aligned(m) && id < |m.names|
  {
    if m.states[id].None? then 0.0 else ShareOf(Evaluate(m.states[id].value.tree, m.params), c)
  }

  /** The time of the player of clip `c`, if the state has one. */
  function TimeIn(m: Machine, id: StateId, c: nat): real
    requires Aligned(m) && id < |m.names|
  {
    if c in m.players[id] then m.players[id][c].time else 0.0
  }

  function Timed(time: real, weight: real): real {
    time * weight
  }

  lemma {:induction false} PartsOfClip(shares: seq<Share>, players: map<nat, Playback>, factor: real, c: nat)
    requires forall s :: s in shares ==> s.clip in players
    ensures WeightOf(Parts(shares, players, factor), c) == Scaled(ShareOf(shares, c), factor)
    ensures MomentOf(Parts(shares, players, factor), c)
      == Timed(if c in players then players[c].time else 0.0, WeightOf(Parts(shares, players, factor), c))
  {
    hide Scaled, WeightOf, MomentOf, Moment, Timed;
    SumsOfNone();
    TimesSum(if c in players then players[c].time else 0.0, 0.0, 0.0);
    ScaledSum(0.0, 0.0, factor);
    if shares != [] {
      var n := |shares| - 1;
      var front, s := Parts(shares[..n], players, factor), shares[n];
      var a := ActiveAnimation(s.clip, Scaled(s.weight, factor), players[s.clip].time);
      PartsOfClip(shares[..n], players, factor, c);
      assert Parts(shares, players, factor) == front + [a];
      Push(front, a, c);
      ScaledSum(ShareOf(shares[..n], c), s.weight, factor);
      if s.clip == c {
        TimesSum(players[c].time, WeightOf(front, c), a.weight);
        MomentIsTimed(a);
      }
    }
  }

  lemma TimesSum(t: real, a: real, b: real)
    ensures Timed(t, a + b) == Timed(t, a) + Timed(t, b) && Timed(t, 0.0) == 0.0
  {
  }

  lemma MomentIsTimed(a: ActiveAnimation)
    ensures Moment(a) == Timed(a.time, a.weight)
  {
  }

  lemma StatePart(m: Machine, id: StateId, factor: real, c: nat)
    requires Wellformed(m) && id < |m.names|
    ensures WeightOf(PartsOf(m, id, factor), c) == ShareIn(m, id, c) * factor
    ensures MomentOf(PartsOf(m, id, factor), c) == TimeIn(m, id, c) * (ShareIn(m, id, c) * factor)
  {
    hide Evaluate, Parts, Clips, ShareOf, WeightOf, MomentOf;
    if m.states[id].Some? {
      assert PlaysItsClips(m.states[id], m.players[id]);
      SharesAddUp(m.states[id].value.tree, m.params);
      PartsOfClip(Evaluate(m.states[id].value.tree, m.params), m.players[id], factor, c);
    } else {
      SumsOfNone();
    }
  }

  lemma {:induction false} SumsAppend(a: seq<ActiveAnimation>, b: seq<ActiveAnimation>, c: nat)
    ensures WeightOf(a + b, c) == WeightOf(a, c) + WeightOf(b, c)
    ensures MomentOf(a + b, c) == MomentOf(a, c) + MomentOf(b, c)
    decreases |b|
  {
    hide Moment, WeightOf, MomentOf;
    SumsOfNone();
    if b == [] {
      assert a + b == a;
    } else {
      var n := |b| - 1;
      SumsAppend(a, b[..n], c);
      assert a + b == (a + b[..n]) + [b[n]] && b == b[..n] + [b[n]];
      Push(a + b[..n], b[n], c);
      Push(b[..n], b[n], c);
    }
  }

  /** What the current state contributes to clip `c`. */
  function FromCurrent(m: Machine, c: nat): real
    requires Aligned(m) && m.current < |m.names|
  {
    ShareIn(m, m.current, c) * (1.0 - Fade(m))
  }

  /** What the target contributes. */
  function FromTarget(m: Machine, c: nat): real
    requires Aligned(m) && (m.target.Some? ==> m.target.value < |m.names|)
  {
    if m.target.Some? then ShareIn(m, m.target.value, c) * Fade(m) else 0.0
  }

  /**
    The mix of an update: a clip is returned just when one of the two states gives it some weight, with the weights of
    both, and at the average of both times by these weights.
  */
  lemma ClipIsMixed(m: Machine, merged: seq<ActiveAnimation>, c: nat)
    requires Wellformed(m) && Merges(AllParts(m), merged)
    ensures Aligned(m) && m.current < |m.names| && (m.target.Some? ==> m.target.value < |m.names|)
    ensures FromCurrent(m, c) + FromTarget(m, c) > 0.0 <==> exists a :: a in merged && a.clip == c
    ensures forall a :: a in merged && a.clip == c ==>
      && a.weight == FromCurrent(m, c) + FromTarget(m, c)
      && a.time * a.weight ==
           TimeIn(m, m.current, c) * FromCurrent(m, c)
           + (if m.target.Some? then TimeIn(m, m.target.value, c) * FromTarget(m, c) else 0.0)
  {
    hide Wellformed, PartsOf, ShareIn, TimeIn, WeightOf, MomentOf, Fade;
    AlignedTables(m);
    var current := PartsOf(m, m.current, 1.0 - Fade(m));
    StatePart(m, m.current, 1.0 - Fade(m), c);
    SumsOfNone();
    if m.target.Some? {
      StatePart(m, m.target.value, Fade(m), c);
      SumsAppend(current, PartsOf(m, m.target.value, Fade(m)), c);
    } else {
      SumsAppend(current, [], c);
      FadeFollowsProgress(m);
    }
  }

  /** The share of the target is the progress of the transition, kept between nothing and all. */
  lemma FadeFollowsProgress(m: Machine)
    ensures m.target.None? ==> Fade(m) == 0.0
    ensures m.target.Some? ==>
      if m.progress <= 0.0 then Fade(m) == 0.0 else if m.progress >= 1.0 then Fade(m) == 1.0 else Fade(m) == m.progress
  {
  }
}
