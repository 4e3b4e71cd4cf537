/** The blending state machine of an avatar. */
module AnimationGraph {
  import opened Basics
  import opened Animation
  import opened BlendTrees
  import opened ClipMerge

  type StateId = nat

  datatype AnimationState = AnimationState(name: string, tree: BlendTree, speed: real)

  datatype Condition =
    | Always
    | OnTrigger(name: string)
    | FloatGreater(name: string, bound: real)
    | FloatLess(name: string, bound: real)
    | FloatInRange(name: string, low: real, high: real)
    | BoolIs(name: string, expected: bool)

  datatype Transition = Transition(to: StateId, duration: real, condition: Condition)

  /** The tables of the machine, all indexed by state id, and where it stands. */
  datatype Machine = Machine(
    names: seq<string>,
    ids: map<string, StateId>,
    states: seq<Option<AnimationState>>,
    transitions: seq<seq<Transition>>,
    players: seq<map<nat, Playback>>,
    current: StateId,
    currentTime: real,
    target: Option<StateId>,
    progress: real,
    duration: real,
    params: Parameters,
    prevTimes: map<nat, real>)

  /** The distance from one to the next larger single precision number. */
  const EPSILON: real := 1.0 / 8388608.0

  predicate Holds(c: Condition, params: Parameters) {
    c.Always? || (c.name in params &&
      var p := params[c.name];
      match c
      case OnTrigger(_) => p.Trigger?
      case FloatGreater(_, bound) => p.Float? && p.value > bound
      case FloatLess(_, bound) => p.Float? && p.value < bound
      case FloatInRange(_, low, high) => p.Float? && low <= p.value <= high
      case BoolIs(_, expected) => p.Flag? && p.on == expected)
  }

  function FirstHolding(transitions: seq<Transition>, params: Parameters): Option<Transition> {
    if transitions == [] then None
    else if Holds(transitions[0].condition, params) then Some(transitions[0])
    else FirstHolding(transitions[1..], params)
  }

  function Clamp(x: real): real {
    if x < 0.0 then 0.0 else if x > 1.0 then 1.0 else x
  }

  function Larger(x: real, y: real): real {
    if x > y then x else y
  }

  // ---------------------------------------------------------------------------------------------
  // Well-formed machines
  // ---------------------------------------------------------------------------------------------

  /** The tables have one length. */
  ghost predicate Aligned(m: Machine) {
    |m.states| == |m.names| && |m.transitions| == |m.names| && |m.players| == |m.names|
  }

  ghost predicate KnownTargets(transitions: seq<Transition>, n: nat) {
    forall t :: t in transitions ==> t.to < n
  }

  ghost predicate PlaysItsClips(state: Option<AnimationState>, players: map<nat, Playback>) {
    state.Some? ==> forall c :: c in Clips(state.value.tree) ==> c in players
  }

  /** Players of the machine never stop. */
  ghost predicate Running(players: map<nat, Playback>) {
    forall c :: c in players ==> players[c].looping && players[c].playing && !players[c].justEnded
  }

  ghost predicate Wellformed(m: Machine) {
    && Aligned(m)
    && m.current < |m.names|
    && (m.target.Some? ==> m.target.value < |m.names|)
    && (forall i :: 0 <= i < |m.names| ==> m.names[i] in m.ids && m.ids[m.names[i]] == i)
    && (forall name :: name in m.ids ==> m.ids[name] < |m.names| && m.names[m.ids[name]] == name)
    && (forall i :: 0 <= i < |m.transitions| ==> KnownTargets(m.transitions[i], |m.names|))
    && (forall i :: 0 <= i < |m.states| ==> PlaysItsClips(m.states[i], m.players[i]) && Running(m.players[i]))
  }

  // ---------------------------------------------------------------------------------------------
  // Building
  // ---------------------------------------------------------------------------------------------

  function Initial(name: string): Machine {
    Machine([name], map[name := 0], [None], [[]], [map[]], 0, 0.0, None, 0.0, 0.0, map[], map[])
  }

  /** The machine in which `name` has an id. */
  function Resolve(m: Machine, name: string): Machine {
    if name in m.ids then m else
      m.(names := m.names + [name], ids := m.ids[name := |m.names|], states := m.states + [None],
         transitions := m.transitions + [[]], players := m.players + [map[]])
  }

  lemma ResolveKnows(m: Machine, name: string)
    requires Wellformed(m)
    ensures Wellformed(Resolve(m, name)) && name in Resolve(m, name).ids
    ensures m.names <= Resolve(m, name).names
  {
    var r := Resolve(m, name);
    if name !in m.ids {
      forall i | 0 <= i < |r.transitions|
        ensures KnownTargets(r.transitions[i], |r.names|)
      {
        assert i < |m.transitions| ==> KnownTargets(m.transitions[i], |m.names|);
      }
      forall i | 0 <= i < |r.states|
        ensures PlaysItsClips(r.states[i], r.players[i]) && Running(r.players[i])
      {
        assert i < |m.states| ==> PlaysItsClips(m.states[i], m.players[i]) && Running(m.players[i]);
      }
    }
  }

  lemma KnownId(m: Machine, name: string)
    requires Wellformed(m) && name in m.ids
    ensures Aligned(m) && m.ids[name] < |m.names| && m.names[m.ids[name]] == name
  {
  }

  function NewPlayers(clips: seq<nat>): map<nat, Playback> {
    map c | c in clips :: Playback(c, 0.0, 1.0, true, true, false)
  }

  function WithState(m: Machine, state: AnimationState): Machine
    requires Wellformed(m)
  {
    ResolveKnows(m, state.name);
    var r := Resolve(m, state.name);
    var id := r.ids[state.name];
    r.(players := r.players[id := NewPlayers(Clips(state.tree))], states := r.states[id := Some(state)])
  }

  function WithTransition(m: Machine, from: string, to: string, duration: real, condition: Condition): Machine
    requires Wellformed(m)
  {
    ResolveKnows(m, from);
    ResolveKnows(Resolve(m, from), to);
    var r := Resolve(Resolve(m, from), to);
    var id := r.ids[from];
    r.(transitions := r.transitions[id := r.transitions[id] + [Transition(r.ids[to], duration, condition)]])
  }

  lemma WithStateKeeps(m: Machine, state: AnimationState)
    requires Wellformed(m)
    ensures Wellformed(WithState(m, state)) && m.names <= WithState(m, state).names
    ensures var r := WithState(m, state);
      && r.states[r.ids[state.name]] == Some(state)
      && (forall c :: c in r.players[r.ids[state.name]] <==> c in Clips(state.tree))
      && (forall c :: c in Clips(state.tree) ==> r.players[r.ids[state.name]][c] == Playback(c, 0.0, 1.0, true, true, false))
    ensures forall i :: 0 <= i < |m.states| && m.names[i] != state.name ==> WithState(m, state).states[i] == m.states[i]
  {
    ResolveKnows(m, state.name);
    var r := Resolve(m, state.name);
    var s := WithState(m, state);
    forall i | 0 <= i < |s.states|
      ensures PlaysItsClips(s.states[i], s.players[i]) && Running(s.players[i])
    {
      assert i != r.ids[state.name] ==> PlaysItsClips(r.states[i], r.players[i]) && Running(r.players[i]);
    }
  }

  lemma WithTransitionKeeps(m: Machine, from: string, to: string, duration: real, condition: Condition)
    requires Wellformed(m)
    ensures Wellformed(WithTransition(m, from, to, duration, condition))
    ensures m.names <= WithTransition(m, from, to, duration, condition).names
  {
    ResolveKnows(m, from);
    ResolveKnows(Resolve(m, from), to);
    var r := Resolve(Resolve(m, from), to);
    var s := WithTransition(m, from, to, duration, condition);
    forall i | 0 <= i < |s.transitions|
      ensures KnownTargets(s.transitions[i], |s.names|)
    {
      assert KnownTargets(r.transitions[i], |r.names|);
    }
  }

  /** A name that is resolved keeps its id and its row, or gets the next id and an empty row. */
  lemma ResolveRows(m: Machine, name: string)
    requires Wellformed(m)
    ensures
      var r := Resolve(m, name);
      && Aligned(r) && |m.names| <= |r.names| && name in r.ids && r.ids[name] < |r.names|
      && r.ids[name] == (if name in m.ids then m.ids[name] else |m.names|)
      && (forall other :: other in m.ids ==> other in r.ids && r.ids[other] == m.ids[other])
      && (forall i :: 0 <= i < |m.transitions| ==> r.transitions[i] == m.transitions[i])
      && (forall i :: |m.transitions| <= i < |r.transitions| ==> r.transitions[i] == [])
  {
  }

  /** A new transition comes last in the row of the state that it leaves; all other rows are as before. */
  lemma WithTransitionAdds(m: Machine, from: string, to: string, duration: real, condition: Condition)
    requires Wellformed(m)
    ensures Aligned(m) && forall name :: name in m.ids ==> m.ids[name] < |m.transitions|
    ensures
      var r := WithTransition(m, from, to, duration, condition);
      && from in r.ids && to in r.ids && r.ids[from] < |r.transitions| && |m.transitions| <= |r.transitions|
      && (forall name :: name in m.ids ==> r.ids[name] == m.ids[name])
      && r.transitions[r.ids[from]] ==
           (if from in m.ids then m.transitions[m.ids[from]] else []) + [Transition(r.ids[to], duration, condition)]
      && forall i :: 0 <= i < |m.transitions| && i != r.ids[from] ==> r.transitions[i] == m.transitions[i]
  {
    KnownRows(m);
    hide Wellformed;
    ResolveKnows(m, from);
    ResolveKnows(Resolve(m, from), to);
    ResolveRows(m, from);
    ResolveRows(Resolve(m, from), to);
    hide Resolve;
  }

  lemma KnownRows(m: Machine)
    requires Wellformed(m)
    ensures Aligned(m) && forall name :: name in m.ids ==> m.ids[name] < |m.transitions|
  {
  }

  // ---------------------------------------------------------------------------------------------
  // One update
  // ---------------------------------------------------------------------------------------------

  function Played(players: map<nat, Playback>, step: real, clips: seq<Clip>): map<nat, Playback> {
    map c | c in players :: if c < |clips| then Advanced(players[c], step, clips[c].duration) else players[c]
  }

  /** The times to compare with at the next update, of all clips that exist. */
  function Times(players: map<nat, Playback>, step: real, clips: seq<Clip>): map<nat, real> {
    map c | c in players && c < |clips| :: Advanced(players[c], step, clips[c].duration).time
  }

  /** The time of the clip has gone back since it was last noted, in whichever state that was. */
  predicate Loops(players: map<nat, Playback>, prevTimes: map<nat, real>, step: real, clips: seq<Clip>, c: nat) {
    c in players && c < |clips| &&
      Advanced(players[c], step, clips[c].duration).time < if c in prevTimes then prevTimes[c] else players[c].time
  }

  /** The events are one loop for each such clip, in any order. */
  ghost predicate TellsLoops(
    told: seq<AnimationEvent>, players: map<nat, Playback>, prevTimes: map<nat, real>, step: real, clips: seq<Clip>)
  {
    && (forall e :: e in told ==> e.AnimationLoop?)
    && (forall c :: multiset(told)[AnimationLoop(c)] == if Loops(players, prevTimes, step, clips, c) then 1 else 0)
  }

  /** The events are what driving the state tells: nothing unless it is registered. */
  ghost predicate Tells(told: seq<AnimationEvent>, m: Machine, id: StateId, dt: real, clips: seq<Clip>)
    requires Aligned(m) && id < |m.names|
  {
    if m.states[id].None? then told == []
    else TellsLoops(told, m.players[id], m.prevTimes, Move(dt, m.states[id].value.speed), clips)
  }

  /** The players of a registered state are advanced, and their times noted. */
  function Drive(m: Machine, id: StateId, dt: real, clips: seq<Clip>): Machine
    requires Aligned(m) && id < |m.names|
  {
    if m.states[id].None? then m else
      var step := Move(dt, m.states[id].value.speed);
      m.(players := m.players[id := Played(m.players[id], step, clips)],
         prevTimes := m.prevTimes + Times(m.players[id], step, clips))
  }

  /** Outside a transition, the first one whose condition holds starts; its trigger is used up. */
  function Choose(m: Machine): Machine
    requires Aligned(m) && m.current < |m.names|
  {
    if m.target.Some? then m else
      match FirstHolding(m.transitions[m.current], m.params)
      case None => m
      case Some(t) =>
        m.(target := Some(t.to), duration := t.duration, progress := 0.0,
           params := if t.condition.OnTrigger? then m.params - {t.condition.name} else m.params)
  }

  /** The current state is driven, and a transition may start. */
  function Entered(m: Machine, dt: real, clips: seq<Clip>): (r: Machine)
    requires Wellformed(m)
    ensures Wellformed(r) && r.states == m.states && r.names == m.names && r.current == m.current
  {
    var driven := Drive(m.(currentTime := m.currentTime + dt), m.current, dt, clips);
    DriveKeeps(m.(currentTime := m.currentTime + dt), m.current, dt, clips);
    ChooseKeeps(driven);
    Choose(driven)
  }

  /** The target of a transition is driven too, and the transition goes on. */
  function Faded(m: Machine, dt: real, clips: seq<Clip>): (r: Machine)
    requires Wellformed(m)
    ensures Wellformed(r) && r.states == m.states && r.names == m.names && r.current == m.current
  {
    if m.target.None? then m else
      DriveKeeps(m, m.target.value, dt, clips);
      var both := Drive(m, m.target.value, dt, clips);
      both.(progress := both.progress + dt / Larger(both.duration, EPSILON))
  }

  /** The machine from which an update reads what is played. */
  function Stepped(m: Machine, dt: real, clips: seq<Clip>): (r: Machine)
    requires Wellformed(m)
    ensures Wellformed(r) && r.states == m.states && r.names == m.names && r.current == m.current
  {
    Faded(Entered(m, dt, clips), dt, clips)
  }

  /** What an update tells of loops: first those of the current state, then those of the target. */
  ghost predicate TellsUpdate(
    first: seq<AnimationEvent>, second: seq<AnimationEvent>, m: Machine, dt: real, clips: seq<Clip>)
    requires Wellformed(m)
  {
    var e := Entered(m, dt, clips);
    Tells(first, m, m.current, dt, clips)
    && if e.target.Some? then Tells(second, e, e.target.value, dt, clips) else second == []
  }

  /** The loop over the players has advanced all but those in `left`. */
  ghost predicate DrivenBut(
    left: set<nat>, driven: map<nat, Playback>, players: map<nat, Playback>, step: real, clips: seq<Clip>)
  {
    && left <= driven.Keys == players.Keys && Running(players)
    && forall c :: c in players ==> driven[c] == if c in left then players[c] else Played(players, step, clips)[c]
  }

  /** The times of all but those in `left` are noted. */
  ghost predicate NotedBut(left: set<nat>, noted: map<nat, real>, prevTimes: map<nat, real>, times: map<nat, real>) {
    && noted.Keys == prevTimes.Keys + (times.Keys - left)
    && forall c :: c in noted ==> noted[c] == if c in times && c !in left then times[c] else prevTimes[c]
  }

  /** The loops of all but those in `left` are told. */
  ghost predicate ToldBut(
    left: set<nat>, told: seq<AnimationEvent>, players: map<nat, Playback>, prevTimes: map<nat, real>, step: real,
    clips: seq<Clip>)
  {
    && (forall e :: e in told ==> e.AnimationLoop?)
    && (forall c :: multiset(told)[AnimationLoop(c)]
          == if c !in left && Loops(players, prevTimes, step, clips, c) then 1 else 0)
  }

  lemma NothingDriven(players: map<nat, Playback>, prevTimes: map<nat, real>, step: real, clips: seq<Clip>)
    requires Running(players)
    ensures DrivenBut(players.Keys, players, players, step, clips)
    ensures NotedBut(players.Keys, prevTimes, prevTimes, Times(players, step, clips))
    ensures ToldBut(players.Keys, [], players, prevTimes, step, clips)
  {
  }

  lemma DriveOne(
    left: set<nat>, driven: map<nat, Playback>, players: map<nat, Playback>, step: real, clips: seq<Clip>, c: nat)
    requires DrivenBut(left, driven, players, step, clips) && c in left
    ensures c in driven && driven[c] == players[c]
    ensures
      var next := Played(players, step, clips)[c];
      && !next.justEnded
      && DrivenBut(left - {c}, driven[c := next], players, step, clips)
  {
    hide Advanced;
    if c < |clips| {
      StepKeepsRunning(players[c], step, clips[c].duration);
    }
  }

  lemma NoteOne(left: set<nat>, noted: map<nat, real>, prevTimes: map<nat, real>, times: map<nat, real>, c: nat)
    requires NotedBut(left, noted, prevTimes, times) && c in left
    ensures (c in noted <==> c in prevTimes) && (c in noted ==> noted[c] == prevTimes[c])
    ensures if c in times then NotedBut(left - {c}, noted[c := times[c]], prevTimes, times)
            else NotedBut(left - {c}, noted, prevTimes, times)
  {
  }

  lemma TellOne(
    left: set<nat>, told: seq<AnimationEvent>, players: map<nat, Playback>, prevTimes: map<nat, real>, step: real,
    clips: seq<Clip>, c: nat)
    requires ToldBut(left, told, players, prevTimes, step, clips) && c in left
    ensures ToldBut(left - {c}, told + (if Loops(players, prevTimes, step, clips, c) then [AnimationLoop(c)] else []),
                    players, prevTimes, step, clips)
  {
    hide Loops;
  }

  lemma AllDriven(
    driven: map<nat, Playback>, noted: map<nat, real>, told: seq<AnimationEvent>,
    players: map<nat, Playback>, prevTimes: map<nat, real>, step: real, clips: seq<Clip>)
    requires DrivenBut({}, driven, players, step, clips)
    requires NotedBut({}, noted, prevTimes, Times(players, step, clips))
    requires ToldBut({}, told, players, prevTimes, step, clips)
    ensures driven == Played(players, step, clips) && noted == prevTimes + Times(players, step, clips)
    ensures TellsLoops(told, players, prevTimes, step, clips)
  {
    hide Advanced, Loops, Running;
  }

  lemma PlayersRun(m: Machine, id: StateId)
    requires Wellformed(m) && id < |m.names|
    ensures Aligned(m) && Running(m.players[id])
  {
  }

  lemma StepKeepsRunning(p: Playback, step: real, duration: real)
    requires p.looping && p.playing && !p.justEnded
    ensures var next := Advanced(p, step, duration); next.looping && next.playing && !next.justEnded
  {
  }

  /** A transition that is through makes its target the current state. */
  function Switched(m: Machine): (r: Machine)
    ensures Wellformed(m) ==> Wellformed(r)
  {
    if m.target.Some? && m.progress >= 1.0 then
      m.(current := m.target.value, currentTime := 0.0, target := None, progress := 0.0, duration := 0.0)
    else m
  }

  lemma DriveKeeps(m: Machine, id: StateId, dt: real, clips: seq<Clip>)
    requires Wellformed(m) && id < |m.names|
    ensures Wellformed(Drive(m, id, dt, clips))
  {
    var d := Drive(m, id, dt, clips);
    forall i | 0 <= i < |d.states|
      ensures PlaysItsClips(d.states[i], d.players[i]) && Running(d.players[i])
    {
      assert PlaysItsClips(m.states[i], m.players[i]) && Running(m.players[i]);
    }
  }

  lemma ClocksAreFree(m: Machine, time: real, progress: real)
    requires Wellformed(m)
    ensures Wellformed(m.(currentTime := time, progress := progress))
  {
  }

  lemma SwitchKeeps(m: Machine)
    requires Wellformed(m)
    ensures Wellformed(Switched(m))
  {
  }

  lemma DriveFrames(m: Machine, id: StateId, dt: real, clips: seq<Clip>)
    requires Aligned(m) && id < |m.names|
    ensures var d := Drive(m, id, dt, clips); d == m.(players := d.players, prevTimes := d.prevTimes)
  {
  }

  lemma {:induction false} FirstHoldingIsIn(transitions: seq<Transition>, params: Parameters)
    ensures var r := FirstHolding(transitions, params);
      r.Some? ==> r.value in transitions && Holds(r.value.condition, params)
  {
    if transitions != [] {
      FirstHoldingIsIn(transitions[1..], params);
    }
  }

  lemma ChooseKeeps(m: Machine)
    requires Wellformed(m)
    ensures Wellformed(Choose(m))
  {
    FirstHoldingIsIn(m.transitions[m.current], m.params);
    assert KnownTargets(m.transitions[m.current], |m.names|);
  }

  // ---------------------------------------------------------------------------------------------
  // What is played
  // ---------------------------------------------------------------------------------------------

  /** The share of the target of a running transition. */
  function Fade(m: Machine): real {
    if m.target.Some? then Clamp(m.progress) else 0.0
  }

  function Scaled(weight: real, factor: real): real {
    weight * factor
  }

  lemma ScaledSum(a: real, b: real, factor: real)
    ensures Scaled(a + b, factor) == Scaled(a, factor) + Scaled(b, factor)
    ensures factor >= 0.0 && b >= 0.0 ==> Scaled(b, factor) >= 0.0
    ensures factor == 0.0 ==> Scaled(b, factor) == 0.0
    ensures Scaled(0.0, factor) == 0.0
  {
  }

  function Parts(shares: seq<Share>, players: map<nat, Playback>, factor: real): seq<ActiveAnimation> {
    if shares == [] then [] else
      var s := shares[|shares| - 1];
      Parts(shares[..|shares| - 1], players, factor)
      + (if s.clip in players then [ActiveAnimation(s.clip, Scaled(s.weight, factor), players[s.clip].time)] else [])
  }

  function PartsOf(m: Machine, id: StateId, factor: real): seq<ActiveAnimation>
    requires Aligned(m) && id < |m.names|
  {
    if m.states[id].None? then []
    else Parts(Evaluate(m.states[id].value.tree, m.params), m.players[id], factor)
  }

  function AllParts(m: Machine): seq<ActiveAnimation>
    requires Wellformed(m)
  {
    PartsOf(m, m.current, 1.0 - Fade(m)) + if m.target.Some? then PartsOf(m, m.target.value, Fade(m)) else []
  }

  /** A state that is registered and has something to play. */
  predicate Voiced(m: Machine, id: StateId)
    requires Aligned(m) && id < |m.names|
  {
    m.states[id].Some? && !IsEmpty(m.states[id].value.tree)
  }

  function Voice(m: Machine, id: StateId): real
    requires Aligned(m) && id < |m.names|
  {
    if Voiced(m, id) then 1.0 else 0.0
  }

  lemma {:induction false} PartsTotal(shares: seq<Share>, players: map<nat, Playback>, factor: real)
    requires forall s :: s in shares ==> s.clip in players && s.weight >= 0.0
    requires factor >= 0.0
    ensures TotalWeight(Parts(shares, players, factor)) == Scaled(Total(shares), factor)
    ensures NonNegative(Parts(shares, players, factor))
    ensures forall a :: a in Parts(shares, players, factor) ==>
      (a.weight > 0.0 ==> factor > 0.0) && a.clip in players && a.time == players[a.clip].time
  {
    hide Scaled, TotalWeight;
    SumsOfNone();
    ScaledSum(0.0, 0.0, factor);
    if shares != [] {
      var n := |shares| - 1;
      var front := Parts(shares[..n], players, factor);
      var a := ActiveAnimation(shares[n].clip, Scaled(shares[n].weight, factor), players[shares[n].clip].time);
      PartsTotal(shares[..n], players, factor);
      assert Parts(shares, players, factor) == front + [a];
      Push(front, a, 0);
      ScaledSum(Total(shares[..n]), shares[n].weight, factor);
    }
  }

  lemma PartsOfTotal(m: Machine, id: StateId, factor: real)
    requires Wellformed(m) && id < |m.names| && factor >= 0.0
    ensures TotalWeight(PartsOf(m, id, factor)) == Voice(m, id) * factor
    ensures NonNegative(PartsOf(m, id, factor))
    ensures forall a :: a in PartsOf(m, id, factor) ==>
      (a.weight > 0.0 ==> factor > 0.0) && a.clip in m.players[id] && a.time == m.players[id][a.clip].time
  {
    hide Evaluate, Parts, Clips, TotalWeight, Total;
    if m.states[id].Some? {
      assert PlaysItsClips(m.states[id], m.players[id]);
      SharesAddUp(m.states[id].value.tree, m.params);
      PartsTotal(Evaluate(m.states[id].value.tree, m.params), m.players[id], factor);
    } else {
      SumsOfNone();
    }
  }

  lemma {:induction false} TotalWeightAppend(a: seq<ActiveAnimation>, b: seq<ActiveAnimation>)
    ensures TotalWeight(a + b) == TotalWeight(a) + TotalWeight(b)
    decreases |b|
  {
    if b == [] {
      assert a + b == a;
    } else {
      var n := |b| - 1;
      TotalWeightAppend(a, b[..n]);
      assert a + b == (a + b[..n]) + [b[n]] && (a + b)[..|a| + n] == a + b[..n];
    }
  }

  lemma AllPartsTotal(m: Machine)
    requires Wellformed(m)
    ensures TotalWeight(AllParts(m)) ==
      Voice(m, m.current) * (1.0 - Fade(m)) + (if m.target.Some? then Voice(m, m.target.value) * Fade(m) else 0.0)
    ensures NonNegative(AllParts(m))
  {
    hide PartsOf, TotalWeight, Voice;
    PartsOfTotal(m, m.current, 1.0 - Fade(m));
    if m.target.Some? {
      PartsOfTotal(m, m.target.value, Fade(m));
      TotalWeightAppend(PartsOf(m, m.current, 1.0 - Fade(m)), PartsOf(m, m.target.value, Fade(m)));
    } else {
      assert AllParts(m) == PartsOf(m, m.current, 1.0 - Fade(m));
    }
  }

  /** The states that sound: the current one, and the target, unless their share is zero. */
  predicate Sounds(m: Machine, id: StateId) {
    (id == m.current && Fade(m) < 1.0) || (m.target == Some(id) && Fade(m) > 0.0)
  }

  /** The weights are positive, and add up to one just when every state that sounds has something to play. */
  lemma WeightsOfStepped(m: Machine, dt: real, clips: seq<Clip>, merged: seq<ActiveAnimation>)
    requires Wellformed(m) && Merges(AllParts(Stepped(m, dt, clips)), merged)
    ensures forall a :: a in merged ==> a.weight > 0.0
    ensures
      var at := Stepped(m, dt, clips);
      TotalWeight(merged) == 1.0 <==> forall id :: 0 <= id < |at.names| && Sounds(at, id) ==> Voiced(at, id)
  {
    hide Stepped, AllParts, Wellformed;
    var at := Stepped(m, dt, clips);
    AllPartsTotal(at);
    MergeKeepsTotal(AllParts(at), merged);
    AlignedTables(at);
    VoicesAddUp(at);
  }

  /** How far the target will be faded in by an update that starts from `m`. */
  function FadeAfter(m: Machine, dt: real): real
    requires Aligned(m) && m.current < |m.names|
  {
    var c := Choose(m);
    if c.target.Some? then Clamp(c.progress + dt / Larger(c.duration, EPSILON)) else 0.0
  }

  /**
    The weights an update returns are positive, and they add up to one just when the current state, unless it will be
    faded out, and the target, if it will be faded in at all, are registered with trees that are not empty.
  */
  lemma WeightsAddUp(m: Machine, dt: real, clips: seq<Clip>, merged: seq<ActiveAnimation>)
    requires Wellformed(m) && Merges(AllParts(Stepped(m, dt, clips)), merged)
    ensures forall a :: a in merged ==> a.weight > 0.0
    ensures Choose(m).target.Some? ==> Choose(m).target.value < |m.names|
    ensures
      var target, f := Choose(m).target, FadeAfter(m, dt);
      TotalWeight(merged) == 1.0 <==>
        && (f < 1.0 ==> Voiced(m, m.current))
        && (target.Some? && f > 0.0 ==> Voiced(m, target.value))
  {
    hide AllParts, Wellformed, Merges, FirstHolding, Played, Times;
    AlignedTables(m);
    var c, at := Choose(m), Stepped(m, dt, clips);
    ChooseKeeps(m);
    AlignedTables(c);
    AlignedTables(at);
    WeightsOfStepped(m, dt, clips, merged);
    FadeOfStepped(m, dt, clips);
    assert forall id :: 0 <= id < |m.names| ==> Voiced(at, id) == Voiced(m, id);
    if FadeAfter(m, dt) < 1.0 {
      assert Sounds(at, m.current);
    }
    if c.target.Some? && FadeAfter(m, dt) > 0.0 {
      assert Sounds(at, c.target.value);
    }
  }

  lemma HoldsSomething(parts: seq<ActiveAnimation>)
    ensures parts == [] || exists a :: a in parts
  {
    if parts != [] {
      assert parts[0] in parts;
    }
  }

  /** A machine whose initial state was never registered returns nothing. */
  lemma NothingToPlay(dt: real, clips: seq<Clip>, merged: seq<ActiveAnimation>)
    requires Merges(AllParts(Stepped(Initial("idle"), dt, clips)), merged)
    ensures merged == [] && TotalWeight(merged) != 1.0
  {
    var parts := AllParts(Stepped(Initial("idle"), dt, clips));
    assert parts == [];
    SumsOfNone();
    assert forall a :: a in merged ==> Averages(parts, a);
    HoldsSomething(merged);
  }

  lemma FadeOfStepped(m: Machine, dt: real, clips: seq<Clip>)
    requires Wellformed(m)
    ensures Stepped(m, dt, clips).target == Choose(m).target && Fade(Stepped(m, dt, clips)) == FadeAfter(m, dt)
  {
    hide Wellformed, FirstHolding, Played, Times;
    AlignedTables(m);
    DriveFrames(m.(currentTime := m.currentTime + dt), m.current, dt, clips);
    var e := Entered(m, dt, clips);
    AlignedTables(e);
    if e.target.Some? {
      DriveFrames(e, e.target.value, dt, clips);
    }
  }

  lemma AlignedTables(m: Machine)
    requires Wellformed(m)
    ensures Aligned(m) && m.current < |m.names| && (m.target.Some? ==> m.target.value < |m.names|)
  {
  }

  lemma VoicesAddUp(m: Machine)
    requires Aligned(m) && m.current < |m.names| && (m.target.Some? ==> m.target.value < |m.names|)
    ensures
      Voice(m, m.current) * (1.0 - Fade(m)) + (if m.target.Some? then Voice(m, m.target.value) * Fade(m) else 0.0) == 1.0
      <==> forall id :: 0 <= id < |m.names| && Sounds(m, id) ==> Voiced(m, id)
  {
    var f := Fade(m);
    if Fade(m) < 1.0 {
      assert Sounds(m, m.current);
    }
    if m.target.Some? && Fade(m) > 0.0 {
      assert Sounds(m, m.target.value);
    }
  }

  /** The time of a merged clip lies between the times of two players of its clip, in states that sound. */
  lemma TimesAreBlended(m: Machine, dt: real, clips: seq<Clip>, merged: seq<ActiveAnimation>, a: ActiveAnimation)
    returns (low: StateId, high: StateId)
    requires Wellformed(m) && Merges(AllParts(Stepped(m, dt, clips)), merged) && a in merged
    ensures
      var at := Stepped(m, dt, clips);
      && low < |at.players| && Sounds(at, low) && a.clip in at.players[low]
      && high < |at.players| && Sounds(at, high) && a.clip in at.players[high]
      && at.players[low][a.clip].time <= a.time <= at.players[high][a.clip].time
  {
    hide Stepped, AllParts, Wellformed;
    var at := Stepped(m, dt, clips);
    AllPartsTotal(at);
    var i, j := MergedTimeIsBetween(AllParts(at), merged, a);
    low := Speaker(at, AllParts(at)[i]);
    high := Speaker(at, AllParts(at)[j]);
  }

  lemma Speaker(m: Machine, a: ActiveAnimation) returns (id: StateId)
    requires Wellformed(m) && a in AllParts(m) && a.weight > 0.0
    ensures id < |m.players| && Sounds(m, id) && a.clip in m.players[id] && a.time == m.players[id][a.clip].time
  {
    hide PartsOf;
    PartsOfTotal(m, m.current, 1.0 - Fade(m));
    if a in PartsOf(m, m.current, 1.0 - Fade(m)) {
      id := m.current;
    } else {
      PartsOfTotal(m, m.target.value, Fade(m));
      id := m.target.value;
    }
  }

  /**
    The loop over the players of a state, in any order. The end of a clip is never told, since players of the machine do
    not stop.
  */
  method AdvancePlayers(players: map<nat, Playback>, prevTimes: map<nat, real>, step: real, clips: seq<Clip>)
    returns (driven: map<nat, Playback>, noted: map<nat, real>, told: seq<AnimationEvent>)
    requires Running(players)
    ensures driven == Played(players, step, clips) && noted == prevTimes + Times(players, step, clips)
    ensures TellsLoops(told, players, prevTimes, step, clips)
  {
    hide Advanced, DrivenBut, NotedBut, ToldBut, TellsLoops, Running;
    driven, noted, told := players, prevTimes, [];
    var left: set<nat> := players.Keys;
    NothingDriven(players, prevTimes, step, clips);
    while left != {}
      invariant DrivenBut(left, driven, players, step, clips)
      invariant NotedBut(left, noted, prevTimes, Times(players, step, clips))
      invariant ToldBut(left, told, players, prevTimes, step, clips)
    {
      var c: nat :| c in left;
      DriveOne(left, driven, players, step, clips, c);
      NoteOne(left, noted, prevTimes, Times(players, step, clips), c);
      TellOne(left, told, players, prevTimes, step, clips, c);
      assert told + [] == told && driven[c := driven[c]] == driven;
      left := left - {c};
      if c < |clips| {
        var prev := if c in noted then noted[c] else driven[c].time;
        driven := driven[c := Advanced(driven[c], step, clips[c].duration)];
        if driven[c].time < prev {
          told := told + [AnimationLoop(c)];
        }
        if driven[c].justEnded {
          told := told + [AnimationEnd(c)];
        }
        noted := noted[c := driven[c].time];
      }
    }
    AllDriven(driven, noted, told, players, prevTimes, step, clips);
  }

  // ---------------------------------------------------------------------------------------------
  // The machine in place
  // ---------------------------------------------------------------------------------------------

  class AnimationStateMachine {
    var names: seq<string>
    var ids: map<string, StateId>
    var states: seq<Option<AnimationState>>
    var transitions: seq<seq<Transition>>
    var players: seq<map<nat, Playback>>
    var current: StateId
    var currentTime: real
    var target: Option<StateId>
    var progress: real
    var duration: real
    var params: Parameters
    var prevTimes: map<nat, real>
    var events: seq<AnimationEvent>

    function View(): Machine
      reads this
    {
      Machine(names, ids, states, transitions, players, current, currentTime, target, progress, duration, params, prevTimes)
    }

    ghost predicate Valid()
      reads this
    {
      Wellformed(View())
    }

    constructor (initial: string)
      ensures Valid() && View() == Initial(initial) && events == []
    {
      names, ids := [initial], map[initial := 0];
      states, transitions, players := [None], [[]], [map[]];
      current, currentTime := 0, 0.0;
      target, progress, duration := None, 0.0, 0.0;
      params, prevTimes := map[], map[];
      events := [];
    }

    method ResolveStateId(name: string) returns (id: StateId)
      requires Valid()
      modifies this
      ensures Valid() && View() == Resolve(old(View()), name) && name in ids && id == ids[name]
      ensures events == old(events)
    {
      hide Wellformed;
      ResolveKnows(View(), name);
      if name in ids {
        return ids[name];
      }
      id := |names|;
      names, ids := names + [name], ids[name := id];
      states, transitions, players := states + [None], transitions + [[]], players + [map[]];
    }

    method AddState(state: AnimationState)
      requires Valid()
      modifies this
      ensures Valid() && View() == WithState(old(View()), state) && events == old(events)
    {
      hide Wellformed, Clips;
      WithStateKeeps(View(), state);
      var id := ResolveStateId(state.name);
      KnownId(View(), state.name);
      var statePlayers: map<nat, Playback> := map[];
      var clips := Clips(state.tree);
      for k := 0 to |clips|
        invariant statePlayers == NewPlayers(clips[..k])
      {
        assert clips[..k + 1] == clips[..k] + [clips[k]];
        if clips[k] !in statePlayers {
          statePlayers := statePlayers[clips[k] := Playback(clips[k], 0.0, 1.0, true, true, false)];
        }
      }
      assert clips[..|clips|] == clips;
      players := players[id := statePlayers];
      states := states[id := Some(state)];
    }

    method AddTransition(from: string, to: string, duration: real, condition: Condition)
      requires Valid()
      modifies this
      ensures Valid() && View() == WithTransition(old(View()), from, to, duration, condition) && events == old(events)
    {
      hide Wellformed;
      WithTransitionKeeps(View(), from, to, duration, condition);
      ResolveKnows(View(), from);
      ResolveKnows(Resolve(View(), from), to);
      var fromId := ResolveStateId(from);
      var toId := ResolveStateId(to);
      KnownId(View(), from);
      transitions := transitions[fromId := transitions[fromId] + [Transition(toId, duration, condition)]];
    }

    method SetParameter(name: string, param: Parameter)
      requires Valid()
      modifies this
      ensures Valid() && View() == old(View()).(params := old(params)[name := param]) && events == old(events)
    {
      params := params[name := param];
    }

    /** Drives one state. */
    method DriveState(id: StateId, dt: real, clips: seq<Clip>) returns (ghost told: seq<AnimationEvent>)
      requires Valid() && id < |names|
      modifies `players, `prevTimes, `events
      ensures Valid() && View() == Drive(old(View()), id, dt, clips)
      ensures events == old(events) + told && Tells(told, old(View()), id, dt, clips)
    {
      hide Wellformed;
      AlignedTables(View());
      DriveKeeps(View(), id, dt, clips);
      ghost var m := View();
      told := [];
      if states[id].None? {
        return;
      }
      PlayersRun(View(), id);
      hide Move, Played, Times, TellsLoops;
      var step := Move(dt, states[id].value.speed);
      var driven, noted, news := AdvancePlayers(players[id], prevTimes, step, clips);
      players := players[id := driven];
      prevTimes := noted;
      events := events + news;
      told := news;
      assert View() == Drive(m, id, dt, clips);
    }

    method ChooseTransition()
      requires Valid()
      modifies this
      ensures Valid() && View() == Choose(old(View())) && events == old(events)
    {
      hide Wellformed;
      AlignedTables(View());
      ChooseKeeps(View());
      if target.Some? {
        return;
      }
      var k := 0;
      while k < |transitions[current]| && !Holds(transitions[current][k].condition, params)
        invariant k <= |transitions[current]|
        invariant FirstHolding(transitions[current], params) == FirstHolding(transitions[current][k..], params)
      {
        assert transitions[current][k..][1..] == transitions[current][k + 1..];
        k := k + 1;
      }
      if k < |transitions[current]| {
        var t := transitions[current][k];
        target, duration, progress := Some(t.to), t.duration, 0.0;
        if t.condition.OnTrigger? {
          params := params - {t.condition.name};
        }
      }
    }

    method CollectParts(id: StateId, factor: real, before: seq<ActiveAnimation>) returns (parts: seq<ActiveAnimation>)
      requires Aligned(View()) && id < |names|
      ensures parts == before + PartsOf(View(), id, factor)
    {
      parts := before;
      if states[id].None? {
        return;
      }
      var shares := Evaluate(states[id].value.tree, params);
      for k := 0 to |shares|
        invariant parts == before + Parts(shares[..k], players[id], factor)
      {
        hide Evaluate;
        assert shares[..k + 1][..k] == shares[..k];
        if shares[k].clip in players[id] {
          parts := parts + [ActiveAnimation(shares[k].clip, Scaled(shares[k].weight, factor), players[id][shares[k].clip].time)];
        }
      }
      assert shares[..|shares|] == shares;
    }

    /** The first part of an update. */
    method EnterFrame(dt: real, clips: seq<Clip>) returns (ghost told: seq<AnimationEvent>)
      requires Valid()
      modifies this
      ensures Valid() && View() == Entered(old(View()), dt, clips)
      ensures events == old(events) + told && Tells(told, old(View()), old(current), dt, clips)
    {
      hide Wellformed, Drive, Choose, TellsLoops;
      ghost var m := View();
      AlignedTables(m);
      ClocksAreFree(m, currentTime + dt, progress);
      currentTime := currentTime + dt;
      told := DriveState(current, dt, clips);
      DriveFrames(m.(currentTime := m.currentTime + dt), m.current, dt, clips);
      ChooseTransition();
    }

    /** The target of a transition joins in. */
    method FadeOn(dt: real, clips: seq<Clip>) returns (ghost told: seq<AnimationEvent>)
      requires Valid() && target.Some?
      modifies `players, `prevTimes, `events, `progress
      ensures Valid() && View() == Faded(old(View()), dt, clips)
      ensures events == old(events) + told && Tells(told, old(View()), target.value, dt, clips)
    {
      hide Wellformed, Drive, TellsLoops;
      ghost var m := View();
      AlignedTables(m);
      DriveFrames(m, target.value, dt, clips);
      told := DriveState(target.value, dt, clips);
      ClocksAreFree(View(), currentTime, progress + dt / Larger(duration, EPSILON));
      progress := progress + dt / Larger(duration, EPSILON);
    }

    /** What the current state and the target play. */
    method Collect() returns (parts: seq<ActiveAnimation>)
      requires Valid()
      ensures parts == AllParts(View())
    {
      hide Wellformed, PartsOf;
      AlignedTables(View());
      if target.Some? {
        var t := Clamp(progress);
        parts := CollectParts(current, 1.0 - t, []);
        parts := CollectParts(target.value, t, parts);
      } else {
        parts := CollectParts(current, 1.0, []);
      }
    }

    method Finish()
      requires Valid()
      modifies this
      ensures Valid() && View() == Switched(old(View())) && events == old(events)
    {
      hide Wellformed;
      SwitchKeeps(View());
      if target.Some? && progress >= 1.0 {
        current, currentTime := target.value, 0.0;
        target, progress, duration := None, 0.0, 0.0;
      }
    }

    /**
      The events tell of the loops of the current state and then of the target, and of the switch unless it starts and
      ends within this update; the end of a clip is never told.
    */
    method Update(dt: real, clips: seq<Clip>) returns (merged: seq<ActiveAnimation>)
      requires Valid()
      modifies this
      ensures Valid() && View() == Switched(Stepped(old(View()), dt, clips))
      ensures Merges(AllParts(Stepped(old(View()), dt, clips)), merged)
      ensures exists first, second ::
        && TellsUpdate(first, second, old(View()), dt, clips)
        && events == old(events) + first + second + if old(target).Some? && current != old(current)
             then [StateChanged(names[old(current)], names[current])] else []
    {
      hide Wellformed, AllParts, Entered, Merges, Drive, Larger, Tells;
      ghost var m := View();
      AlignedTables(m);
      var before, wasTransitioning := current, target.Some?;
      ghost var first := EnterFrame(dt, clips);
      ghost var second: seq<AnimationEvent> := [];
      AlignedTables(View());
      if target.Some? {
        second := FadeOn(dt, clips);
      }
      assert TellsUpdate(first, second, m, dt, clips);
      ghost var at := View();
      assert at == Stepped(m, dt, clips);
      var parts := Collect();
      Finish();
      assert View() == Switched(at);
      AlignedTables(View());
      if wasTransitioning && target.None? && current != before {
        events := events + [StateChanged(names[before], names[current])];
      }
      merged := MergeClips(parts);
    }
  }

  /** A transition that takes no time changes the state within one update, and nothing tells of it. */
  method UnreportedSwitch() returns (machine: AnimationStateMachine)
    ensures machine.Valid() && machine.names[machine.current] == "run" && machine.events == []
  {
    hide TellsLoops, Merges, AllParts, Played, Times;
    machine := new AnimationStateMachine("idle");
    machine.AddTransition("idle", "run", 0.0, Always);
    ghost var m := machine.View();
    assert "run" != "idle" && m.names == ["idle", "run"] && m.states == [None, None];
    assert m.transitions[0] == [Transition(1, 0.0, Always)];
    assert FirstHolding(m.transitions[0], m.params) == Some(Transition(1, 0.0, Always));
    assert Larger(0.0, EPSILON) == EPSILON && 1.0 / EPSILON >= 1.0;
    assert Stepped(m, 1.0, []).target == Some(1) && Stepped(m, 1.0, []).progress >= 1.0;
    var merged := machine.Update(1.0, []);
  }

  // ---------------------------------------------------------------------------------------------
  // Whole runs
  // ---------------------------------------------------------------------------------------------

  datatype Action =
    | Register(state: AnimationState)
    | Connect(from: string, to: string, duration: real, condition: Condition)
    | Set(name: string, param: Parameter)
    | Tick(dt: real, clips: seq<Clip>)

  function Act(m: Machine, a: Action): (r: Machine)
    requires Wellformed(m)
    ensures Wellformed(r)
  {
    match a
    case Register(state) => WithStateKeeps(m, state); WithState(m, state)
    case Connect(from, to, duration, condition) =>
      WithTransitionKeeps(m, from, to, duration, condition);
      WithTransition(m, from, to, duration, condition)
    case Set(name, param) => m.(params := m.params[name := param])
    case Tick(dt, clips) => Switched(Stepped(m, dt, clips))
  }

  function Run(m: Machine, actions: seq<Action>): (r: Machine)
    requires Wellformed(m)
    ensures Wellformed(r)
    decreases |actions|
  {
    if actions == [] then m else Run(Act(m, actions[0]), actions[1..])
  }

  ghost predicate AllVoiced(m: Machine)
    requires Wellformed(m)
  {
    forall id :: 0 <= id < |m.names| ==> Voiced(m, id)
  }

  /** States are registered with something to play, and transitions connect states that have been registered. */
  ghost predicate KeepsVoices(m: Machine, actions: seq<Action>)
    requires Wellformed(m)
    decreases |actions|
  {
    actions == [] ||
      ((actions[0].Register? ==> !IsEmpty(actions[0].state.tree))
       && (actions[0].Connect? ==> actions[0].from in m.ids && actions[0].to in m.ids)
       && KeepsVoices(Act(m, actions[0]), actions[1..]))
  }

  lemma ActKeepsVoices(m: Machine, a: Action)
    requires Wellformed(m) && AllVoiced(m) && KeepsVoices(m, [a])
    ensures AllVoiced(Act(m, a))
  {
    hide Wellformed, Stepped;
    AlignedTables(m);
    var r := Act(m, a);
    AlignedTables(r);
    if a.Register? {
      ResolveKnows(m, a.state.name);
      forall id | 0 <= id < |r.names|
        ensures Voiced(r, id)
      {
        assert id < |m.names| ==> Voiced(m, id);
      }
    } else {
      assert r.names == m.names && r.states == m.states;
      assert forall id :: 0 <= id < |r.names| ==> Voiced(r, id) == Voiced(m, id);
    }
  }

  /** Once every state has something to play, every later update returns weights that add up to one. */
  lemma {:induction false} EveryUpdateAddsUp(m: Machine, actions: seq<Action>, dt: real, clips: seq<Clip>,
                                             merged: seq<ActiveAnimation>)
    requires Wellformed(m) && AllVoiced(m) && KeepsVoices(m, actions)
    requires Merges(AllParts(Stepped(Run(m, actions), dt, clips)), merged)
    ensures TotalWeight(merged) == 1.0
    decreases |actions|
  {
    hide Wellformed, Act, Stepped, AllParts, Merges;
    if actions == [] {
      var at := Stepped(m, dt, clips);
      AlignedTables(m);
      AlignedTables(at);
      WeightsOfStepped(m, dt, clips, merged);
      assert forall id :: 0 <= id < |at.names| ==> Voiced(at, id) == Voiced(m, id);
    } else {
      assert KeepsVoices(m, [actions[0]]);
      ActKeepsVoices(m, actions[0]);
      EveryUpdateAddsUp(Act(m, actions[0]), actions[1..], dt, clips, merged);
    }
  }
}
