/** Detection of circular references between prefabs. */
module PrefabCycles {
  type Uuid = string

  datatype AssetKind = Model | Texture | Audio | Scene | Avatar | Material | Prefab | Other

  datatype Meta = Meta(kind: AssetKind, dependencies: seq<Uuid>)

  type Metas = map<Uuid, Meta>

  predicate IsPrefab(m: Metas, u: Uuid) {
    u in m && m[u].kind == Prefab
  }

  predicate Edge(m: Metas, u: Uuid, v: Uuid) {
    IsPrefab(m, u) && IsPrefab(m, v) && v in m[u].dependencies
  }

  predicate IsPath(m: Metas, p: seq<Uuid>) {
    forall i :: 0 <= i < |p| - 1 ==> Edge(m, p[i], p[i + 1])
  }

  /** A closed path of prefab references: its first and last elements are equal. */
  predicate IsCycle(m: Metas, p: seq<Uuid>) {
    |p| >= 2 && p[0] == p[|p| - 1] && IsPath(m, p)
  }

  ghost predicate Acyclic(m: Metas) {
    forall p :: !IsCycle(m, p)
  }

  /** Some reported cycle starts at `u`. */
  ghost predicate Starts(cycles: seq<seq<Uuid>>, u: Uuid) {
    exists c :: c in cycles && c != [] && c[0] == u
  }

  /** The cycle runs through the start of a reported one. */
  ghost predicate Covered(cycles: seq<seq<Uuid>>, p: seq<Uuid>) {
    exists i :: 0 <= i < |p| && Starts(cycles, p[i])
  }

  // ---------------------------------------------------------------------------------------------
  // A finishing order shows which cycles there can be
  // ---------------------------------------------------------------------------------------------

  /** Every reference of a finished prefab leads to one that finished earlier, or to the start of a reported cycle. */
  ghost predicate FinishOrder(m: Metas, done: seq<Uuid>, cycles: seq<seq<Uuid>>) {
    forall i, v :: 0 <= i < |done| && Edge(m, done[i], v) ==> v in done[..i] || Starts(cycles, v)
  }

  /** Reporting more cycles does no harm. */
  lemma MoreCycles(m: Metas, done: seq<Uuid>, cycles: seq<seq<Uuid>>, cycles': seq<seq<Uuid>>)
    requires cycles <= cycles'
    ensures FinishOrder(m, done, cycles) ==> FinishOrder(m, done, cycles')
    ensures forall u :: Starts(cycles, u) ==> Starts(cycles', u)
  {
    forall u | Starts(cycles, u) ensures Starts(cycles', u) {
      var c :| c in cycles && c != [] && c[0] == u;
      assert c in cycles';
    }
  }

  lemma StartsThere(cycles: seq<seq<Uuid>>, c: seq<Uuid>)
    requires c in cycles && c != []
    ensures Starts(cycles, c[0])
  {
  }

  lemma FinishOrderAppend(m: Metas, done: seq<Uuid>, cycles: seq<seq<Uuid>>, u: Uuid)
    requires FinishOrder(m, done, cycles) && forall v :: Edge(m, u, v) ==> v in done || Starts(cycles, v)
    ensures FinishOrder(m, done + [u], cycles)
  {
    var all := done + [u];
    forall i, v | 0 <= i < |all| && Edge(m, all[i], v) ensures v in all[..i] || Starts(cycles, v) {
      assert all[..i] == done[..i];
      if i == |done| {
        assert done[..i] == done;
      }
    }
  }

  /** Paths that avoid the starts of the reported cycles never leave a front part of the finishing order. */
  lemma {:induction false} PathStaysInFront(
    m: Metas, done: seq<Uuid>, cycles: seq<seq<Uuid>>, p: seq<Uuid>, k: nat)
    requires FinishOrder(m, done, cycles) && k <= |done| && IsPath(m, p) && p != [] && p[0] in done[..k]
    requires !Covered(cycles, p)
    ensures p[|p| - 1] in done[..k]
    decreases |p|
  {
    if |p| > 1 {
      var i :| 0 <= i < k && done[i] == p[0];
      assert Edge(m, p[0], p[1]) && p[1] in done[..i];
      assert forall j :: 0 <= j < |p[1..]| ==> p[1..][j] == p[j + 1];
      PathStaysInFront(m, done, cycles, p[1..], k);
    }
  }

  lemma CycleThroughFinished(m: Metas, done: seq<Uuid>, cycles: seq<seq<Uuid>>, p: seq<Uuid>)
    requires FinishOrder(m, done, cycles) && IsCycle(m, p) && p[0] in done
    ensures Covered(cycles, p)
  {
    var k :| 0 <= k < |done| && done[k] == p[0];
    while p[0] in done[..k]
      invariant 0 <= k < |done| && done[k] == p[0]
      decreases k
    {
      var j :| 0 <= j < k && done[..k][j] == p[0];
      k := j;
    }
    if !Covered(cycles, p) {
      assert Edge(m, p[0], p[1]) && p[1] in done[..k];
      assert forall j :: 0 <= j < |p[1..]| ==> p[1..][j] == p[j + 1];
      PathStaysInFront(m, done, cycles, p[1..], k);
    }
  }

  // ---------------------------------------------------------------------------------------------
  // The depth-first search
  // ---------------------------------------------------------------------------------------------

  /** The index of the first occurrence. */
  method Position(stack: seq<Uuid>, u: Uuid) returns (pos: nat)
    ensures pos <= |stack| && u !in stack[..pos]
    ensures pos < |stack| ==> stack[pos] == u
  {
    pos := 0;
    while pos < |stack| && stack[pos] != u
      invariant pos <= |stack| && u !in stack[..pos]
    {
      pos := pos + 1;
    }
  }

  /**
    What holds between two calls: the stack is a path, the recorded cycles are cycles, and everything visited is on
    the stack or finished, in a finishing order.
  */
  ghost predicate Searching(
    m: Metas, visited: set<Uuid>, stack: seq<Uuid>, cycles: seq<seq<Uuid>>, done: seq<Uuid>)
  {
    && IsPath(m, stack) && (forall u :: u in stack ==> u in visited)
    && (forall c :: c in cycles ==> IsCycle(m, c))
    && FinishOrder(m, done, cycles) && forall u :: u in visited ==> u in stack || u in done
  }

  /** `dfs_cycle_detect`, with the three mutable references as values that go in and come out. */
  method DfsCycleDetect(
    current: Uuid, m: Metas, visited: set<Uuid>, stack: seq<Uuid>, cycles: seq<seq<Uuid>>, ghost done: seq<Uuid>)
    returns (visited': set<Uuid>, stack': seq<Uuid>, cycles': seq<seq<Uuid>>, ghost done': seq<Uuid>)
    requires IsPrefab(m, current) && Searching(m, visited, stack, cycles, done)
    requires stack != [] ==> Edge(m, stack[|stack| - 1], current)
    ensures Searching(m, visited', stack', cycles', done')
    ensures stack' == stack && visited <= visited' && current in visited'
    ensures cycles <= cycles' && done <= done'
    ensures current in done' || Starts(cycles', current)
    decreases m.Keys - visited
  {
    hide FinishOrder, Starts;
    visited', stack', cycles', done' := visited, stack, cycles, done;
    var pos := Position(stack, current);
    if pos < |stack| {
      var cycle := stack[pos..] + [current];
      assert IsCycle(m, cycle);
      cycles' := cycles + [cycle];
      MoreCycles(m, done, cycles, cycles');
      StartsThere(cycles', cycle);
      return;
    }
    if current in visited {
      return;
    }
    visited' := visited + {current};
    stack' := stack + [current];
    var deps := m[current].dependencies;
    var i := 0;
    while i < |deps|
      invariant i <= |deps|
      invariant Searching(m, visited', stack', cycles', done') && stack' == stack + [current]
      invariant visited + {current} <= visited' && cycles <= cycles' && done <= done'
      invariant forall j :: 0 <= j < i && IsPrefab(m, deps[j]) ==> deps[j] in done' || Starts(cycles', deps[j])
    {
      var dep := deps[i];
      if dep in m && m[dep].kind == Prefab {
        ghost var before := cycles';
        visited', stack', cycles', done' := DfsCycleDetect(dep, m, visited', stack', cycles', done');
        MoreCycles(m, done', before, cycles');
      }
      i := i + 1;
    }
    stack' := stack'[..|stack'| - 1];
    assert stack' == stack;
    FinishOrderAppend(m, done', cycles', current);
    done' := done' + [current];
  }

  /**
    `check_prefab_cycle`: exact. It returns nothing if and only if there is no cycle, all that it returns are cycles, and
    every cycle runs through the start of a returned one. The prefabs are taken in any order.
  */
  method CheckPrefabCycle(m: Metas) returns (cycles: seq<seq<Uuid>>)
    ensures forall c :: c in cycles ==> IsCycle(m, c)
    ensures cycles == [] <==> Acyclic(m)
    ensures forall p :: IsCycle(m, p) ==> Covered(cycles, p)
  {
    cycles := [];
    var visited: set<Uuid>, stack: seq<Uuid> := {}, [];
    ghost var done: seq<Uuid> := [];
    var todo := m.Keys;
    while todo != {}
      invariant todo <= m.Keys && stack == []
      invariant Searching(m, visited, stack, cycles, done)
      invariant forall u :: u in m && u !in todo && IsPrefab(m, u) ==> u in visited
    {
      var u :| u in todo;
      todo := todo - {u};
      if m[u].kind != Prefab {
        continue;
      }
      if u in visited {
        continue;
      }
      visited, stack, cycles, done := DfsCycleDetect(u, m, visited, stack, cycles, done);
    }
    forall p | IsCycle(m, p) ensures Covered(cycles, p) {
      assert Edge(m, p[0], p[1]);
      CycleThroughFinished(m, done, cycles, p);
    }
    if cycles != [] {
      assert cycles[0] in cycles && IsCycle(m, cycles[0]);
    }
  }
}
