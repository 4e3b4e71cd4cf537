/** The area-of-interest grid: who sees whom, kept incrementally, with the changes reported as events. */
module GridAoi {
  import opened Basics

  type EntityId = nat
  type Cell = (int, int)
  type Position = (real, real, real)
  type Visibility = map<EntityId, set<EntityId>>

  datatype Event =
    | Enter(observer: EntityId, target: EntityId)
    | Leave(observer: EntityId, target: EntityId)

  /** An entity: where it is, how far it sees, and the cell it is filed under. */
  datatype Record = Record(pos: Position, radius: real, cell: Cell)

  predicate InCell(cells: map<Cell, set<EntityId>>, id: EntityId, c: Cell) {
    c in cells && id in cells[c]
  }

  predicate Sees(v: Visibility, o: EntityId, t: EntityId) {
    o in v && t in v[o]
  }

  // ---------------------------------------------------------------------------------------------
  // Replaying events, pair by pair
  // ---------------------------------------------------------------------------------------------

  /** Whether `o` sees `t` after the events, if `before` says so at first: the last event of the pair decides. */
  function Replay(events: seq<Event>, o: EntityId, t: EntityId, before: bool): bool {
    if events == [] then before else
      var e := events[|events| - 1];
      if e.observer == o && e.target == t then e.Enter? else Replay(events[..|events| - 1], o, t, before)
  }

  lemma {:induction false} ReplayConcat(first: seq<Event>, second: seq<Event>, o: EntityId, t: EntityId, before: bool)
    ensures Replay(first + second, o, t, before) == Replay(second, o, t, Replay(first, o, t, before))
    decreases |second|
  {
    if second == [] {
      assert first + second == first;
    } else {
      var n := |second| - 1;
      assert (first + second)[..|first| + n] == first + second[..n];
      ReplayConcat(first, second[..n], o, t, before);
    }
  }

  /** Events about other pairs change nothing. */
  lemma {:induction false} ReplayUntouched(events: seq<Event>, o: EntityId, t: EntityId, before: bool)
    requires forall e :: e in events ==> e.observer != o || e.target != t
    ensures Replay(events, o, t, before) == before
    decreases |events|
  {
    if events != [] {
      var n := |events| - 1;
      assert events[n] in events;
      assert forall e :: e in events[..n] ==> e in events;
      ReplayUntouched(events[..n], o, t, before);
    }
  }

  /** No event is redundant: each tells of a change when its turn comes. */
  ghost predicate News(events: seq<Event>, v: Visibility) {
    forall i :: 0 <= i < |events| ==>
      var e := events[i];
      Replay(events[..i], e.observer, e.target, Sees(v, e.observer, e.target)) == e.Leave?
  }

  /** The events lead from `v` to `v'`, and none of them is redundant. */
  ghost predicate Explains(events: seq<Event>, v: Visibility, v': Visibility) {
    (forall o, t :: Sees(v', o, t) == Replay(events, o, t, Sees(v, o, t))) && News(events, v)
  }

  lemma NewsPush(events: seq<Event>, e: Event, v: Visibility)
    requires News(events, v) && Replay(events, e.observer, e.target, Sees(v, e.observer, e.target)) == e.Leave?
    ensures News(events + [e], v)
  {
    hide Replay, Sees;
    var all := events + [e];
    forall i | 0 <= i < |all|
      ensures Replay(all[..i], all[i].observer, all[i].target, Sees(v, all[i].observer, all[i].target)) == all[i].Leave?
    {
      assert all[..i] == events[..i];
      assert i == |events| ==> events[..i] == events;
    }
  }

  lemma NewsConcat(first: seq<Event>, second: seq<Event>, v: Visibility, v': Visibility)
    requires Explains(first, v, v') && News(second, v')
    ensures News(first + second, v)
  {
    hide Replay, Sees;
    var all := first + second;
    forall i | 0 <= i < |all|
      ensures Replay(all[..i], all[i].observer, all[i].target, Sees(v, all[i].observer, all[i].target)) == all[i].Leave?
    {
      if i < |first| {
        assert all[..i] == first[..i] && all[i] == first[i];
      } else {
        var e, j := all[i], i - |first|;
        assert all[..i] == first + second[..j] && e == second[j];
        ReplayConcat(first, second[..j], e.observer, e.target, Sees(v, e.observer, e.target));
      }
    }
  }

  lemma NoNews(v: Visibility)
    ensures News([], v)
  {
  }

  lemma ExplainsNothing(v: Visibility)
    ensures Explains([], v, v)
  {
  }

  lemma ExplainsConcat(first: seq<Event>, second: seq<Event>, v: Visibility, v': Visibility, v'': Visibility)
    requires Explains(first, v, v') && Explains(second, v', v'')
    ensures Explains(first + second, v, v'')
  {
    hide Replay, Sees, News;
    NewsConcat(first, second, v, v');
    forall o, t ensures Sees(v'', o, t) == Replay(first + second, o, t, Sees(v, o, t)) {
      ReplayConcat(first, second, o, t, Sees(v, o, t));
      assert Sees(v', o, t) == Replay(first, o, t, Sees(v, o, t));
    }
  }

  // ---------------------------------------------------------------------------------------------
  // The definition that the grid is measured against
  // ---------------------------------------------------------------------------------------------

  function Ceil(x: real): int {
    -(-x).Floor
  }

  function CellOf(pos: Position, cellSize: real): Cell
    requires cellSize > 0.0
  {
    ((pos.0 / cellSize).Floor, (pos.2 / cellSize).Floor)
  }

  /** Where the cells of index `n` begin, on either axis. */
  function Edge(n: int, cellSize: real): real {
    n as real * cellSize
  }

  /** The position lies on the square of the cell; height does not matter. */
  predicate Covers(c: Cell, pos: Position, cellSize: real) {
    && Edge(c.0, cellSize) <= pos.0 < Edge(c.0 + 1, cellSize)
    && Edge(c.1, cellSize) <= pos.2 < Edge(c.1 + 1, cellSize)
  }

  lemma CellCovers(pos: Position, cellSize: real)
    requires cellSize > 0.0
    ensures Covers(CellOf(pos, cellSize), pos, cellSize)
  {
    FloorBounds(pos.0, cellSize);
    FloorBounds(pos.2, cellSize);
    EdgeSum((pos.0 / cellSize).Floor, 1, cellSize);
    EdgeSum((pos.2 / cellSize).Floor, 1, cellSize);
  }

  lemma EdgeSum(m: int, n: int, cellSize: real)
    ensures Edge(m + n, cellSize) == Edge(m, cellSize) + Edge(n, cellSize)
    ensures Edge(1, cellSize) == cellSize
  {
  }

  lemma EdgeOrder(m: int, n: int, cellSize: real)
    requires cellSize > 0.0
    ensures m <= n <==> Edge(m, cellSize) <= Edge(n, cellSize)
  {
    Product((n - m) as real, cellSize);
    EdgeSum(m, n - m, cellSize);
  }

  /** Every entity lies on the square of its cell, and no radius is negative. */
  ghost predicate Located(entities: map<EntityId, Record>, cellSize: real) {
    forall id :: id in entities ==> Covers(entities[id].cell, entities[id].pos, cellSize) && entities[id].radius >= 0.0
  }

  lemma LocatedAt(entities: map<EntityId, Record>, cellSize: real, id: EntityId, pos: Position, radius: real)
    requires cellSize > 0.0 && radius >= 0.0 && Located(entities, cellSize)
    ensures Located(entities[id := Record(pos, radius, CellOf(pos, cellSize))], cellSize)
    ensures id in entities ==>
      Located(entities[id := entities[id].(pos := pos, cell := CellOf(pos, cellSize))], cellSize)
  {
    hide CellOf, Covers;
    CellCovers(pos, cellSize);
  }

  lemma LocatedWithout(entities: map<EntityId, Record>, cellSize: real, id: EntityId)
    requires Located(entities, cellSize)
    ensures Located(entities - {id}, cellSize)
  {
    hide Covers;
  }

  /** The radius in cells, at least one. */
  function Reach(r: Record, cellSize: real): int
    requires cellSize > 0.0
  {
    Max(Ceil(r.radius / cellSize), 1)
  }

  predicate Within(c: Cell, d: Cell, n: int) {
    c.0 - n <= d.0 <= c.0 + n && c.1 - n <= d.1 <= c.1 + n
  }

  /** `t` is another entity in the cell range of `o`. */
  predicate InRange(entities: map<EntityId, Record>, cellSize: real, o: EntityId, t: EntityId)
    requires cellSize > 0.0
  {
    o in entities && t in entities && o != t
    && Within(entities[o].cell, entities[t].cell, Reach(entities[o], cellSize))
  }

  function Range(entities: map<EntityId, Record>, cellSize: real, o: EntityId): set<EntityId>
    requires cellSize > 0.0
  {
    set t | t in entities && InRange(entities, cellSize, o, t)
  }

  /** Whoever reaches at least as far is in range too. */
  lemma RangeSymmetry(entities: map<EntityId, Record>, cellSize: real, o: EntityId, t: EntityId)
    requires cellSize > 0.0 && InRange(entities, cellSize, o, t)
    requires Reach(entities[o], cellSize) <= Reach(entities[t], cellSize)
    ensures InRange(entities, cellSize, t, o)
  {
  }

  /** Whoever `id` sees, or is seen by. */
  ghost predicate Linked(v: Visibility, id: EntityId, o: EntityId) {
    Sees(v, id, o) || Sees(v, o, id)
  }

  // ---------------------------------------------------------------------------------------------
  // The grid
  // ---------------------------------------------------------------------------------------------

  class Grid {
    const cellSize: real
    var cells: map<Cell, set<EntityId>>
    var entities: map<EntityId, Record>
    var lastVisible: Visibility
    var pending: seq<Event>
    /** The entities that were updated at least once since they were inserted. */
    ghost var settled: set<EntityId>

    /** The buckets hold exactly the entities, each in the bucket of its cell. */
    ghost predicate Indexed()
      reads this`cells, this`entities
    {
      forall id, c :: InCell(cells, id, c) <==> id in entities && entities[id].cell == c
    }

    /** Nobody is seen who is not in range. */
    ghost predicate Sound()
      reads this`entities, this`lastVisible
      requires cellSize > 0.0
    {
      forall o, t :: Sees(lastVisible, o, t) ==> InRange(entities, cellSize, o, t)
    }

    /** Every settled target in range is seen by every observer that does not reach further than the target. */
    ghost predicate ExactOnSettled()
      reads this`entities, this`lastVisible, this`settled
      requires cellSize > 0.0
    {
      forall o, t |
        t in settled && InRange(entities, cellSize, o, t)
        && Reach(entities[o], cellSize) <= Reach(entities[t], cellSize) :: Sees(lastVisible, o, t)
    }

    ghost predicate Valid()
      reads this`cells, this`entities, this`lastVisible, this`settled
    {
      && cellSize > 0.0
      && Indexed() && Located(entities, cellSize) && lastVisible.Keys == entities.Keys && settled <= entities.Keys
      && Sound() && ExactOnSettled()
    }

    constructor (cellSize: real)
      ensures Valid() && entities == map[] && lastVisible == map[] && pending == [] && settled == {}
      ensures this.cellSize == if cellSize < 0.001 then 0.001 else cellSize
    {
      this.cellSize := if cellSize < 0.001 then 0.001 else cellSize;
      cells, entities, lastVisible, pending := map[], map[], map[], [];
      settled := {};
    }

    method ComputeVisible(id: EntityId) returns (visible: set<EntityId>)
      requires cellSize > 0.0 && Indexed()
      ensures visible == if id in entities then Range(entities, cellSize, id) else {}
    {
      visible := {};
      if id !in entities {
        return;
      }
      var (cx, cz) := entities[id].cell;
      var n := Max(Ceil(entities[id].radius / cellSize), 1);
      var dx := -n;
      while dx <= n
        invariant -n <= dx <= n + 1
        invariant forall t :: t in visible <==>
          t in entities && t != id && var (x, z) := entities[t].cell; cx - n <= x < cx + dx && cz - n <= z <= cz + n
      {
        var dz := -n;
        while dz <= n
          invariant -n <= dz <= n + 1
          invariant forall t :: t in visible <==>
            t in entities && t != id && var (x, z) := entities[t].cell;
              (cx - n <= x < cx + dx && cz - n <= z <= cz + n) || (x == cx + dx && cz - n <= z < cz + dz)
        {
          var c := (cx + dx, cz + dz);
          assert forall t :: InCell(cells, t, c) <==> t in entities && entities[t].cell == c;
          if c in cells {
            visible := visible + (cells[c] - {id});
          }
          dz := dz + 1;
        }
        dx := dx + 1;
      }
    }

    /** The events speak of entities of the grid only. */
    ghost predicate Local(events: seq<Event>)
      reads this`entities
    {
      forall e :: e in events ==> e.observer in entities && e.target in entities
    }

    /** Brings one observer up to date; the difference goes to the events, in any order. */
    method RecomputeAndDiff(id: EntityId) returns (ghost events: seq<Event>)
      requires cellSize > 0.0 && Indexed() && id in entities
      requires forall t :: Sees(lastVisible, id, t) ==> t in entities
      modifies this`lastVisible, this`pending
      ensures lastVisible == old(lastVisible)[id := Range(entities, cellSize, id)]
      ensures pending == old(pending) + events && Explains(events, old(lastVisible), lastVisible) && Local(events)
    {
      hide News, Reach, Within;
      NoNews(lastVisible);
      var now := ComputeVisible(id);
      var prev := if id in lastVisible then lastVisible[id] else {};
      assert forall t :: t in prev <==> Sees(lastVisible, id, t);
      lastVisible := lastVisible - {id};
      events := [];
      var entering := now - prev;
      while entering != {}
        invariant entering <= now - prev && pending == old(pending) + events && News(events, old(lastVisible))
        invariant lastVisible == old(lastVisible) - {id}
        invariant forall e :: e in events ==> e.observer == id && e.target in now
        invariant forall t :: Replay(events, id, t, t in prev) <==> t in prev || t in (now - prev) - entering
      {
        var t :| t in entering;
        NewsPush(events, Enter(id, t), old(lastVisible));
        events := Push(Enter(id, t), events);
        entering := entering - {t};
      }
      var leaving := prev - now;
      while leaving != {}
        invariant leaving <= prev - now && pending == old(pending) + events && News(events, old(lastVisible))
        invariant lastVisible == old(lastVisible) - {id}
        invariant forall e :: e in events ==> e.observer == id && (e.target in now || e.target in prev)
        invariant forall t :: Replay(events, id, t, t in prev) <==> t in now || t in leaving
      {
        var t :| t in leaving;
        NewsPush(events, Leave(id, t), old(lastVisible));
        events := Push(Leave(id, t), events);
        leaving := leaving - {t};
      }
      lastVisible := lastVisible[id := now];
      forall o, t ensures Sees(lastVisible, o, t) == Replay(events, o, t, Sees(old(lastVisible), o, t)) {
        if o != id {
          ReplayUntouched(events, o, t, Sees(old(lastVisible), o, t));
        } else {
          assert Sees(old(lastVisible), o, t) == (t in prev);
        }
      }
    }

    method Push(e: Event, ghost events: seq<Event>) returns (ghost events': seq<Event>)
      modifies this`pending
      ensures pending == old(pending) + [e] && events' == events + [e]
      ensures forall o, t, before ::
        Replay(events', o, t, before)
        == (if o == e.observer && t == e.target then e.Enter? else Replay(events, o, t, before))
    {
      pending := pending + [e];
      events' := events + [e];
      assert events'[..|events'| - 1] == events;
    }

    /** A loop of `RecomputeAndDiff` over some observers, in any order; those without a record are left out. */
    method RecomputeAll(observers: set<EntityId>) returns (ghost events: seq<Event>)
      requires cellSize > 0.0 && Indexed() && lastVisible.Keys == entities.Keys
      requires forall o, t :: Sees(lastVisible, o, t) ==> t in entities
      modifies this`lastVisible, this`pending
      ensures lastVisible == map o | o in entities ::
        if o in observers then Range(entities, cellSize, o) else old(lastVisible)[o]
      ensures pending == old(pending) + events && Explains(events, old(lastVisible), lastVisible) && Local(events)
    {
      hide Reach, Within, Explains;
      ExplainsNothing(lastVisible);
      events := [];
      var todo := observers;
      while todo != {}
        invariant todo <= observers && lastVisible.Keys == entities.Keys
        invariant forall o :: o in entities ==>
          lastVisible[o] == if o in observers - todo then Range(entities, cellSize, o) else old(lastVisible)[o]
        invariant pending == old(pending) + events && Explains(events, old(lastVisible), lastVisible) && Local(events)
      {
        var n :| n in todo;
        todo := todo - {n};
        if n in entities {
          assert forall t :: Sees(lastVisible, n, t) ==> t in entities by {
            assert forall t :: t in old(lastVisible)[n] ==> Sees(old(lastVisible), n, t);
          }
          ghost var v, first := lastVisible, events;
          var more := RecomputeAndDiff(n);
          events := first + more;
          ExplainsConcat(first, more, old(lastVisible), v, lastVisible);
        }
      }
    }

    /** `insert`: a known entity is moved; a new one is computed together with the residents of its cell only. */
    method Insert(id: EntityId, pos: Position, radius: real) returns (ghost events: seq<Event>)
      requires Valid()
      modifies this
      ensures Valid()
      ensures entities.Keys == old(entities.Keys) + {id} && settled == old(settled) + (if id in old(entities) then {id} else {})
      ensures pending == old(pending) + events && Explains(events, old(lastVisible), lastVisible) && Local(events)
      ensures id !in old(entities) ==> Joined(old(entities), old(lastVisible), id, pos, radius)
      ensures id in old(entities) ==> Moved(old(entities), old(lastVisible), id, pos)
    {
      hide Reach, CellOf, Within, Explains, Located;
      if id in entities {
        events := Update(id, pos);
        return;
      }
      var cell := CellOf(pos, cellSize);
      AddToCell(cell, id);
      entities := entities[id := Record(pos, if radius < 0.0 then 0.0 else radius, cell)];
      events := RecomputeCell(id, cell);
      SettledAfterInsert(old(entities), old(lastVisible), id, pos, radius);
      LocatedAt(old(entities), cellSize, id, pos, if radius < 0.0 then 0.0 else radius);
    }

    /** The recomputations of `insert`: the new entity and the other residents of its cell. */
    method RecomputeCell(id: EntityId, cell: Cell) returns (ghost events: seq<Event>)
      requires cellSize > 0.0 && Indexed() && id in entities && entities[id].cell == cell
      requires lastVisible.Keys == entities.Keys - {id}
      requires forall o, t :: Sees(lastVisible, o, t) ==> t in entities
      modifies this`lastVisible, this`pending
      ensures lastVisible == map o | o in entities ::
        if o == id || entities[o].cell == cell then Range(entities, cellSize, o) else old(lastVisible)[o]
      ensures pending == old(pending) + events && Explains(events, old(lastVisible), lastVisible) && Local(events)
    {
      hide Reach, Within, Explains;
      var first := RecomputeAndDiff(id);
      ghost var v := lastVisible;
      var neighbors := (if cell in cells then cells[cell] else {}) - {id};
      assert forall o :: o in neighbors <==> InCell(cells, o, cell) && o != id;
      assert forall o, t :: Sees(v, o, t) ==> Sees(old(lastVisible), o, t) || t in entities;
      var more := RecomputeAll(neighbors);
      events := first + more;
      ExplainsConcat(first, more, old(lastVisible), v, lastVisible);
      assert pending == old(pending) + events;
    }

    /** The state after `id` joined: it and the residents of its cell are exact, nobody else has noticed. */
    ghost predicate Joined(
      entities0: map<EntityId, Record>, v: Visibility, id: EntityId, pos: Position, radius: real)
      reads this`entities, this`lastVisible
      requires cellSize > 0.0 && v.Keys == entities0.Keys && id !in entities0
    {
      var cell := CellOf(pos, cellSize);
      && entities == entities0[id := Record(pos, if radius < 0.0 then 0.0 else radius, cell)]
      && lastVisible.Keys == entities.Keys
      && forall o :: o in entities ==>
           lastVisible[o] == if entities[o].cell == cell then Range(entities, cellSize, o) else v[o]
    }

    lemma SettledAfterInsert(
      entities0: map<EntityId, Record>, v: Visibility, id: EntityId, pos: Position, radius: real)
      requires cellSize > 0.0 && v.Keys == entities0.Keys && id !in entities0 && settled <= entities0.Keys
      requires Joined(entities0, v, id, pos, radius)
      requires forall o, t |
        t in settled && InRange(entities0, cellSize, o, t)
        && Reach(entities0[o], cellSize) <= Reach(entities0[t], cellSize) :: Sees(v, o, t)
      requires forall o, t :: Sees(v, o, t) ==> InRange(entities0, cellSize, o, t)
      ensures ExactOnSettled() && Sound()
    {
      hide Reach, CellOf, Within, Explains;
      forall o, t |
        t in settled && InRange(entities, cellSize, o, t)
        && Reach(entities[o], cellSize) <= Reach(entities[t], cellSize)
        ensures Sees(lastVisible, o, t)
      {
        if o != id {
          assert InRange(entities0, cellSize, o, t);
        }
      }
      forall o, t | Sees(lastVisible, o, t) ensures InRange(entities, cellSize, o, t) {
        if lastVisible[o] != Range(entities, cellSize, o) {
          assert Sees(v, o, t) && InRange(entities0, cellSize, o, t);
        }
      }
    }

    method AddToCell(cell: Cell, id: EntityId)
      modifies this`cells
      ensures forall c, n :: InCell(cells, n, c) <==> InCell(old(cells), n, c) || (c == cell && n == id)
    {
      if cell !in cells {
        cells := cells[cell := {}];
      }
      cells := cells[cell := cells[cell] + {id}];
    }

    /** Empty buckets are dropped. */
    method RemoveFromCell(cell: Cell, id: EntityId)
      modifies this`cells
      ensures forall c, n :: InCell(cells, n, c) <==> InCell(old(cells), n, c) && !(c == cell && n == id)
    {
      if cell in cells {
        cells := cells[cell := cells[cell] - {id}];
        if cells[cell] == {} {
          assert forall n :: n in old(cells)[cell] && n != id ==> n in cells[cell];
          cells := cells - {cell};
        }
      }
    }

    /** The part of `update` that moves the record and its place in the buckets. */
    method MoveRecord(id: EntityId, pos: Position)
      requires cellSize > 0.0 && Indexed() && id in entities
      modifies this`cells, this`entities
      ensures Indexed()
      ensures entities == old(entities)[id := old(entities)[id].(pos := pos, cell := CellOf(pos, cellSize))]
    {
      hide CellOf;
      var rec := entities[id];
      var newCell := CellOf(pos, cellSize);
      if newCell != rec.cell {
        RemoveFromCell(rec.cell, id);
        AddToCell(newCell, id);
      }
      entities := entities[id := rec.(pos := pos, cell := newCell)];
    }

    /** The state after `id` moved to `pos`: it and everyone linked to it before or in its range now are exact. */
    ghost predicate Moved(entities0: map<EntityId, Record>, v: Visibility, id: EntityId, pos: Position)
      reads this`entities, this`lastVisible
      requires cellSize > 0.0 && id in entities0
    {
      && entities == entities0[id := entities0[id].(pos := pos, cell := CellOf(pos, cellSize))]
      && lastVisible.Keys == entities.Keys == v.Keys
      && forall o :: o in entities ==>
           lastVisible[o] ==
             if o == id || Linked(v, id, o) || InRange(entities, cellSize, id, o) then Range(entities, cellSize, o)
             else v[o]
    }

    /** `update`. */
    method Update(id: EntityId, pos: Position) returns (ghost events: seq<Event>)
      requires Valid()
      modifies this
      ensures Valid()
      ensures pending == old(pending) + events && Explains(events, old(lastVisible), lastVisible) && Local(events)
      ensures id !in old(entities) ==>
        entities == old(entities) && lastVisible == old(lastVisible) && settled == old(settled) && events == []
      ensures id in old(entities) ==> settled == old(settled) + {id} && Moved(old(entities), old(lastVisible), id, pos)
    {
      hide Reach, CellOf, Within, Explains, Located;
      events := [];
      ExplainsNothing(lastVisible);
      if id !in entities {
        return;
      }
      var affected := (if id in lastVisible then lastVisible[id] else {})
        + (set o | o in lastVisible && id in lastVisible[o]) - {id};
      MoveRecord(id, pos);
      settled := settled + {id};
      assert forall o :: o in affected <==> Linked(lastVisible, id, o) && o != id;
      events := RecomputeLinked(id, affected);
      SettledAfterMove(old(entities), old(lastVisible), old(settled), id, pos);
      LocatedAt(old(entities), cellSize, id, pos, 0.0);
    }

    /** The recomputations of `update`: the moved entity, those affected, and those that it sees now. */
    method RecomputeLinked(id: EntityId, affected: set<EntityId>) returns (ghost events: seq<Event>)
      requires cellSize > 0.0 && Indexed() && lastVisible.Keys == entities.Keys && id in entities
      requires forall o, t :: Sees(lastVisible, o, t) ==> t in entities
      modifies this`lastVisible, this`pending
      ensures lastVisible == map o | o in entities ::
        if o == id || o in affected || InRange(entities, cellSize, id, o) then Range(entities, cellSize, o)
        else old(lastVisible)[o]
      ensures pending == old(pending) + events && Explains(events, old(lastVisible), lastVisible) && Local(events)
    {
      hide Reach, Within, Explains;
      var first := RecomputeAndDiff(id);
      ghost var v := lastVisible;
      assert forall o, t :: Sees(v, o, t) ==> Sees(old(lastVisible), o, t) || t in entities;
      var more := RecomputeAll(affected + lastVisible[id]);
      events := first + more;
      ExplainsConcat(first, more, old(lastVisible), v, lastVisible);
      assert pending == old(pending) + events;
    }

    lemma SettledAfterMove(
      entities0: map<EntityId, Record>, v: Visibility, settled0: set<EntityId>, id: EntityId, pos: Position)
      requires cellSize > 0.0 && id in entities0 && Moved(entities0, v, id, pos) && settled == settled0 + {id}
      requires forall o, t |
        t in settled0 && InRange(entities0, cellSize, o, t)
        && Reach(entities0[o], cellSize) <= Reach(entities0[t], cellSize) :: Sees(v, o, t)
      requires forall o, t :: Sees(v, o, t) ==> InRange(entities0, cellSize, o, t)
      ensures ExactOnSettled() && Sound()
    {
      forall o, t |
        t in settled && InRange(entities, cellSize, o, t)
        && Reach(entities[o], cellSize) <= Reach(entities[t], cellSize)
        ensures Sees(lastVisible, o, t)
      {
        if t == id {
          RangeSymmetry(entities, cellSize, o, t);
        } else if lastVisible[o] == v[o] && o != id {
          SameReach(entities0, o, id, pos);
          SameReach(entities0, t, id, pos);
          assert InRange(entities0, cellSize, o, t);
        }
      }
      forall o, t | Sees(lastVisible, o, t) ensures InRange(entities, cellSize, o, t) {
        if lastVisible[o] == v[o] && o != id && !Linked(v, id, o) {
          assert Sees(v, o, t) && InRange(entities0, cellSize, o, t) && t != id;
          SameReach(entities0, o, id, pos);
        }
      }
    }

    lemma SameReach(entities0: map<EntityId, Record>, o: EntityId, id: EntityId, pos: Position)
      requires cellSize > 0.0 && id in entities0 && o in entities0
      requires entities == entities0[id := entities0[id].(pos := pos, cell := CellOf(pos, cellSize))]
      ensures Reach(entities[o], cellSize) == Reach(entities0[o], cellSize)
      ensures o != id ==> entities[o] == entities0[o]
    {
    }

    /** The loop of `remove` over everyone who sees `id`. */
    method NotifyObservers(id: EntityId) returns (ghost events: seq<Event>)
      modifies this`lastVisible, this`pending
      ensures lastVisible.Keys == old(lastVisible.Keys)
      ensures forall o :: o in lastVisible ==> lastVisible[o] == old(lastVisible)[o] - {id}
      ensures pending == old(pending) + events
      ensures forall o :: Leave(o, id) in events <==> Sees(old(lastVisible), o, id)
      ensures (forall e :: e in events ==> e == Leave(e.observer, id)) && News(events, old(lastVisible))
    {
      hide News;
      NoNews(lastVisible);
      events := [];
      var observers := set o | o in lastVisible && id in lastVisible[o];
      var todo := observers;
      while todo != {}
        invariant todo <= observers && lastVisible.Keys == old(lastVisible.Keys)
        invariant forall o :: o in lastVisible ==>
          lastVisible[o] == if o in todo then old(lastVisible)[o] else old(lastVisible)[o] - {id}
        invariant pending == old(pending) + events && News(events, old(lastVisible))
        invariant forall o :: Leave(o, id) in events <==> o in observers - todo
        invariant forall e :: e in events ==> e == Leave(e.observer, id)
      {
        var o :| o in todo;
        todo := todo - {o};
        ReplayUntouched(events, o, id, true);
        NewsPush(events, Leave(o, id), old(lastVisible));
        lastVisible := lastVisible[o := lastVisible[o] - {id}];
        pending := pending + [Leave(o, id)];
        events := events + [Leave(o, id)];
      }
    }

    /** `remove`: the observers of `id` are told, its own view is dropped silently. */
    method Remove(id: EntityId) returns (ghost events: seq<Event>)
      requires Valid()
      modifies this
      ensures Valid()
      ensures pending == old(pending) + events
      ensures id !in old(entities) ==>
        entities == old(entities) && lastVisible == old(lastVisible) && settled == old(settled) && events == []
      ensures id in old(entities) ==>
        && settled == old(settled) - {id} && Left(old(entities), old(lastVisible), id)
        && (forall o :: Leave(o, id) in events <==> Sees(old(lastVisible), o, id))
        && (forall e :: e in events ==> e == Leave(e.observer, id))
      ensures News(events, old(lastVisible))
    {
      hide Reach, CellOf, Within, Explains, News, Located;
      NoNews(lastVisible);
      events := [];
      if id !in entities {
        return;
      }
      var rec := entities[id];
      entities := entities - {id};
      settled := settled - {id};
      RemoveFromCell(rec.cell, id);
      events := NotifyObservers(id);
      lastVisible := lastVisible - {id};
      SettledAfterRemove(old(entities), old(lastVisible), old(settled), id);
      LocatedWithout(old(entities), cellSize, id);
    }

    /** The state after `id` left: nobody sees it, and nothing else is different. */
    ghost predicate Left(entities0: map<EntityId, Record>, v: Visibility, id: EntityId)
      reads this`entities, this`lastVisible
      requires v.Keys == entities0.Keys
    {
      && entities == entities0 - {id} && lastVisible.Keys == entities.Keys
      && forall o :: o in entities ==> lastVisible[o] == v[o] - {id}
    }

    lemma SettledAfterRemove(
      entities0: map<EntityId, Record>, v: Visibility, settled0: set<EntityId>, id: EntityId)
      requires cellSize > 0.0 && v.Keys == entities0.Keys
      requires Left(entities0, v, id) && settled == settled0 - {id}
      requires forall o, t |
        t in settled0 && InRange(entities0, cellSize, o, t)
        && Reach(entities0[o], cellSize) <= Reach(entities0[t], cellSize) :: Sees(v, o, t)
      requires forall o, t :: Sees(v, o, t) ==> InRange(entities0, cellSize, o, t)
      ensures ExactOnSettled() && Sound()
    {
      hide Reach, Within;
      forall o, t |
        t in settled && InRange(entities, cellSize, o, t)
        && Reach(entities[o], cellSize) <= Reach(entities[t], cellSize)
        ensures Sees(lastVisible, o, t)
      {
        assert InRange(entities0, cellSize, o, t) && Sees(v, o, t);
      }
      forall o, t | Sees(lastVisible, o, t) ensures InRange(entities, cellSize, o, t) {
        assert Sees(v, o, t) && InRange(entities0, cellSize, o, t);
      }
    }

    method Observers(target: EntityId) returns (r: set<EntityId>)
      requires Valid()
      ensures forall o :: o in r <==> Sees(lastVisible, o, target)
    {
      r := set o | o in lastVisible && target in lastVisible[o];
    }

    method TakeEvents() returns (events: seq<Event>)
      modifies this`pending
      ensures events == old(pending) && pending == []
    {
      events := pending;
      pending := [];
    }
  }

  // ---------------------------------------------------------------------------------------------
  // Cells and distances
  // ---------------------------------------------------------------------------------------------

  function Distance(x: real, y: real): real {
    if x < y then y - x else x - y
  }

  /** On one axis: a distance of at most `n` cells leads at most `n` cells on, and that less than `n + 1` cells far. */
  lemma AxisStep(a: int, b: int, x: real, y: real, n: int, cellSize: real)
    requires cellSize > 0.0
    requires Edge(a, cellSize) <= x < Edge(a + 1, cellSize) && Edge(b, cellSize) <= y < Edge(b + 1, cellSize)
    ensures y - x <= Edge(n, cellSize) ==> b <= a + n
    ensures b <= a + n ==> y - x < Edge(n + 1, cellSize)
  {
    hide Edge;
    EdgeSum(a + 1, n, cellSize);
    EdgeSum(a, n + 1, cellSize);
    EdgeOrder(a + 1 + n, b, cellSize);
    EdgeOrder(b + 1, a + (n + 1), cellSize);
  }

  /** The reach in cells covers the radius, by less than a cell unless it is the least one. */
  lemma ReachOfRadius(r: Record, cellSize: real)
    requires cellSize > 0.0
    ensures
      var n := Reach(r, cellSize);
      n >= 1 && r.radius <= Edge(n, cellSize) && (n > 1 ==> Edge(n - 1, cellSize) < r.radius)
  {
    var c := Ceil(r.radius / cellSize);
    FloorBounds(-r.radius, cellSize);
    assert -r.radius / cellSize == -(r.radius / cellSize);
    EdgeSum(c, -c, cellSize);
    EdgeSum(c - 1, 1, cellSize);
    hide Edge;
    EdgeOrder(c, Reach(r, cellSize), cellSize);
  }

  /** Both points lie less than the given distance apart on the ground, along either axis. */
  predicate Closer(p: Position, q: Position, distance: real) {
    -distance < q.0 - p.0 < distance && -distance < q.2 - p.2 < distance
  }

  /** The second point lies on the square around the first one that is `radius` wide on each side. */
  predicate Near(p: Position, q: Position, radius: real) {
    -radius <= q.0 - p.0 <= radius && -radius <= q.2 - p.2 <= radius
  }

  lemma WithinAndDistance(r: Record, s: Record, cellSize: real)
    requires cellSize > 0.0 && Covers(r.cell, r.pos, cellSize) && Covers(s.cell, s.pos, cellSize) && r.radius >= 0.0
    ensures Near(r.pos, s.pos, r.radius) ==> Within(r.cell, s.cell, Reach(r, cellSize))
    ensures Within(r.cell, s.cell, Reach(r, cellSize)) ==>
      Closer(r.pos, s.pos, Edge(Reach(r, cellSize) + 1, cellSize)) && Closer(r.pos, s.pos, r.radius + 2.0 * cellSize)
  {
    hide Edge, Reach;
    var n := Reach(r, cellSize);
    ReachOfRadius(r, cellSize);
    AxisStep(r.cell.0, s.cell.0, r.pos.0, s.pos.0, n, cellSize);
    AxisStep(s.cell.0, r.cell.0, s.pos.0, r.pos.0, n, cellSize);
    AxisStep(r.cell.1, s.cell.1, r.pos.2, s.pos.2, n, cellSize);
    AxisStep(s.cell.1, r.cell.1, s.pos.2, r.pos.2, n, cellSize);
    EdgeSum(n, 1, cellSize);
    EdgeSum(n - 1, 1, cellSize);
  }

  /**
    Whoever lies within the radius is in range; whoever is in range lies less than the reach and one cell away, which is
    less than two cells outside the radius.
  */
  lemma RangeAndDistance(g: Grid, o: EntityId, t: EntityId)
    requires g.Valid() && o in g.entities && t in g.entities && o != t
    ensures
      var r, s := g.entities[o], g.entities[t];
      && (Near(r.pos, s.pos, r.radius) ==> InRange(g.entities, g.cellSize, o, t))
      && (InRange(g.entities, g.cellSize, o, t) ==>
            && Closer(r.pos, s.pos, Edge(Reach(r, g.cellSize) + 1, g.cellSize))
            && Closer(r.pos, s.pos, r.radius + 2.0 * g.cellSize))
  {
    hide Covers, Edge, Reach, Within, Near, Closer;
    WithinAndDistance(g.entities[o], g.entities[t], g.cellSize);
  }

  /**
    Nobody is seen from afar; and nobody within the radius is missed, once it was updated, by an observer that reaches no
    further.
  */
  lemma SeeingAndDistance(g: Grid, o: EntityId, t: EntityId)
    requires g.Valid() && o in g.entities && t in g.entities && o != t
    ensures
      var r, s := g.entities[o], g.entities[t];
      && (Sees(g.lastVisible, o, t) ==> Closer(r.pos, s.pos, r.radius + 2.0 * g.cellSize))
      && (t in g.settled && r.radius <= s.radius && Near(r.pos, s.pos, r.radius) ==> Sees(g.lastVisible, o, t))
  {
    hide Reach, Within, Near, Closer, Covers;
    RangeAndDistance(g, o, t);
    if g.entities[o].radius <= g.entities[t].radius {
      ReachGrows(g.entities[o], g.entities[t], g.cellSize);
    }
  }

  lemma ReachGrows(r: Record, s: Record, cellSize: real)
    requires cellSize > 0.0 && r.radius <= s.radius
    ensures Reach(r, cellSize) <= Reach(s, cellSize)
  {
    hide Reach, Edge;
    var m, n := Reach(r, cellSize), Reach(s, cellSize);
    ReachOfRadius(r, cellSize);
    ReachOfRadius(s, cellSize);
    EdgeOrder(m - 1, n, cellSize);
    EdgeOrder(n, m - 1, cellSize);
  }

  /** A newcomer, and whoever has just moved, sees everyone within its radius at its new place, and nobody from afar. */
  lemma ArrivalSees(g: Grid, entities0: map<EntityId, Record>, v: Visibility, id: EntityId, pos: Position, radius: real)
    requires g.Valid() && radius >= 0.0 && v.Keys == entities0.Keys
    requires
      if id in entities0 then entities0[id].radius == radius && g.Moved(entities0, v, id, pos)
      else g.Joined(entities0, v, id, pos, radius)
    ensures forall t :: t in entities0 && t != id ==>
      && (Near(pos, entities0[t].pos, radius) ==> Sees(g.lastVisible, id, t))
      && (Sees(g.lastVisible, id, t) ==> Closer(pos, entities0[t].pos, radius + 2.0 * g.cellSize))
  {
    hide Reach, Within, Near, Closer, Covers;
    forall t | t in entities0 && t != id
      ensures Near(pos, entities0[t].pos, radius) ==> Sees(g.lastVisible, id, t)
      ensures Sees(g.lastVisible, id, t) ==> Closer(pos, entities0[t].pos, radius + 2.0 * g.cellSize)
    {
      RangeAndDistance(g, id, t);
    }
  }

  // ---------------------------------------------------------------------------------------------
  // When the grid is exact
  // ---------------------------------------------------------------------------------------------

  /** Everybody sees exactly who is in range. */
  ghost predicate Exact(entities: map<EntityId, Record>, cellSize: real, v: Visibility)
    requires cellSize > 0.0
  {
    forall o, t :: Sees(v, o, t) <==> InRange(entities, cellSize, o, t)
  }

  /** A newcomer leaves an exact grid exact just when no resident of another cell reaches its cell. */
  lemma ExactAfterInsert(
    g: Grid, entities0: map<EntityId, Record>, v: Visibility, id: EntityId, pos: Position, radius: real)
    requires g.cellSize > 0.0 && v.Keys == entities0.Keys && id !in entities0
    requires Exact(entities0, g.cellSize, v) && g.Joined(entities0, v, id, pos, radius)
    ensures Exact(g.entities, g.cellSize, g.lastVisible) <==>
      var cell := CellOf(pos, g.cellSize);
      forall o :: o in entities0 && entities0[o].cell != cell ==>
        !Within(entities0[o].cell, cell, Reach(entities0[o], g.cellSize))
  {
    hide Reach, CellOf, Within;
    var cell := CellOf(pos, g.cellSize);
    forall o, t | o in g.entities
      ensures Sees(g.lastVisible, o, t) <==> InRange(g.entities, g.cellSize, o, t) && (t == id ==> g.entities[o].cell == cell)
    {
      assert Sees(v, o, t) <==> InRange(entities0, g.cellSize, o, t);
    }
    if o :| o in entities0 && entities0[o].cell != cell && Within(entities0[o].cell, cell, Reach(entities0[o], g.cellSize)) {
      assert InRange(g.entities, g.cellSize, o, id) && !Sees(g.lastVisible, o, id);
    }
  }

  /**
    A move leaves an exact grid exact just when everyone who has the entity in range afterwards was linked to it before
    or is in its own range now. Entities that reach no further than the moved one always are.
  */
  lemma ExactAfterUpdate(g: Grid, entities0: map<EntityId, Record>, v: Visibility, id: EntityId, pos: Position)
    requires g.cellSize > 0.0 && id in entities0
    requires Exact(entities0, g.cellSize, v) && g.Moved(entities0, v, id, pos)
    ensures Exact(g.entities, g.cellSize, g.lastVisible) <==>
      forall o :: InRange(g.entities, g.cellSize, o, id) ==> Linked(v, id, o) || InRange(g.entities, g.cellSize, id, o)
    ensures (forall o :: o in g.entities ==> Reach(g.entities[o], g.cellSize) <= Reach(g.entities[id], g.cellSize))
      ==> Exact(g.entities, g.cellSize, g.lastVisible)
  {
    hide Reach, CellOf, Within;
    forall o |
      InRange(g.entities, g.cellSize, o, id) && Reach(g.entities[o], g.cellSize) <= Reach(g.entities[id], g.cellSize)
      ensures InRange(g.entities, g.cellSize, id, o)
    {
      RangeSymmetry(g.entities, g.cellSize, o, id);
    }
    forall o, t | o in g.entities && t != id
      ensures Sees(g.lastVisible, o, t) <==> InRange(g.entities, g.cellSize, o, t)
    {
      assert Sees(v, o, t) <==> InRange(entities0, g.cellSize, o, t);
    }
    forall o | o in g.entities && !Linked(v, id, o)
      ensures Sees(g.lastVisible, o, id) <==>
        InRange(g.entities, g.cellSize, o, id) && InRange(g.entities, g.cellSize, id, o)
    {
      assert !Sees(v, o, id);
    }
  }

  /** A removal leaves an exact grid exact. */
  lemma ExactAfterRemove(g: Grid, entities0: map<EntityId, Record>, v: Visibility, id: EntityId)
    requires g.cellSize > 0.0 && v.Keys == entities0.Keys
    requires Exact(entities0, g.cellSize, v) && g.Left(entities0, v, id)
    ensures Exact(g.entities, g.cellSize, g.lastVisible)
  {
    hide Reach, Within;
    forall o, t
      ensures Sees(g.lastVisible, o, t) <==> InRange(g.entities, g.cellSize, o, t)
    {
      assert Sees(v, o, t) <==> InRange(entities0, g.cellSize, o, t);
    }
  }

  /**
    Exact once settled: when every entity was updated at least once since its insertion and all reach equally far,
    everybody sees exactly who is in range.
  */
  lemma SettledIsExact(g: Grid)
    requires g.Valid() && g.settled == g.entities.Keys
    requires forall a, b :: a in g.entities && b in g.entities ==>
      Reach(g.entities[a], g.cellSize) == Reach(g.entities[b], g.cellSize)
    ensures Exact(g.entities, g.cellSize, g.lastVisible)
    ensures forall o :: o in g.entities ==> g.lastVisible[o] == Range(g.entities, g.cellSize, o)
  {
    forall o | o in g.entities ensures g.lastVisible[o] == Range(g.entities, g.cellSize, o) {
      forall t ensures t in g.lastVisible[o] <==> t in Range(g.entities, g.cellSize, o) {
        assert Sees(g.lastVisible, o, t) <==> t in g.lastVisible[o];
      }
    }
  }

  /** Without it the grid is not exact: a new entity in the next cell is in range, and not seen until someone moves. */
  method NewNeighbourIsMissed() returns (g: Grid)
    ensures g.Valid() && InRange(g.entities, g.cellSize, 1, 2) && !Sees(g.lastVisible, 1, 2)
    ensures Sees(g.lastVisible, 2, 1)
  {
    hide Explains;
    g := new Grid(10.0);
    var p, q := (5.0, 0.0, 5.0), (15.0, 0.0, 5.0);
    assert CellOf(p, 10.0) == (0, 0) && CellOf(q, 10.0) == (1, 0);
    var e1 := g.Insert(1, p, 15.0);
    assert Range(g.entities, 10.0, 1) == {} && g.lastVisible[1] == {};
    var e2 := g.Insert(2, q, 15.0);
    assert g.lastVisible[1] == {} && 1 in Range(g.entities, 10.0, 2);
  }
}
