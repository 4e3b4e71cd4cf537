/** The layer above the grid: names for ids, and two mirrored caches that follow the grid's events. */
module AoiManager {
  import opened GridAoi

  type Name = string
  type Cache = map<Name, set<Name>>

  datatype Kind = EventEnter | EventLeave

  /** One triple of the list that `tick` returns. */
  datatype Notice = Notice(kind: Kind, observer: Name, target: Name)

  predicate Has(cache: Cache, a: Name, b: Name) {
    a in cache && b in cache[a]
  }

  function Add(cache: Cache, a: Name, b: Name): (r: Cache)
    ensures forall x, y :: Has(r, x, y) <==> Has(cache, x, y) || (x == a && y == b)
  {
    cache[a := (if a in cache then cache[a] else {}) + {b}]
  }

  function Discard(cache: Cache, a: Name, b: Name): (r: Cache)
    ensures forall x, y :: Has(r, x, y) <==> Has(cache, x, y) && !(x == a && y == b)
  {
    if a in cache then cache[a := cache[a] - {b}] else cache
  }

  /** The events between living ids, under their names, in order. */
  function Translate(events: seq<Event>, names: map<EntityId, Name>): seq<Notice> {
    if events == [] then [] else
      var front, e := Translate(events[..|events| - 1], names), events[|events| - 1];
      if e.observer in names && e.target in names
      then front + [Notice(if e.Enter? then EventEnter else EventLeave, names[e.observer], names[e.target])]
      else front
  }

  /** The two id maps are inverse to each other; the ids were handed out before `nextId`. */
  ghost predicate Inverse(idToStr: map<EntityId, Name>, strToId: map<Name, EntityId>, nextId: EntityId) {
    && (forall name :: name in strToId ==> strToId[name] in idToStr && idToStr[strToId[name]] == name)
    && (forall id :: id in idToStr ==> idToStr[id] in strToId && strToId[idToStr[id]] == id)
    && (forall id :: id in idToStr ==> id < nextId)
  }

  ghost predicate Transposed(visible: Cache, observers: Cache) {
    forall o, t :: Has(visible, o, t) <==> Has(observers, t, o)
  }

  ghost predicate OverLiving(visible: Cache, strToId: map<Name, EntityId>) {
    forall o, t :: Has(visible, o, t) ==> o in strToId && t in strToId
  }

  ghost predicate IdsBelow(events: seq<Event>, nextId: EntityId) {
    forall e :: e in events ==> e.observer < nextId && e.target < nextId
  }

  /** Each event between living ids tells of a change of the cache when its turn comes. */
  ghost predicate AllNews(names: map<EntityId, Name>, visible: Cache, events: seq<Event>) {
    forall i :: 0 <= i < |events| ==>
      var e := events[i];
      e.observer in names && e.target in names ==>
        Replay(events[..i], e.observer, e.target, Has(visible, names[e.observer], names[e.target])) == e.Leave?
  }

  /** Replaying the events over the cache gives what the grid sees, for all living ids, and no event is redundant. */
  ghost predicate Agree(names: map<EntityId, Name>, visible: Cache, events: seq<Event>, v: Visibility) {
    && (forall a, b :: a in names && b in names ==>
          Sees(v, a, b) == Replay(events, a, b, Has(visible, names[a], names[b])))
    && AllNews(names, visible, events)
  }

  lemma InverseAdd(idToStr: map<EntityId, Name>, strToId: map<Name, EntityId>, nextId: EntityId, name: Name)
    requires Inverse(idToStr, strToId, nextId) && name !in strToId
    ensures nextId !in idToStr && Inverse(idToStr[nextId := name], strToId[name := nextId], nextId + 1)
  {
  }

  lemma InverseRemove(idToStr: map<EntityId, Name>, strToId: map<Name, EntityId>, nextId: EntityId, name: Name)
    requires Inverse(idToStr, strToId, nextId) && name in strToId
    ensures strToId[name] in idToStr && Inverse(idToStr - {strToId[name]}, strToId - {name}, nextId)
  {
  }

  lemma AgreeAfterChange(
    names: map<EntityId, Name>, visible: Cache, pending: seq<Event>, events: seq<Event>,
    v: Visibility, v': Visibility)
    requires Agree(names, visible, pending, v) && Explains(events, v, v')
    ensures Agree(names, visible, pending + events, v')
  {
    hide Has, Replay, Sees, News, AllNews;
    NewsAfterChange(names, visible, pending, events, v);
    forall a, b | a in names && b in names
      ensures Sees(v', a, b) == Replay(pending + events, a, b, Has(visible, names[a], names[b]))
    {
      ReplayConcat(pending, events, a, b, Has(visible, names[a], names[b]));
    }
  }

  lemma NewsAfterChange(
    names: map<EntityId, Name>, visible: Cache, pending: seq<Event>, events: seq<Event>, v: Visibility)
    requires Agree(names, visible, pending, v) && News(events, v)
    ensures AllNews(names, visible, pending + events)
  {
    hide Has, Replay, Sees;
    var all := pending + events;
    forall i | 0 <= i < |all| && all[i].observer in names && all[i].target in names
      ensures
        var e := all[i];
        Replay(all[..i], e.observer, e.target, Has(visible, names[e.observer], names[e.target])) == e.Leave?
    {
      var e, j := all[i], i - |pending|;
      if j < 0 {
        assert all[..i] == pending[..i] && e == pending[i];
      } else {
        assert all[..i] == pending + events[..j] && e == events[j];
        ReplayConcat(pending, events[..j], e.observer, e.target, Has(visible, names[e.observer], names[e.target]));
      }
    }
  }

  /** The cache is what the events make of `start`. */
  ghost predicate Replayed(names: map<EntityId, Name>, visible: Cache, events: seq<Event>, start: Cache) {
    forall a, b :: a in names && b in names ==>
      Has(visible, names[a], names[b]) == Replay(events, a, b, Has(start, names[a], names[b]))
  }

  lemma NoEvents(names: map<EntityId, Name>, visible: Cache)
    ensures Replayed(names, visible, [], visible) && Translate([], names) == []
  {
    hide Has;
  }

  lemma NextEvent(names: map<EntityId, Name>, visible: Cache, visible': Cache, events: seq<Event>, i: nat, start: Cache)
    requires i < |events| && Replayed(names, visible, events[..i], start)
    requires forall a, b | a in names && b in names ::
      Has(visible', names[a], names[b])
      == (if events[i].observer == a && events[i].target == b then events[i].Enter? else Has(visible, names[a], names[b]))
    ensures Replayed(names, visible', events[..i + 1], start)
    ensures Translate(events[..i + 1], names) == Translate(events[..i], names) +
      if events[i].observer in names && events[i].target in names
      then [Notice(if events[i].Enter? then EventEnter else EventLeave, names[events[i].observer], names[events[i].target])]
      else []
  {
    hide Has;
    var front := events[..i + 1];
    assert front[..i] == events[..i] && front[i] == events[i];
  }

  /** Once all events are applied nothing is left to replay. */
  lemma AgreeAfterTick(names: map<EntityId, Name>, start: Cache, visible: Cache, events: seq<Event>, v: Visibility)
    requires Agree(names, start, events, v) && Replayed(names, visible, events, start)
    ensures Agree(names, visible, [], v)
  {
    hide Has, Sees;
  }

  /** An id that was never used before has no pending events and no old pairs under its name. */
  lemma AgreeWithNewcomer(
    names: map<EntityId, Name>, strToId: map<Name, EntityId>, visible: Cache, pending: seq<Event>, v: Visibility,
    id: EntityId, name: Name)
    requires Agree(names, visible, pending, v) && IdsBelow(pending, id)
    requires OverLiving(visible, strToId) && name !in strToId
    requires forall a :: !Sees(v, id, a) && !Sees(v, a, id)
    ensures Agree(names[id := name], visible, pending, v)
  {
    hide Has, Replay, Sees;
    var names' := names[id := name];
    assert AllNews(names', visible, pending) by {
      forall i | 0 <= i < |pending|
        ensures pending[i].observer != id && pending[i].target != id
      {
        assert pending[i] in pending;
      }
    }
    forall a, b | a in names' && b in names'
      ensures Sees(v, a, b) == Replay(pending, a, b, Has(visible, names'[a], names'[b]))
    {
      if a == id || b == id {
        ReplayUntouched(pending, a, b, Has(visible, names'[a], names'[b]));
      }
    }
  }

  /** For the ids that stay, a removal changes nothing: neither in the grid, nor in the cache, nor by its events. */
  lemma AgreeWithoutLeaver(
    names: map<EntityId, Name>, strToId: map<Name, EntityId>, nextId: EntityId,
    visible: Cache, visible': Cache, pending: seq<Event>, events: seq<Event>,
    v: Visibility, v': Visibility, id: EntityId)
    requires Inverse(names, strToId, nextId) && id in names && Agree(names, visible, pending, v)
    requires forall o, t :: Has(visible', o, t) <==> Has(visible, o, t) && o != names[id] && t != names[id]
    requires forall e :: e in events ==> e.target == id
    requires forall a, b :: a != id && b != id ==> Sees(v', a, b) == Sees(v, a, b)
    ensures Agree(names - {id}, visible', pending + events, v')
  {
    hide Has, Replay, Sees;
    NewsWithoutLeaver(names, strToId, nextId, visible, visible', pending, events, id);
    forall a, b | a in names && b in names && a != id && b != id
      ensures Sees(v', a, b) == Replay(pending + events, a, b, Has(visible', names[a], names[b]))
    {
      assert names[a] != names[id] && names[b] != names[id];
      var before := Has(visible', names[a], names[b]);
      ReplayConcat(pending, events, a, b, before);
      ReplayUntouched(events, a, b, Replay(pending, a, b, before));
    }
  }

  lemma NewsWithoutLeaver(
    names: map<EntityId, Name>, strToId: map<Name, EntityId>, nextId: EntityId,
    visible: Cache, visible': Cache, pending: seq<Event>, events: seq<Event>, id: EntityId)
    requires Inverse(names, strToId, nextId) && id in names && AllNews(names, visible, pending)
    requires forall o, t :: Has(visible', o, t) <==> Has(visible, o, t) && o != names[id] && t != names[id]
    requires forall e :: e in events ==> e.target == id
    ensures AllNews(names - {id}, visible', pending + events)
  {
    hide Has, Replay;
    var all, rest := pending + events, names - {id};
    assert forall i :: |pending| <= i < |all| ==> all[i] in events;
    forall i | 0 <= i < |all| && all[i].observer in rest && all[i].target in rest
      ensures
        var e := all[i];
        Replay(all[..i], e.observer, e.target, Has(visible', rest[e.observer], rest[e.target])) == e.Leave?
    {
      assert i < |pending| ==> all[..i] == pending[..i] && all[i] == pending[i];
    }
  }

  // ---------------------------------------------------------------------------------------------
  // What the notices tell
  // ---------------------------------------------------------------------------------------------

  /** Whether `o` sees `t` after the notices, if `before` says so at first: the last notice of the pair decides. */
  function Told(notices: seq<Notice>, o: Name, t: Name, before: bool): bool {
    if notices == [] then before else
      var n := notices[|notices| - 1];
      if n.observer == o && n.target == t then n.kind == EventEnter else Told(notices[..|notices| - 1], o, t, before)
  }

  lemma ToldPush(notices: seq<Notice>, n: Notice, o: Name, t: Name, before: bool)
    ensures Told(notices + [n], o, t, before)
      == if n.observer == o && n.target == t then n.kind == EventEnter else Told(notices, o, t, before)
  {
    assert (notices + [n])[..|notices|] == notices;
  }

  /** The notices tell of living ids what the events do. */
  lemma {:induction false} NoticesReplay(
    events: seq<Event>, names: map<EntityId, Name>, strToId: map<Name, EntityId>, nextId: EntityId,
    a: EntityId, b: EntityId, before: bool)
    requires Inverse(names, strToId, nextId) && a in names && b in names
    ensures Told(Translate(events, names), names[a], names[b], before) == Replay(events, a, b, before)
    decreases |events|
  {
    if events != [] {
      var n := |events| - 1;
      var e, front := events[n], Translate(events[..n], names);
      NoticesReplay(events[..n], names, strToId, nextId, a, b, before);
      if e.observer in names && e.target in names {
        ToldPush(front, Notice(if e.Enter? then EventEnter else EventLeave, names[e.observer], names[e.target]),
                 names[a], names[b], before);
      }
    }
  }

  /** The notices name living ids only, so they say nothing about any other name. */
  lemma {:induction false} NoticesOfLiving(
    events: seq<Event>, names: map<EntityId, Name>, strToId: map<Name, EntityId>, nextId: EntityId,
    o: Name, t: Name, before: bool)
    requires Inverse(names, strToId, nextId) && (o !in strToId || t !in strToId)
    ensures Told(Translate(events, names), o, t, before) == before
    decreases |events|
  {
    if events != [] {
      var n := |events| - 1;
      var e, front := events[n], Translate(events[..n], names);
      NoticesOfLiving(events[..n], names, strToId, nextId, o, t, before);
      if e.observer in names && e.target in names {
        ToldPush(front, Notice(if e.Enter? then EventEnter else EventLeave, names[e.observer], names[e.target]),
                 o, t, before);
      }
    }
  }

  /** Each notice tells of a change of the cache when its turn comes. */
  ghost predicate AllTell(notices: seq<Notice>, visible: Cache) {
    forall i :: 0 <= i < |notices| ==>
      var n := notices[i];
      Told(notices[..i], n.observer, n.target, Has(visible, n.observer, n.target)) == (n.kind == EventLeave)
  }

  lemma AllTellPush(notices: seq<Notice>, n: Notice, visible: Cache)
    requires AllTell(notices, visible)
    requires Told(notices, n.observer, n.target, Has(visible, n.observer, n.target)) == (n.kind == EventLeave)
    ensures AllTell(notices + [n], visible)
  {
    hide Told, Has;
    var all := notices + [n];
    forall i | 0 <= i < |all|
      ensures Told(all[..i], all[i].observer, all[i].target, Has(visible, all[i].observer, all[i].target))
        == (all[i].kind == EventLeave)
    {
      assert all[..i] == notices[..i];
      assert i == |notices| ==> notices[..i] == notices;
    }
  }

  lemma {:induction false} NoticesAreNews(
    events: seq<Event>, names: map<EntityId, Name>, strToId: map<Name, EntityId>, nextId: EntityId, visible: Cache)
    requires Inverse(names, strToId, nextId) && AllNews(names, visible, events)
    ensures AllTell(Translate(events, names), visible)
    decreases |events|
  {
    hide Has, Replay, Told;
    if events == [] {
      assert Translate(events, names) == [];
    } else {
      var n := |events| - 1;
      var e := events[n];
      assert AllNews(names, visible, events[..n]) by {
        assert forall i :: 0 <= i < n ==> events[..n][..i] == events[..i];
      }
      NoticesAreNews(events[..n], names, strToId, nextId, visible);
      if e.observer in names && e.target in names {
        var before := Has(visible, names[e.observer], names[e.target]);
        NoticesReplay(events[..n], names, strToId, nextId, e.observer, e.target, before);
        AllTellPush(Translate(events[..n], names),
                    Notice(if e.Enter? then EventEnter else EventLeave, names[e.observer], names[e.target]), visible);
      }
    }
  }

  /** Whoever applies the notices to the old cache has the new one, and none of them is redundant. */
  ghost predicate Tells(notices: seq<Notice>, visible: Cache, visible': Cache) {
    (forall o, t :: Has(visible', o, t) == Told(notices, o, t, Has(visible, o, t))) && AllTell(notices, visible)
  }

  lemma NoticesTell(
    events: seq<Event>, names: map<EntityId, Name>, strToId: map<Name, EntityId>, nextId: EntityId,
    visible: Cache, visible': Cache, v: Visibility)
    requires Inverse(names, strToId, nextId) && OverLiving(visible, strToId) && OverLiving(visible', strToId)
    requires Agree(names, visible, events, v) && Agree(names, visible', [], v)
    ensures Tells(Translate(events, names), visible, visible')
  {
    hide Has, Told, Sees, Translate, AllTell, AllNews;
    NoticesAreNews(events, names, strToId, nextId, visible);
    forall o, t ensures Has(visible', o, t) == Told(Translate(events, names), o, t, Has(visible, o, t)) {
      if o in strToId && t in strToId {
        var a, b := strToId[o], strToId[t];
        NoticesReplay(events, names, strToId, nextId, a, b, Has(visible, o, t));
        assert Replay([], a, b, Has(visible', names[a], names[b])) == Has(visible', names[a], names[b]);
      } else {
        NoticesOfLiving(events, names, strToId, nextId, o, t, Has(visible, o, t));
      }
    }
  }

  class Manager {
    const grid: Grid
    var idToStr: map<EntityId, Name>
    var strToId: map<Name, EntityId>
    var nextId: EntityId
    var visible: Cache
    var observers: Cache

    /**
      The ids name exactly the entities of the grid, the caches follow it up to the pending events, and each of those
      will be a change.
    */
    ghost predicate Valid()
      reads this, grid
    {
      && grid.Valid()
      && Inverse(idToStr, strToId, nextId) && grid.entities.Keys == idToStr.Keys
      && Transposed(visible, observers) && OverLiving(visible, strToId)
      && IdsBelow(grid.pending, nextId) && Agree(idToStr, visible, grid.pending, grid.lastVisible)
    }

    /** The caches are the grid's visibility under the names. */
    ghost predicate InStep()
      reads this, grid
    {
      && (forall a, b :: a in idToStr && b in idToStr ==>
           (Has(visible, idToStr[a], idToStr[b]) <==> Sees(grid.lastVisible, a, b)))
      && (forall a, b :: a in idToStr && b in idToStr ==>
           (Has(observers, idToStr[b], idToStr[a]) <==> Sees(grid.lastVisible, a, b)))
    }

    constructor (cellSize: real)
      ensures Valid() && fresh(grid) && strToId == map[] && visible == map[] && observers == map[]
    {
      grid := new Grid(cellSize);
      idToStr, strToId, nextId := map[], map[], 1;
      visible, observers := map[], map[];
    }

    /** `_do_insert`: a living name is moved; a new one gets an id that was never used before. */
    method DoInsert(eid: Name, position: Position, radius: real)
      requires Valid()
      modifies this, grid
      ensures Valid()
      ensures strToId.Keys == old(strToId.Keys) + {eid}
      ensures eid in old(strToId) ==> strToId == old(strToId) && nextId == old(nextId)
      ensures eid !in old(strToId) ==> strToId == old(strToId)[eid := old(nextId)] && nextId == old(nextId) + 1
      ensures visible == old(visible) && observers == old(observers)
      ensures eid !in old(strToId) ==>
        old(nextId) !in old(grid.entities)
        && grid.Joined(old(grid.entities), old(grid.lastVisible), old(nextId), position, radius)
      ensures eid in old(strToId) ==>
        strToId[eid] in old(grid.entities)
        && grid.Moved(old(grid.entities), old(grid.lastVisible), strToId[eid], position)
    {
      hide Inverse, Explains, Agree, Transposed, OverLiving, Reach, CellOf, Within, Located, Covers;
      ghost var pending0 := grid.pending;
      var aoiId := if eid in strToId then strToId[eid] else nextId;
      if eid !in strToId {
        InverseAdd(idToStr, strToId, nextId, eid);
        AgreeWithNewcomer(idToStr, strToId, visible, grid.pending, grid.lastVisible, nextId, eid);
        nextId := nextId + 1;
        strToId := strToId[eid := aoiId];
        idToStr := idToStr[aoiId := eid];
      } else {
        Named(eid);
      }
      var events := grid.Insert(aoiId, position, radius);
      AgreeAfterChange(idToStr, visible, pending0, events, old(grid.lastVisible), grid.lastVisible);
      StillLiving(visible, old(strToId), strToId);
      StillBelow(events);
    }

    lemma Named(eid: Name)
      requires Inverse(idToStr, strToId, nextId) && eid in strToId
      ensures strToId[eid] in idToStr && idToStr[strToId[eid]] == eid
    {
    }

    lemma StillLiving(visible: Cache, before: map<Name, EntityId>, now: map<Name, EntityId>)
      requires OverLiving(visible, before) && before.Keys <= now.Keys
      ensures OverLiving(visible, now)
    {
    }

    lemma StillBelow(events: seq<Event>)
      requires Inverse(idToStr, strToId, nextId) && grid.entities.Keys == idToStr.Keys && grid.Local(events)
      ensures IdsBelow(events, nextId)
    {
    }

    /** `update_position`: names that are not registered are ignored. */
    method UpdatePosition(eid: Name, position: Position)
      requires Valid()
      modifies grid
      ensures Valid()
      ensures eid in strToId ==>
        strToId[eid] in old(grid.entities)
        && grid.Moved(old(grid.entities), old(grid.lastVisible), strToId[eid], position)
      ensures eid !in strToId ==>
        grid.entities == old(grid.entities) && grid.lastVisible == old(grid.lastVisible)
        && grid.pending == old(grid.pending)
    {
      if eid !in strToId {
        return;
      }
      hide Inverse, Explains, Agree, Transposed, OverLiving, Reach, CellOf, Within, Located, Covers;
      Named(eid);
      ghost var pending0 := grid.pending;
      var events := grid.Update(strToId[eid], position);
      AgreeAfterChange(idToStr, visible, pending0, events, old(grid.lastVisible), grid.lastVisible);
      StillBelow(events);
    }

    /** `_do_remove`: the name goes from both maps, from the grid and from both caches, at once. */
    method DoRemove(eid: Name)
      requires Valid()
      modifies this, grid
      ensures Valid()
      ensures strToId == old(strToId) - {eid} && nextId == old(nextId)
      ensures eid in old(strToId) ==>
        grid.Left(old(grid.entities), old(grid.lastVisible), old(strToId)[eid])
      ensures eid !in old(strToId) ==>
        grid.entities == old(grid.entities) && grid.lastVisible == old(grid.lastVisible)
        && grid.pending == old(grid.pending)
      ensures forall o, t :: Has(visible, o, t) <==> Has(old(visible), o, t) && o != eid && t != eid
    {
      hide Inverse, Agree, Transposed, Reach, CellOf, Within, Located, Covers;
      if eid !in strToId {
        return;
      }
      ghost var pending0, names := grid.pending, idToStr;
      var aoiId := strToId[eid];
      Named(eid);
      InverseRemove(idToStr, strToId, nextId, eid);
      strToId := strToId - {eid};
      idToStr := idToStr - {aoiId};
      var events := grid.Remove(aoiId);
      Forget(eid);
      AgreeWithoutLeaver(names, old(strToId), nextId, old(visible), visible, pending0, events,
                         old(grid.lastVisible), grid.lastVisible, aoiId);
      LeaveBelow(names, old(strToId), old(grid.lastVisible), aoiId, events);
    }

    lemma LeaveBelow(
      names: map<EntityId, Name>, strToId0: map<Name, EntityId>, v: Visibility, id: EntityId, events: seq<Event>)
      requires Inverse(names, strToId0, nextId) && id in names && v.Keys == names.Keys
      requires forall o :: Leave(o, id) in events <==> Sees(v, o, id)
      requires forall e :: e in events ==> e == Leave(e.observer, id)
      ensures IdsBelow(events, nextId)
    {
    }

    /** The four cache updates of `_do_remove`. */
    method Forget(eid: Name)
      requires Transposed(visible, observers)
      modifies this`visible, this`observers
      ensures forall o, t :: Has(visible, o, t) <==> Has(old(visible), o, t) && o != eid && t != eid
      ensures Transposed(visible, observers)
    {
      var todo := if eid in observers then observers[eid] else {};
      assert forall o :: o in todo <==> Has(observers, eid, o);
      while todo != {}
        invariant forall o :: o in todo ==> Has(old(observers), eid, o)
        invariant observers == old(observers)
        invariant forall o, t :: Has(visible, o, t) <==>
          Has(old(visible), o, t) && !(t == eid && o !in todo)
      {
        var o :| o in todo;
        todo := todo - {o};
        visible := Discard(visible, o, eid);
      }
      observers := observers - {eid};
      todo := if eid in visible then visible[eid] else {};
      assert forall t :: t in todo <==> Has(visible, eid, t);
      while todo != {}
        invariant forall t :: t in todo ==> Has(old(visible), eid, t)
        invariant forall o, t :: Has(visible, o, t) <==> Has(old(visible), o, t) && t != eid
        invariant forall o, t :: Has(observers, t, o) <==>
          Has(old(observers), t, o) && t != eid && !(o == eid && t !in todo)
      {
        var t :| t in todo;
        todo := todo - {t};
        observers := Discard(observers, t, eid);
      }
      visible := visible - {eid};
    }

    /** `observers_of`. */
    method ObserversOf(target: Name) returns (r: set<Name>)
      requires Valid()
      ensures forall o :: o in r <==> Has(visible, o, target)
    {
      r := if target in observers then observers[target] else {};
      assert forall o :: o in r <==> Has(observers, target, o);
    }

    /** `visible_of`. */
    method VisibleOf(observer: Name) returns (r: set<Name>)
      requires Valid()
      ensures forall t :: t in r <==> Has(visible, observer, t)
    {
      r := if observer in visible then visible[observer] else {};
    }

    /** What `tick` does with one event. */
    method ApplyEvent(e: Event) returns (notices: seq<Notice>)
      requires Inverse(idToStr, strToId, nextId) && Transposed(visible, observers) && OverLiving(visible, strToId)
      modifies this`visible, this`observers
      ensures Transposed(visible, observers) && OverLiving(visible, strToId)
      ensures notices ==
        if e.observer in idToStr && e.target in idToStr
        then [Notice(if e.Enter? then EventEnter else EventLeave, idToStr[e.observer], idToStr[e.target])] else []
      ensures forall a, b | a in idToStr && b in idToStr ::
        Has(visible, idToStr[a], idToStr[b])
        == (if e.observer == a && e.target == b then e.Enter? else Has(old(visible), idToStr[a], idToStr[b]))
    {
      if e.observer !in idToStr || e.target !in idToStr {
        return [];
      }
      var o, t := idToStr[e.observer], idToStr[e.target];
      if e.Enter? {
        visible := Add(visible, o, t);
        observers := Add(observers, t, o);
      } else {
        visible := Discard(visible, o, t);
        observers := Discard(observers, t, o);
      }
      notices := [Notice(if e.Enter? then EventEnter else EventLeave, o, t)];
    }

    /** `tick`: consumes the grid's events; events about removed entities are dropped. */
    method Tick() returns (result: seq<Notice>)
      requires Valid()
      modifies this`visible, this`observers, grid`pending
      ensures Valid() && InStep()
      ensures grid.pending == [] && result == Translate(old(grid.pending), idToStr)
      ensures Tells(result, old(visible), visible)
    {
      hide Inverse, Transposed, OverLiving, Reach, Within, Has, Agree, Replayed, Translate, Tells;
      ghost var start := visible;
      ghost var events := grid.pending;
      NoEvents(idToStr, start);
      var raw := grid.TakeEvents();
      result := [];
      var i := 0;
      while i < |raw|
        invariant i <= |raw| && result == Translate(raw[..i], idToStr)
        invariant Transposed(visible, observers) && OverLiving(visible, strToId) && grid.pending == []
        invariant Replayed(idToStr, visible, raw[..i], start)
      {
        ghost var before := visible;
        var notices := ApplyEvent(raw[i]);
        NextEvent(idToStr, before, visible, raw, i, start);
        result := result + notices;
        i := i + 1;
      }
      assert raw[..i] == raw;
      AgreeAfterTick(idToStr, start, visible, events, grid.lastVisible);
      NoticesTell(events, idToStr, strToId, nextId, start, visible, grid.lastVisible);
      Mirrors();
    }

    lemma Mirrors()
      requires Transposed(visible, observers) && Agree(idToStr, visible, [], grid.lastVisible)
      ensures InStep()
    {
    }
  }

  // ---------------------------------------------------------------------------------------------
  // Whole runs
  // ---------------------------------------------------------------------------------------------

  datatype Op = Join(name: Name, position: Position, radius: real) | Move(name: Name, position: Position)
    | Depart(name: Name) | DoTick

  /** The names that live after a run. */
  function Living(ops: seq<Op>): set<Name> {
    if ops == [] then {} else
      var front := Living(ops[..|ops| - 1]);
      match ops[|ops| - 1]
      case Join(name, _, _) => front + {name}
      case Depart(name) => front - {name}
      case _ => front
  }

  /**
    In every run from an empty manager the two layers agree up to the pending events, and right after a tick they
    are equal. Names that were removed and joined again start without any pair.
  */
  method RunAll(ops: seq<Op>, cellSize: real) returns (m: Manager)
    ensures m.Valid() && m.strToId.Keys == Living(ops)
    ensures |ops| > 0 && ops[|ops| - 1].DoTick? ==> m.InStep()
  {
    hide Manager.Valid, Manager.InStep;
    m := new Manager(cellSize);
    var i := 0;
    while i < |ops|
      invariant i <= |ops| && fresh(m) && fresh(m.grid) && m.Valid() && m.strToId.Keys == Living(ops[..i])
      invariant i > 0 && ops[i - 1].DoTick? ==> m.InStep()
    {
      assert ops[..i + 1][..i] == ops[..i];
      match ops[i] {
        case Join(name, position, radius) => m.DoInsert(name, position, radius);
        case Move(name, position) => m.UpdatePosition(name, position);
        case Depart(name) => m.DoRemove(name);
        case DoTick => var notices := m.Tick();
      }
      i := i + 1;
    }
    assert ops[..i] == ops;
  }
}
