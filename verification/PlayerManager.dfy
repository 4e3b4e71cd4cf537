/** The registry of players and its index by client connection. */
module PlayerManager {
  type EntityId = string
  type ConnId = string

  /** Where the client of a player instance is. */
  datatype Session = Session(conn: ConnId, gate: string, gates: seq<string>)

  /** One instance of a player entity; a new login of the same entity makes another instance. */
  class Player {
    const entityId: EntityId
    var clientConnId: ConnId
    var clientGateName: string
    var connClientGate: seq<string>

    constructor (entityId: EntityId, gateName: string, connId: ConnId)
      ensures this.entityId == entityId && GetSession() == Session(connId, gateName, [])
    {
      this.entityId := entityId;
      clientConnId, clientGateName, connClientGate := connId, gateName, [];
    }

    function GetSession(): Session
      reads this
    {
      Session(clientConnId, clientGateName, connClientGate)
    }

    method Move(gateName: string, connId: ConnId)
      modifies this
      ensures GetSession() == MovedSession(old(GetSession()), gateName, connId)
    {
      if gateName !in connClientGate {
        connClientGate := connClientGate + [gateName];
      }
      clientConnId := connId;
      clientGateName := gateName;
    }
  }

  /** The registry: the instance registered for each entity, the index, and the sessions of all instances known. */
  datatype Registry = Registry(
    players: map<EntityId, Player>,
    conns: map<ConnId, seq<Player>>,
    sessions: map<Player, Session>)

  ghost predicate Closed(r: Registry) {
    && (forall e :: e in r.players ==> r.players[e].entityId == e && r.players[e] in r.sessions)
    && (forall c :: c in r.conns ==> forall p :: p in r.conns[c] ==> p in r.sessions)
  }

  predicate Registered(r: Registry, p: Player) {
    p.entityId in r.players && r.players[p.entityId] == p
  }

  // ---------------------------------------------------------------------------------------------
  // The operations
  // ---------------------------------------------------------------------------------------------

  function ListOf(conns: map<ConnId, seq<Player>>, c: ConnId): seq<Player> {
    if c in conns then conns[c] else []
  }

  function RemoveFirst(list: seq<Player>, p: Player): seq<Player> {
    if list == [] then [] else if list[0] == p then list[1..] else [list[0]] + RemoveFirst(list[1..], p)
  }

  function Detached(r: Registry, p: Player): Registry
    requires p in r.sessions
  {
    var c := r.sessions[p].conn;
    if c !in r.conns then r else
      var list := RemoveFirst(r.conns[c], p);
      r.(conns := if list == [] then r.conns - {c} else r.conns[c := list])
  }

  function With(list: seq<Player>, p: Player): seq<Player> {
    if p in list then list else list + [p]
  }

  /** Another instance of the entity of `p` leaves the index. */
  function Alone(r: Registry, p: Player, s: Session): Registry
    requires Closed(r)
  {
    var known := r.(sessions := r.sessions[p := s]);
    if p.entityId in r.players && r.players[p.entityId] != p then Detached(known, r.players[p.entityId]) else known
  }

  /** The instance `p`, whose session is `s`, takes over its entity. */
  function Added(r: Registry, p: Player, s: Session): Registry
    requires Closed(r)
  {
    var alone := Alone(r, p, s);
    alone.(players := alone.players[p.entityId := p], conns := alone.conns[s.conn := With(ListOf(alone.conns, s.conn), p)])
  }

  function MovedSession(s: Session, gate: string, conn: ConnId): Session {
    Session(conn, gate, if gate in s.gates then s.gates else s.gates + [gate])
  }

  function Moved(sessions: map<Player, Session>, list: seq<Player>, gate: string, conn: ConnId): map<Player, Session> {
    map p | p in sessions :: if p in list then MovedSession(sessions[p], gate, conn) else sessions[p]
  }

  /** Everyone on the connection of entity `e` moves to `conn`. */
  function Transferred(r: Registry, e: EntityId, gate: string, conn: ConnId): Registry
    requires Closed(r)
  {
    if e !in r.players then r else
      var p := r.players[e];
      var before := r.sessions[p].conn;
      var list := With(ListOf(r.conns, before), p);
      Registry(r.players, (if before != conn then r.conns - {before} else r.conns)[conn := list],
               Moved(r.sessions, list, gate, conn))
  }

  /** The player is on the connection and still the registered instance of its entity. */
  predicate Leaves(players: map<EntityId, Player>, sessions: map<Player, Session>, c: ConnId, p: Player) {
    p in sessions && sessions[p].conn == c && p.entityId in players && players[p.entityId] == p
  }

  function Swept(players: map<EntityId, Player>, sessions: map<Player, Session>, c: ConnId, list: seq<Player>)
    : map<EntityId, Player>
  {
    if list == [] then players
    else Swept(if Leaves(players, sessions, c, list[0]) then players - {list[0].entityId} else players,
               sessions, c, list[1..])
  }

  /** The instances reported as offline, in order. */
  function Reported(players: map<EntityId, Player>, sessions: map<Player, Session>, c: ConnId, list: seq<Player>)
    : seq<Player>
  {
    if list == [] then []
    else if Leaves(players, sessions, c, list[0]) then
      [list[0]] + Reported(players - {list[0].entityId}, sessions, c, list[1..])
    else Reported(players, sessions, c, list[1..])
  }

  function Offline(r: Registry, c: ConnId): Registry {
    r.(players := Swept(r.players, r.sessions, c, ListOf(r.conns, c)), conns := r.conns - {c})
  }

  // ---------------------------------------------------------------------------------------------
  // The manager in place
  // ---------------------------------------------------------------------------------------------

  class Manager {
    var players: map<EntityId, Player>
    var connIdPlayers: map<ConnId, seq<Player>>
    ghost var known: set<Player>

    ghost function Sessions(): map<Player, Session>
      reads `known, known
    {
      map p | p in known :: p.GetSession()
    }

    ghost function View(): Registry
      reads this, known
    {
      Registry(players, connIdPlayers, Sessions())
    }

    ghost predicate Valid()
      reads this, known
    {
      Closed(View())
    }

    constructor ()
      ensures Valid() && View() == Registry(map[], map[], map[])
    {
      players, connIdPlayers, known := map[], map[], {};
    }

    method AddPlayer(player: Player)
      requires Valid()
      modifies this
      ensures Valid() && known == old(known) + {player}
      ensures View() == Added(old(View()), player, old(player.GetSession()))
    {
      hide Closed, Detached, With, ListOf;
      ghost var r := View();
      AddedIsClosed(r, player, player.GetSession());
      IsKnown(r);
      known := known + {player};
      assert Sessions() == r.sessions[player := player.GetSession()];
      var e := player.entityId;
      if e in players && players[e] != player {
        DetachPlayerConn(players[e]);
      }
      ghost var alone := View();
      assert alone == Alone(r, player, player.GetSession());
      players := players[e := player];
      IndexPlayer(player);
      assert Sessions() == alone.sessions && players == alone.players[e := player];
      assert View() == Added(r, player, player.GetSession());
    }

    method IndexPlayer(player: Player)
      modifies `connIdPlayers
      ensures connIdPlayers ==
        old(connIdPlayers)[player.clientConnId := With(ListOf(old(connIdPlayers), player.clientConnId), player)]
    {
      var c := player.clientConnId;
      if c !in connIdPlayers {
        connIdPlayers := connIdPlayers[c := []];
      }
      if player !in connIdPlayers[c] {
        connIdPlayers := connIdPlayers[c := connIdPlayers[c] + [player]];
      }
    }

    method DetachPlayerConn(player: Player)
      requires player in known
      modifies `connIdPlayers
      ensures View() == Detached(old(View()), player) && players == old(players)
      ensures Sessions() == old(Sessions())
    {
      var c := player.clientConnId;
      if c !in connIdPlayers {
        return;
      }
      var list := connIdPlayers[c];
      if player in list {
        list := RemoveFirst(list, player);
      } else {
        RemoveAbsent(list, player);
      }
      connIdPlayers := if list == [] then connIdPlayers - {c} else connIdPlayers[c := list];
    }

    method UpdatePlayerConn(entityId: EntityId, gateName: string, connId: ConnId) returns (found: bool)
      requires Valid()
      modifies this, known
      ensures Valid() && known == old(known) && found == (entityId in old(players))
      ensures View() == Transferred(old(View()), entityId, gateName, connId)
    {
      hide Closed, Moved, MovedSession;
      ghost var r := View();
      if entityId !in players {
        return false;
      }
      TransferredIsClosed(r, entityId, gateName, connId);
      IsKnown(r);
      var player := players[entityId];
      var before := player.clientConnId;
      var list := if before in connIdPlayers then connIdPlayers[before] else [];
      if player !in list {
        list := list + [player];
      }
      assert list == With(ListOf(r.conns, before), player);
      MovePlayers(list, gateName, connId);
      assert Sessions() == Moved(r.sessions, list, gateName, connId);
      if before != connId {
        connIdPlayers := connIdPlayers - {before};
      }
      connIdPlayers := connIdPlayers[connId := list];
      assert View() == Transferred(r, entityId, gateName, connId);
      found := true;
    }

    method MovePlayers(list: seq<Player>, gateName: string, connId: ConnId)
      requires forall p :: p in list ==> p in known
      modifies known
      ensures Sessions() == Moved(old(Sessions()), list, gateName, connId)
    {
      hide Moved, MovedSession;
      ghost var sessions := Sessions();
      MovedNone(sessions, gateName, connId);
      for k := 0 to |list|
        invariant Sessions() == Moved(sessions, list[..k], gateName, connId)
      {
        var p := list[k];
        ghost var was := Sessions();
        MovedNext(sessions, list, k, gateName, connId);
        p.Move(gateName, connId);
        assert Sessions() == was[p := MovedSession(was[p], gateName, connId)];
      }
      assert list[..|list|] == list;
    }

    /** With an instance, only that one is deleted; without one, whichever is registered. */
    method DelPlayer(entityId: EntityId, player: Player?)
      modifies `players
      ensures players ==
        if entityId in old(players) && (player == null || old(players)[entityId] == player)
        then old(players) - {entityId} else old(players)
    {
      if entityId !in players {
        return;
      }
      if player != null && players[entityId] != player {
        return;
      }
      players := players - {entityId};
    }

    method PlayerOffline(connId: ConnId) returns (reported: seq<Player>)
      requires Valid()
      modifies this
      ensures Valid() && known == old(known)
      ensures View() == Offline(old(View()), connId)
      ensures reported == Reported(old(players), old(View()).sessions, connId, ListOf(old(connIdPlayers), connId))
    {
      hide Closed, Swept, Reported;
      ghost var r := View();
      OfflineIsClosed(r, connId);
      var list := if connId in connIdPlayers then connIdPlayers[connId] else [];
      reported := [];
      for k := 0 to |list|
        invariant connIdPlayers == r.conns && known == old(known) && Sessions() == r.sessions
        invariant Swept(players, r.sessions, connId, list[k..]) == Swept(r.players, r.sessions, connId, list)
        invariant reported + Reported(players, r.sessions, connId, list[k..])
          == Reported(r.players, r.sessions, connId, list)
      {
        var p := list[k];
        assert list[k..][0] == p && list[k..][1..] == list[k + 1..];
        InList(r, connId, p);
        SweepStep(players, r.sessions, connId, list[k..]);
        if p.clientConnId == connId && p.entityId in players && players[p.entityId] == p {
          reported := reported + [p];
          DelPlayer(p.entityId, p);
        }
      }
      SweepEnd(players, r.sessions, connId);
      assert list[|list|..] == [];
      connIdPlayers := connIdPlayers - {connId};
    }
  }

  lemma IsKnown(r: Registry)
    requires Closed(r)
    ensures forall e :: e in r.players ==> r.players[e].entityId == e && r.players[e] in r.sessions
    ensures forall c :: c in r.conns ==> forall p :: p in r.conns[c] ==> p in r.sessions
  {
  }

  lemma InList(r: Registry, c: ConnId, p: Player)
    requires Closed(r) && p in ListOf(r.conns, c)
    ensures p in r.sessions
  {
  }

  lemma SweepStep(players: map<EntityId, Player>, sessions: map<Player, Session>, c: ConnId, list: seq<Player>)
    requires list != []
    ensures
      var p := list[0];
      var next := if Leaves(players, sessions, c, p) then players - {p.entityId} else players;
      && Swept(players, sessions, c, list) == Swept(next, sessions, c, list[1..])
      && Reported(players, sessions, c, list)
        == (if Leaves(players, sessions, c, p) then [p] else []) + Reported(next, sessions, c, list[1..])
  {
  }

  lemma SweepEnd(players: map<EntityId, Player>, sessions: map<Player, Session>, c: ConnId)
    ensures Swept(players, sessions, c, []) == players && Reported(players, sessions, c, []) == []
  {
  }

  lemma MovedNone(sessions: map<Player, Session>, gate: string, conn: ConnId)
    ensures Moved(sessions, [], gate, conn) == sessions
  {
  }

  /** Moving the players of a list one after the other moves them all. */
  lemma MovedNext(sessions: map<Player, Session>, list: seq<Player>, k: nat, gate: string, conn: ConnId)
    requires k < |list| && list[k] in sessions
    ensures
      var was := Moved(sessions, list[..k], gate, conn);
      Moved(sessions, list[..k + 1], gate, conn) == was[list[k] := MovedSession(was[list[k]], gate, conn)]
  {
    assert list[..k + 1] == list[..k] + [list[k]];
  }

  lemma {:induction false} RemoveAbsent(list: seq<Player>, p: Player)
    requires p !in list
    ensures RemoveFirst(list, p) == list
  {
    if list != [] {
      RemoveAbsent(list[1..], p);
    }
  }

  lemma {:induction false} RemoveMembers(list: seq<Player>, p: Player, q: Player)
    ensures q in RemoveFirst(list, p) ==> q in list
    ensures q != p && q in list ==> q in RemoveFirst(list, p)
  {
    if list != [] {
      RemoveMembers(list[1..], p, q);
    }
  }

  lemma {:induction false} SweptMembers(players: map<EntityId, Player>, sessions: map<Player, Session>, c: ConnId,
                                        list: seq<Player>)
    requires forall e :: e in players ==> players[e].entityId == e
    ensures var rest := Swept(players, sessions, c, list);
      && (forall e :: e in rest ==> e in players && rest[e] == players[e])
      && (forall e :: e in players ==>
        (e !in rest <==> players[e] in list && players[e] in sessions && sessions[players[e]].conn == c))
  {
    if list != [] {
      var p := list[0];
      var next := if Leaves(players, sessions, c, p) then players - {p.entityId} else players;
      SweptMembers(next, sessions, c, list[1..]);
    }
  }

  lemma AddedIsClosed(r: Registry, p: Player, s: Session)
    requires Closed(r)
    ensures Closed(Added(r, p, s))
  {
    var known := r.(sessions := r.sessions[p := s]);
    if p.entityId in r.players && r.players[p.entityId] != p {
      DetachedIsClosed(known, r.players[p.entityId]);
    }
  }

  lemma DetachedIsClosed(r: Registry, p: Player)
    requires Closed(r) && p in r.sessions
    ensures Closed(Detached(r, p))
  {
    var d, at := Detached(r, p), r.sessions[p].conn;
    forall c, q | c in d.conns && q in d.conns[c]
      ensures q in d.sessions
    {
      if c == at {
        RemoveMembers(r.conns[at], p, q);
      }
      assert q in r.conns[c];
    }
  }

  lemma TransferredIsClosed(r: Registry, e: EntityId, gate: string, conn: ConnId)
    requires Closed(r)
    ensures Closed(Transferred(r, e, gate, conn))
  {
  }

  lemma OfflineIsClosed(r: Registry, c: ConnId)
    requires Closed(r)
    ensures Closed(Offline(r, c))
  {
    SweptMembers(r.players, r.sessions, c, ListOf(r.conns, c));
  }

  // ---------------------------------------------------------------------------------------------
  // The index is a partition
  // ---------------------------------------------------------------------------------------------

  ghost predicate Distinct(list: seq<Player>) {
    forall i, j :: 0 <= i < j < |list| ==> list[i] != list[j]
  }

  ghost predicate AllOn(r: Registry, c: ConnId, list: seq<Player>) {
    list != [] && Distinct(list) && forall p :: p in list ==> Leaves(r.players, r.sessions, c, p)
  }

  /** Every list of the index holds registered players on its connection, once each; every registered player is listed. */
  ghost predicate Partition(r: Registry) {
    && Closed(r)
    && (forall c :: c in r.conns ==> AllOn(r, c, r.conns[c]))
    && (forall e :: e in r.players ==> r.players[e] in ListOf(r.conns, r.sessions[r.players[e]].conn))
  }

  lemma TailDistinct(list: seq<Player>)
    requires Distinct(list) && list != []
    ensures Distinct(list[1..]) && list[0] !in list[1..]
  {
    var tail := list[1..];
    assert forall i :: 0 <= i < |tail| ==> tail[i] == list[i + 1];
  }

  lemma {:induction false} RemoveExactly(list: seq<Player>, p: Player)
    requires Distinct(list)
    ensures Distinct(RemoveFirst(list, p))
    ensures forall q :: q in RemoveFirst(list, p) <==> q in list && q != p
  {
    if list != [] {
      TailDistinct(list);
      RemoveExactly(list[1..], p);
    }
  }

  lemma WithDistinct(list: seq<Player>, p: Player)
    requires Distinct(list)
    ensures Distinct(With(list, p)) && With(list, p) != []
    ensures forall q :: q in With(list, p) <==> q in list || q == p
  {
  }

  /** A new instance takes over its entity; all other entities stay as they are. */
  lemma AddKeepsPartition(r: Registry, p: Player, s: Session)
    requires Partition(r) && (p in r.sessions ==> r.sessions[p] == s)
    ensures
      var a := Added(r, p, s);
      && Partition(a) && Registered(a, p) && a.sessions == r.sessions[p := s]
      && a.players == r.players[p.entityId := p]
  {
    hide AllOn, With, Alone, ListOf;
    AddedIsClosed(r, p, s);
    AloneShape(r, p, s);
    AddedLists(r, p, s);
    AddedIsListed(r, p, s);
  }

  /** `q` is no other instance of the entity of `p`. */
  predicate Stays(p: Player, q: Player) {
    q.entityId == p.entityId ==> q == p
  }

  predicate Listed(r: Registry, c: ConnId, p: Player) {
    c in r.conns && p in r.conns[c]
  }

  lemma ListedLeaves(r: Registry, c: ConnId, q: Player)
    requires Partition(r) && Listed(r, c, q)
    ensures Leaves(r.players, r.sessions, c, q) && Distinct(r.conns[c])
  {
    assert AllOn(r, c, r.conns[c]);
  }

  lemma AloneShape(r: Registry, p: Player, s: Session)
    requires Partition(r) && (p in r.sessions ==> r.sessions[p] == s)
    ensures
      var a := Alone(r, p, s);
      && a.players == r.players && a.sessions == r.sessions[p := s]
      && (forall c :: c in a.conns ==> a.conns[c] != [] && Distinct(a.conns[c]))
  {
    hide RemoveFirst, Listed;
    forall c | c in r.conns
      ensures r.conns[c] != [] && Distinct(r.conns[c])
    {
      assert AllOn(r, c, r.conns[c]);
    }
    if p.entityId in r.players && r.players[p.entityId] != p {
      var before := r.players[p.entityId];
      var at := r.sessions[before].conn;
      assert before in ListOf(r.conns, at);
      RemoveExactly(r.conns[at], before);
    }
  }

  lemma AloneMember(r: Registry, p: Player, s: Session, c: ConnId, q: Player)
    requires Partition(r) && (p in r.sessions ==> r.sessions[p] == s)
    ensures Listed(Alone(r, p, s), c, q) <==> Listed(r, c, q) && Stays(p, q)
  {
    hide RemoveFirst, AllOn;
    if Listed(r, c, q) {
      ListedLeaves(r, c, q);
    }
    if p.entityId in r.players && r.players[p.entityId] != p {
      var before := r.players[p.entityId];
      var at := r.sessions[before].conn;
      assert before in ListOf(r.conns, at);
      ListedLeaves(r, at, before);
      RemoveExactly(r.conns[at], before);
    }
  }

  lemma AddedMember(r: Registry, p: Player, s: Session, c: ConnId, q: Player)
    requires Partition(r) && (p in r.sessions ==> r.sessions[p] == s)
    ensures Listed(Added(r, p, s), c, q) <==> (c == s.conn && q == p) || (Listed(r, c, q) && Stays(p, q))
  {
    hide Alone, Distinct;
    AloneMember(r, p, s, c, q);
  }

  lemma AddedLists(r: Registry, p: Player, s: Session)
    requires Partition(r) && (p in r.sessions ==> r.sessions[p] == s)
    ensures var a := Added(r, p, s); forall c :: c in a.conns ==> AllOn(a, c, a.conns[c])
  {
    hide With, Alone, Closed;
    var a, alone := Added(r, p, s), Alone(r, p, s);
    AloneShape(r, p, s);
    NothingTwice(alone.conns, s.conn);
    WithDistinct(ListOf(alone.conns, s.conn), p);
    forall c | c in a.conns
      ensures AllOn(a, c, a.conns[c])
    {
      forall q | q in a.conns[c]
        ensures Leaves(a.players, a.sessions, c, q)
      {
        AddedMember(r, p, s, c, q);
        if c != s.conn || q != p {
          ListedLeaves(r, c, q);
        }
      }
    }
  }

  lemma NothingTwice(conns: map<ConnId, seq<Player>>, c: ConnId)
    requires c in conns ==> Distinct(conns[c])
    ensures Distinct(ListOf(conns, c))
  {
  }

  lemma AddedIsListed(r: Registry, p: Player, s: Session)
    requires Partition(r) && (p in r.sessions ==> r.sessions[p] == s)
    ensures var a := Added(r, p, s);
      forall e :: e in a.players ==> a.players[e] in a.sessions && a.players[e] in ListOf(a.conns, a.sessions[a.players[e]].conn)
  {
    hide With, Alone, AllOn;
    var a := Added(r, p, s);
    AloneShape(r, p, s);
    forall e | e in a.players
      ensures a.players[e] in a.sessions && a.players[e] in ListOf(a.conns, a.sessions[a.players[e]].conn)
    {
      var q := a.players[e];
      AddedMember(r, p, s, a.sessions[q].conn, q);
    }
  }

  /** A transfer keeps the partition just when nobody else is on the connection it goes to. */
  lemma TransferKeepsPartition(r: Registry, e: EntityId, gate: string, conn: ConnId)
    requires Partition(r) && e in r.players
    ensures
      var t := Transferred(r, e, gate, conn);
      && (Partition(t) <==> conn == r.sessions[r.players[e]].conn || conn !in r.conns)
      && t.sessions[r.players[e]].conn == conn
  {
    var before := r.sessions[r.players[e]].conn;
    var t, list := Transferred(r, e, gate, conn), ListOf(r.conns, before);
    assert r.players[e] in list && AllOn(r, before, list);
    TransferredIsClosed(r, e, gate, conn);
    if conn == before || conn !in r.conns {
      forall c | c in t.conns
        ensures AllOn(t, c, t.conns[c])
      {
        assert c != conn ==> AllOn(r, c, r.conns[c]);
      }
      forall f | f in t.players
        ensures t.players[f] in ListOf(t.conns, t.sessions[t.players[f]].conn)
      {
        assert r.players[f] in ListOf(r.conns, r.sessions[r.players[f]].conn);
      }
    } else {
      assert AllOn(r, conn, r.conns[conn]);
      var q := r.conns[conn][0];
      OverwrittenIsStranded(r, e, gate, conn, q);
      assert q == t.players[q.entityId];
    }
  }

  /** The session goes on at another gate: the gate is known from now on, and the ones known before stay, in order. */
  predicate MovesTo(s: Session, s': Session, gate: string, conn: ConnId) {
    && s'.conn == conn && s'.gate == gate && gate in s'.gates && s.gates <= s'.gates
    && (gate in s.gates ==> s'.gates == s.gates) && |s'.gates| <= |s.gates| + 1
  }

  /** A transfer moves exactly the registered players on the connection, and the whole list with them. */
  lemma TransferMoves(r: Registry, e: EntityId, gate: string, conn: ConnId)
    requires Partition(r) && e in r.players
    ensures r.players[e] in r.sessions && Transferred(r, e, gate, conn).sessions.Keys == r.sessions.Keys
    ensures
      var t, before := Transferred(r, e, gate, conn), r.sessions[r.players[e]].conn;
      && t.players == r.players && before in r.conns && conn in t.conns && t.conns[conn] == r.conns[before]
      && (forall c :: c != before && c != conn ==> ListOf(t.conns, c) == ListOf(r.conns, c))
      && (before != conn ==> before !in t.conns)
      && forall p :: p in r.sessions ==>
           if Registered(r, p) && r.sessions[p].conn == before then MovesTo(r.sessions[p], t.sessions[p], gate, conn)
           else t.sessions[p] == r.sessions[p]
  {
    hide AllOn;
    var before := r.sessions[r.players[e]].conn;
    assert r.players[e] in ListOf(r.conns, before);
    forall p ensures p in ListOf(r.conns, before) <==> Leaves(r.players, r.sessions, before, p) {
      ListedExactly(r, before, p);
    }
  }

  /** A transfer onto a connection with other players: they stay registered there, unlisted, and its end misses them. */
  lemma OverwrittenIsStranded(r: Registry, e: EntityId, gate: string, conn: ConnId, q: Player)
    requires Partition(r) && e in r.players && conn != r.sessions[r.players[e]].conn
    requires conn in r.conns && q in r.conns[conn]
    ensures
      var t := Transferred(r, e, gate, conn);
      && Closed(t) && Registered(t, q) && t.sessions[q].conn == conn && q !in ListOf(t.conns, conn)
      && Registered(Offline(t, conn), q)
  {
    var before := r.sessions[r.players[e]].conn;
    var t, list := Transferred(r, e, gate, conn), ListOf(r.conns, before);
    assert r.players[e] in list && AllOn(r, before, list) && AllOn(r, conn, r.conns[conn]);
    TransferredIsClosed(r, e, gate, conn);
    SweptMembers(t.players, t.sessions, conn, ListOf(t.conns, conn));
  }

  lemma {:induction false} ReportsAll(players: map<EntityId, Player>, sessions: map<Player, Session>, c: ConnId,
                                      list: seq<Player>)
    requires Distinct(list) && forall p :: p in list ==> Leaves(players, sessions, c, p)
    ensures Reported(players, sessions, c, list) == list
  {
    if list != [] {
      TailDistinct(list);
      forall q | q in list[1..]
        ensures Leaves(players - {list[0].entityId}, sessions, c, q)
      {
        assert Leaves(players, sessions, c, q) && Leaves(players, sessions, c, list[0]);
      }
      ReportsAll(players - {list[0].entityId}, sessions, c, list[1..]);
    }
  }

  /** The end of a connection reports and removes exactly the registered players on it, each once. */
  lemma OfflineIsExact(r: Registry, c: ConnId)
    requires Partition(r)
    ensures Partition(Offline(r, c)) && Offline(r, c).sessions == r.sessions
    ensures forall e :: e in r.players ==> (e !in Offline(r, c).players <==> r.sessions[r.players[e]].conn == c)
    ensures forall e :: e in Offline(r, c).players ==> e in r.players && Offline(r, c).players[e] == r.players[e]
    ensures
      var reported := Reported(r.players, r.sessions, c, ListOf(r.conns, c));
      && Distinct(reported)
      && forall p :: p in reported <==> Registered(r, p) && p in r.sessions && r.sessions[p].conn == c
  {
    hide Swept, Reported;
    OfflineRemoves(r, c);
    OfflineKeepsIndex(r, c);
    if c in r.conns {
      assert AllOn(r, c, r.conns[c]);
      ReportsAll(r.players, r.sessions, c, r.conns[c]);
    } else {
      SweepEnd(r.players, r.sessions, c);
    }
    forall p
      ensures p in ListOf(r.conns, c) <==> Leaves(r.players, r.sessions, c, p)
    {
      ListedExactly(r, c, p);
    }
  }

  lemma ListedExactly(r: Registry, c: ConnId, p: Player)
    requires Partition(r)
    ensures p in ListOf(r.conns, c) <==> Leaves(r.players, r.sessions, c, p)
  {
    if c in r.conns {
      assert AllOn(r, c, r.conns[c]);
    }
    if Leaves(r.players, r.sessions, c, p) {
      assert r.players[p.entityId] in ListOf(r.conns, c);
    }
  }

  lemma OfflineRemoves(r: Registry, c: ConnId)
    requires Partition(r)
    ensures forall e :: e in r.players ==> (e !in Offline(r, c).players <==> r.sessions[r.players[e]].conn == c)
    ensures forall e :: e in Offline(r, c).players ==> e in r.players && Offline(r, c).players[e] == r.players[e]
  {
    hide Swept;
    SweptMembers(r.players, r.sessions, c, ListOf(r.conns, c));
    forall e | e in r.players
      ensures e !in Offline(r, c).players <==> r.sessions[r.players[e]].conn == c
    {
      ListedExactly(r, c, r.players[e]);
    }
  }

  lemma OfflineKeepsIndex(r: Registry, c: ConnId)
    requires Partition(r)
    ensures Partition(Offline(r, c))
  {
    hide Swept;
    var f := Offline(r, c);
    OfflineRemoves(r, c);
    OfflineIsClosed(r, c);
    forall d | d in f.conns
      ensures AllOn(f, d, f.conns[d])
    {
      assert AllOn(r, d, r.conns[d]);
    }
    forall e | e in f.players
      ensures f.players[e] in ListOf(f.conns, f.sessions[f.players[e]].conn)
    {
      assert r.players[e] in ListOf(r.conns, r.sessions[r.players[e]].conn);
    }
  }

  // ---------------------------------------------------------------------------------------------
  // Whole runs
  // ---------------------------------------------------------------------------------------------

  datatype Action =
    | Login(player: Player, session: Session)
    | Transfer(entityId: EntityId, gate: string, conn: ConnId)
    | Disconnect(conn: ConnId)

  function Act(r: Registry, a: Action): (r': Registry)
    requires Closed(r)
    ensures Closed(r')
  {
    match a
    case Login(p, s) => AddedIsClosed(r, p, s); Added(r, p, s)
    case Transfer(e, gate, conn) => TransferredIsClosed(r, e, gate, conn); Transferred(r, e, gate, conn)
    case Disconnect(c) => OfflineIsClosed(r, c); Offline(r, c)
  }

  function Run(r: Registry, actions: seq<Action>): (r': Registry)
    requires Closed(r)
    ensures Closed(r')
    decreases |actions|
  {
    if actions == [] then r else Run(Act(r, actions[0]), actions[1..])
  }

  /** Instances log in with the session they have; nobody is transferred onto the connection of others. */
  ghost predicate Orderly(r: Registry, a: Action)
    requires Closed(r)
  {
    match a
    case Login(p, s) => p in r.sessions ==> r.sessions[p] == s
    case Transfer(e, _, conn) => e in r.players ==> conn == r.sessions[r.players[e]].conn || conn !in r.conns
    case Disconnect(_) => true
  }

  ghost predicate OrderlyRun(r: Registry, actions: seq<Action>)
    requires Closed(r)
    decreases |actions|
  {
    actions == [] || (Orderly(r, actions[0]) && OrderlyRun(Act(r, actions[0]), actions[1..]))
  }

  lemma {:induction false} RunKeepsPartition(r: Registry, actions: seq<Action>)
    requires Partition(r) && OrderlyRun(r, actions)
    ensures Partition(Run(r, actions))
    decreases |actions|
  {
    hide Closed, AllOn, Added, Transferred, Offline;
    if actions != [] {
      ActKeepsPartition(r, actions[0]);
      RunKeepsPartition(Act(r, actions[0]), actions[1..]);
    }
  }

  lemma ActKeepsPartition(r: Registry, a: Action)
    requires Partition(r) && Orderly(r, a)
    ensures Partition(Act(r, a))
  {
    hide AllOn, ListOf, Added, Offline;
    match a
    case Login(p, s) => AddKeepsPartition(r, p, s);
    case Transfer(e, gate, conn) =>
      if e in r.players {
        TransferKeepsPartition(r, e, gate, conn);
      }
    case Disconnect(c) => OfflineIsExact(r, c);
  }

  /** In every orderly session of the server, the index lists exactly the registered players by connection. */
  lemma EverySession(actions: seq<Action>, p: Player, c: ConnId)
    requires OrderlyRun(Registry(map[], map[], map[]), actions)
    ensures
      var r := Run(Registry(map[], map[], map[]), actions);
      p in ListOf(r.conns, c) <==> Registered(r, p) && p in r.sessions && r.sessions[p].conn == c
  {
    var r := Run(Registry(map[], map[], map[]), actions);
    RunKeepsPartition(Registry(map[], map[], map[]), actions);
    if c in r.conns {
      assert AllOn(r, c, r.conns[c]);
    }
    if Registered(r, p) {
      assert r.players[p.entityId] in ListOf(r.conns, r.sessions[p].conn);
    }
  }

  /** Nothing in the run replaces `p` by another instance or ends the connection it is on at that time. */
  ghost predicate Unharmed(r: Registry, actions: seq<Action>, p: Player)
    requires Closed(r)
    decreases |actions|
  {
    actions == [] ||
      ((match actions[0]
        case Login(q, _) => q.entityId == p.entityId ==> q == p
        case Transfer(_, _, _) => true
        case Disconnect(c) => p in r.sessions ==> r.sessions[p].conn != c)
       && Unharmed(Act(r, actions[0]), actions[1..], p))
  }

  /** In any run, orderly or not, a registered player only goes by a newer instance or the end of its own connection. */
  lemma {:induction false} StaysRegistered(r: Registry, actions: seq<Action>, p: Player)
    requires Closed(r) && Registered(r, p) && Unharmed(r, actions, p)
    ensures Registered(Run(r, actions), p)
    decreases |actions|
  {
    if actions != [] {
      var a := actions[0];
      if a.Disconnect? {
        SweptMembers(r.players, r.sessions, a.conn, ListOf(r.conns, a.conn));
      }
      StaysRegistered(Act(r, a), actions[1..], p);
    }
  }

  /** The late end of the connection a player was transferred away from, or an older instance had, does not touch it. */
  lemma LateDisconnect(r: Registry, e: EntityId, gate: string, conn: ConnId, q: Player, s: Session, c: ConnId)
    requires Closed(r)
    ensures e in r.players && c != conn ==> Registered(Run(r, [Transfer(e, gate, conn), Disconnect(c)]), r.players[e])
    ensures c != s.conn ==> Registered(Run(r, [Login(q, s), Disconnect(c)]), q)
  {
    var rest: seq<Action> := [Disconnect(c)];
    if e in r.players && c != conn {
      var p, t := r.players[e], Act(r, Transfer(e, gate, conn));
      assert [Transfer(e, gate, conn), Disconnect(c)][1..] == rest;
      assert Unharmed(Act(t, Disconnect(c)), rest[1..], p);
      assert Unharmed(t, rest, p);
      StaysRegistered(t, rest, p);
    }
    if c != s.conn {
      var t := Act(r, Login(q, s));
      assert [Login(q, s), Disconnect(c)][1..] == rest;
      assert Unharmed(Act(t, Disconnect(c)), rest[1..], q);
      assert Unharmed(t, rest, q);
      StaysRegistered(t, rest, q);
    }
  }
}
