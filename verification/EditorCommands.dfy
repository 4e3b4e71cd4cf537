/** Undoable commands of the editor, alone and in groups. */
module EditorCommands {
  import opened Basics

  type Key = string
  type Content = string

  /** What the callbacks of the commands act on: the content under each key (an entity, or one of its fields). */
  type Document = map<Key, Content>

  /**
    `Edit` stands for the commands that always succeed and record the state before and after: transform, delete
    (`after` is None), create (`before` is None), reparent, body kind and rename. `wired` tells whether the
    callback is set. `Instantiate` fails when nothing was created.
  */
  datatype Command =
    | Edit(key: Key, before: Option<Content>, after: Option<Content>, wired: bool, executed: bool)
    | Instantiate(spawned: seq<(Key, Content)>, created: seq<Key>, wired: bool, executed: bool)
    | Group(members: seq<Command>, executed: bool)

  datatype Outcome = Outcome(command: Command, doc: Document, ok: bool)

  datatype Outcomes = Outcomes(members: seq<Command>, doc: Document, ok: bool)

  function Lookup(doc: Document, key: Key): Option<Content> {
    if key in doc then Some(doc[key]) else None
  }

  function Store(doc: Document, key: Key, content: Option<Content>): (r: Document)
    ensures Lookup(r, key) == content
    ensures forall k :: k != key ==> Lookup(r, k) == Lookup(doc, k)
  {
    match content
    case Some(v) => doc[key := v]
    case None => doc - {key}
  }

  function Spawn(doc: Document, spawned: seq<(Key, Content)>): Document {
    if spawned == [] then doc else
      Spawn(doc, spawned[..|spawned| - 1])[spawned[|spawned| - 1].0 := spawned[|spawned| - 1].1]
  }

  function Keys(spawned: seq<(Key, Content)>): (r: seq<Key>)
    ensures |r| == |spawned|
  {
    seq(|spawned|, i requires 0 <= i < |spawned| => spawned[i].0)
  }

  function Without(doc: Document, keys: seq<Key>): Document {
    doc - set k | k in keys
  }

  // ---------------------------------------------------------------------------------------------
  // Executing and undoing
  // ---------------------------------------------------------------------------------------------

  function Execute(c: Command, doc: Document): Outcome
    decreases c
  {
    match c
    case Edit(key, before, after, wired, _) =>
      Outcome(Edit(key, before, after, wired, true), if wired then Store(doc, key, after) else doc, true)
    case Instantiate(spawned, created, wired, _) =>
      var created' := if wired then Keys(spawned) else created;
      Outcome(Instantiate(spawned, created', wired, true), if wired then Spawn(doc, spawned) else doc, created' != [])
    case Group(members, executed) =>
      var r := ExecuteAll(members, doc);
      if r.ok then Outcome(Group(r.members, true), r.doc, true)
      else
        var back := RollBack(r.members, r.doc);
        Outcome(Group(back.members, executed), back.doc, false)
  }

  /** Members run in order, up to the first that fails; the others are left as they are. */
  function ExecuteAll(members: seq<Command>, doc: Document): (r: Outcomes)
    ensures |r.members| == |members|
    decreases members
  {
    if members == [] then Outcomes([], doc, true) else
      var first := Execute(members[0], doc);
      if !first.ok then Outcomes([first.command] + members[1..], first.doc, false) else
      var others := ExecuteAll(members[1..], first.doc);
      Outcomes([first.command] + others.members, others.doc, others.ok)
  }

  function Undo(c: Command, doc: Document): Outcome
    decreases c
  {
    if !c.executed then Outcome(c, doc, false) else
    match c
    case Edit(key, before, after, wired, _) =>
      Outcome(Edit(key, before, after, wired, false), if wired then Store(doc, key, before) else doc, true)
    case Instantiate(spawned, created, wired, _) =>
      Outcome(Instantiate(spawned, created, wired, false), if wired then Without(doc, created) else doc, true)
    case Group(members, _) =>
      var r := UndoAll(members, doc);
      Outcome(Group(r.members, !r.ok), r.doc, r.ok)
  }

  /** Members are undone from the last to the first; the first failure stops. */
  function UndoAll(members: seq<Command>, doc: Document): (r: Outcomes)
    ensures |r.members| == |members|
    decreases members
  {
    if members == [] then Outcomes([], doc, true) else
      var n := |members| - 1;
      var last := Undo(members[n], doc);
      if !last.ok then Outcomes(members[..n] + [last.command], last.doc, false) else
      var front := UndoAll(members[..n], last.doc);
      Outcomes(front.members + [last.command], front.doc, front.ok)
  }

  /** `rollback_executed`: every member is asked to undo, last first, and failures are ignored. */
  function RollBack(members: seq<Command>, doc: Document): (r: Outcomes)
    ensures |r.members| == |members|
    decreases members
  {
    if members == [] then Outcomes([], doc, true) else
      var n := |members| - 1;
      var last := Undo(members[n], doc);
      var front := RollBack(members[..n], last.doc);
      Outcomes(front.members + [last.command], front.doc, true)
  }

  // ---------------------------------------------------------------------------------------------
  // The loops of the groups
  // ---------------------------------------------------------------------------------------------

  /** The loop of `CommandGroup::execute`, with its rollback. */
  method ExecuteGroup(members: seq<Command>, executed: bool, doc: Document) returns (r: Outcome)
    ensures r == Execute(Group(members, executed), doc)
  {
    hide Execute, ExecuteAll, Undo, UndoAll, RollBack, After;
    assert Execute(Group(members, executed), doc) == GroupOutcome(ExecuteAll(members, doc), executed) by {
      GroupUnfolds(members, executed, doc);
    }
    var ms, d := members, doc;
    ghost var done: seq<Command> := [];
    var i := 0;
    FirstMember(members, doc);
    while i < |members|
      invariant i <= |members| && |done| == i && ms == done + members[i..]
      invariant ExecuteAll(members, doc) == After(done, ExecuteAll(members[i..], d))
    {
      var one := Execute(members[i], d);
      NextMember(members, i, d, done);
      ms := ms[i := one.command];
      done := done + [one.command];
      d := one.doc;
      if !one.ok {
        var back := RollBackGroup(ms, d);
        return Outcome(Group(back.members, executed), back.doc, false);
      }
      i := i + 1;
    }
    LastMember(members, done, d);
    r := Outcome(Group(ms, true), d, true);
  }

  /** The outcome `r` behind members that already ran. */
  function After(done: seq<Command>, r: Outcomes): Outcomes {
    Outcomes(done + r.members, r.doc, r.ok)
  }

  lemma FirstMember(members: seq<Command>, doc: Document)
    ensures members[0..] == members && [] + members == members
    ensures ExecuteAll(members, doc) == After([], ExecuteAll(members[0..], doc))
  {
    assert [] + ExecuteAll(members, doc).members == ExecuteAll(members, doc).members;
  }

  lemma LastMember(members: seq<Command>, done: seq<Command>, doc: Document)
    ensures done + members[|members|..] == done
    ensures After(done, ExecuteAll(members[|members|..], doc)) == Outcomes(done, doc, true)
  {
  }

  lemma NextMember(members: seq<Command>, i: nat, d: Document, done: seq<Command>)
    requires i < |members| && |done| == i
    ensures
      var c := Execute(members[i], d).command;
      (done + members[i..])[i := c] == done + [c] + members[i + 1..]
    ensures
      var one := Execute(members[i], d);
      After(done, ExecuteAll(members[i..], d)) ==
        if one.ok then After(done + [one.command], ExecuteAll(members[i + 1..], one.doc))
        else Outcomes(done + [one.command] + members[i + 1..], one.doc, false)
  {
    hide Execute;
    var one := Execute(members[i], d);
    assert members[i..][0] == members[i] && members[i..][1..] == members[i + 1..];
    var others := ExecuteAll(members[i + 1..], one.doc);
    assert done + ([one.command] + others.members) == done + [one.command] + others.members;
    assert done + ([one.command] + members[i + 1..]) == done + [one.command] + members[i + 1..];
  }

  function GroupOutcome(r: Outcomes, executed: bool): Outcome {
    if r.ok then Outcome(Group(r.members, true), r.doc, true)
    else Outcome(Group(RollBack(r.members, r.doc).members, executed), RollBack(r.members, r.doc).doc, false)
  }

  lemma GroupUnfolds(members: seq<Command>, executed: bool, doc: Document)
    ensures Execute(Group(members, executed), doc) == GroupOutcome(ExecuteAll(members, doc), executed)
  {
  }

  method RollBackGroup(members: seq<Command>, doc: Document) returns (r: Outcomes)
    ensures r == RollBack(members, doc)
  {
    var ms, d := members, doc;
    var i := |members|;
    assert members[..i] == members && RollBack(members, doc).members + ms[i..] == RollBack(members, doc).members;
    while i > 0
      invariant 0 <= i <= |members| == |ms| && ms[..i] == members[..i]
      invariant
        var all, front := RollBack(members, doc), RollBack(members[..i], d);
        all == Outcomes(front.members + ms[i..], front.doc, true)
    {
      i := i - 1;
      assert members[..i + 1][..i] == members[..i] && members[..i + 1][i] == members[i];
      var one := Undo(ms[i], d);
      ghost var before := ms;
      ms := ms[i := one.command];
      assert ms[i..] == [one.command] + before[i + 1..];
      assert RollBack(members[..i], one.doc).members + [one.command] + before[i + 1..]
        == RollBack(members[..i], one.doc).members + ms[i..];
      d := one.doc;
    }
    assert members[..0] == [] && [] + ms[0..] == ms;
    r := Outcomes(ms, d, true);
  }

  /** The loop of `CommandGroup::undo`. */
  method UndoGroup(members: seq<Command>, executed: bool, doc: Document) returns (r: Outcome)
    ensures r == Undo(Group(members, executed), doc)
  {
    if !executed {
      return Outcome(Group(members, executed), doc, false);
    }
    var ms, d := members, doc;
    var i := |members|;
    assert members[..i] == members && UndoAll(members, doc).members + ms[i..] == UndoAll(members, doc).members;
    while i > 0
      invariant 0 <= i <= |members| == |ms| && ms[..i] == members[..i]
      invariant
        var all, front := UndoAll(members, doc), UndoAll(members[..i], d);
        all == Outcomes(front.members + ms[i..], front.doc, front.ok)
    {
      i := i - 1;
      assert members[..i + 1][..i] == members[..i] && members[..i + 1][i] == members[i];
      var one := Undo(ms[i], d);
      ghost var before := ms;
      ms := ms[i := one.command];
      assert ms[i..] == [one.command] + before[i + 1..];
      d := one.doc;
      if !one.ok {
        assert ms == members[..i] + [one.command] + before[i + 1..];
        return Outcome(Group(ms, true), d, false);
      }
      assert UndoAll(members[..i], one.doc).members + [one.command] + before[i + 1..]
        == UndoAll(members[..i], one.doc).members + ms[i..];
    }
    assert members[..0] == [] && [] + ms[0..] == ms;
    r := Outcome(Group(ms, false), d, true);
  }

  // ---------------------------------------------------------------------------------------------
  // What a command must have recorded
  // ---------------------------------------------------------------------------------------------

  /** Nothing inside is executed. */
  predicate Fresh(c: Command) {
    !c.executed && (c.Group? ==> forall i :: 0 <= i < |c.members| ==> Fresh(c.members[i]))
  }

  predicate AllFresh(members: seq<Command>) {
    forall i :: 0 <= i < |members| ==> Fresh(members[i])
  }

  /** The recorded old state is the state in front of the command, at every leaf that gets to run. */
  predicate Records(c: Command, doc: Document)
    decreases c
  {
    match c
    case Edit(key, before, _, wired, _) => wired ==> Lookup(doc, key) == before
    case Instantiate(spawned, created, wired, _) =>
      if wired then NewKeys(spawned, doc) else created == []
    case Group(members, _) => AllRecord(members, doc)
  }

  predicate AllRecord(members: seq<Command>, doc: Document)
    decreases members
  {
    members == [] ||
      (Records(members[0], doc)
       && (Execute(members[0], doc).ok ==> AllRecord(members[1..], Execute(members[0], doc).doc)))
  }

  predicate NewKeys(spawned: seq<(Key, Content)>, doc: Document) {
    && (forall i :: 0 <= i < |spawned| ==> spawned[i].0 !in doc)
    && (forall i, j :: 0 <= i < j < |spawned| ==> spawned[i].0 != spawned[j].0)
  }

  lemma {:induction false} SpawnAddsKeys(doc: Document, spawned: seq<(Key, Content)>)
    ensures forall k :: k in Spawn(doc, spawned) <==> k in doc || k in Keys(spawned)
    ensures forall k :: k in doc && k !in Keys(spawned) ==> Spawn(doc, spawned)[k] == doc[k]
    decreases |spawned|
  {
    if spawned != [] {
      var n := |spawned| - 1;
      SpawnAddsKeys(doc, spawned[..n]);
      assert Keys(spawned) == Keys(spawned[..n]) + [spawned[n].0];
    }
  }

  lemma RemovingSpawned(doc: Document, spawned: seq<(Key, Content)>)
    requires NewKeys(spawned, doc)
    ensures Without(Spawn(doc, spawned), Keys(spawned)) == doc
  {
    SpawnAddsKeys(doc, spawned);
    forall k | k in doc ensures k !in Keys(spawned) {
    }
  }

  lemma StoreBack(doc: Document, key: Key, before: Option<Content>, after: Option<Content>)
    requires Lookup(doc, key) == before
    ensures Store(Store(doc, key, after), key, before) == doc
  {
    var d := Store(Store(doc, key, after), key, before);
    assert forall k :: Lookup(d, k) == Lookup(doc, k);
    assert forall k :: k in d <==> Lookup(d, k) != None;
    assert forall k :: k in doc <==> Lookup(doc, k) != None;
    forall k | k in d ensures d[k] == doc[k] {
      assert Lookup(d, k) == Lookup(doc, k);
    }
  }

  // ---------------------------------------------------------------------------------------------
  // What a command achieves
  // ---------------------------------------------------------------------------------------------

  /** One change of the document: the content that a key has afterwards, or None when it is gone. */
  datatype Write = Write(key: Key, content: Option<Content>)

  /** The changes that a command stands for, in order; a leaf without a callback makes none. */
  function Writes(c: Command): seq<Write>
    decreases c
  {
    match c
    case Edit(key, _, after, wired, _) => if wired then [Write(key, after)] else []
    case Instantiate(spawned, _, wired, _) => if wired then SpawnWrites(spawned) else []
    case Group(members, _) => AllWrites(members)
  }

  function SpawnWrites(spawned: seq<(Key, Content)>): (w: seq<Write>)
    ensures |w| == |spawned|
  {
    seq(|spawned|, i requires 0 <= i < |spawned| => Write(spawned[i].0, Some(spawned[i].1)))
  }

  function AllWrites(members: seq<Command>): seq<Write>
    decreases members
  {
    if members == [] then [] else Writes(members[0]) + AllWrites(members[1..])
  }

  /** What the last change of `key` says; `before` when there is none. */
  function LastWrite(writes: seq<Write>, key: Key, before: Option<Content>): Option<Content> {
    if writes == [] then before else
      var w := writes[|writes| - 1];
      if w.key == key then w.content else LastWrite(writes[..|writes| - 1], key, before)
  }

  /** Every key holds what its last change says, and the others what they held before. */
  ghost predicate Rewritten(before: Document, writes: seq<Write>, now: Document) {
    forall k :: Lookup(now, k) == LastWrite(writes, k, Lookup(before, k))
  }

  /** Every instantiation inside creates something; one without a callback relies on what it created before. */
  predicate Succeeds(c: Command)
    decreases c
  {
    match c
    case Edit(_, _, _, _, _) => true
    case Instantiate(spawned, created, wired, _) => if wired then spawned != [] else created != []
    case Group(members, _) => forall i :: 0 <= i < |members| ==> Succeeds(members[i])
  }

  lemma {:induction false} LastWriteConcat(first: seq<Write>, second: seq<Write>, key: Key, before: Option<Content>)
    ensures LastWrite(first + second, key, before) == LastWrite(second, key, LastWrite(first, key, before))
    decreases |second|
  {
    if second == [] {
      assert first + second == first;
    } else {
      var n := |second| - 1;
      assert (first + second)[..|first| + n] == first + second[..n];
      LastWriteConcat(first, second[..n], key, before);
    }
  }

  lemma RewrittenConcat(before: Document, first: seq<Write>, mid: Document, second: seq<Write>, now: Document)
    requires Rewritten(before, first, mid) && Rewritten(mid, second, now)
    ensures Rewritten(before, first + second, now)
  {
    hide LastWrite, Lookup;
    forall k ensures Lookup(now, k) == LastWrite(first + second, k, Lookup(before, k)) {
      LastWriteConcat(first, second, k, Lookup(before, k));
    }
  }

  lemma {:induction false} SpawnRewrites(doc: Document, spawned: seq<(Key, Content)>)
    ensures Rewritten(doc, SpawnWrites(spawned), Spawn(doc, spawned))
    decreases |spawned|
  {
    if spawned != [] {
      var n := |spawned| - 1;
      SpawnRewrites(doc, spawned[..n]);
      assert SpawnWrites(spawned)[..n] == SpawnWrites(spawned[..n]);
    }
  }

  /**
    A command succeeds just when every instantiation inside creates something, whatever the document. Then every key
    holds what its last change inside says, to any depth of grouping, and the others are as before.
  */
  lemma {:induction false} ExecuteAchieves(c: Command, doc: Document)
    ensures Execute(c, doc).ok <==> Succeeds(c)
    ensures Succeeds(c) ==> Rewritten(doc, Writes(c), Execute(c, doc).doc) && Writes(Execute(c, doc).command) == Writes(c)
    decreases c
  {
    match c {
      case Edit(key, before, after, wired, _) =>
      case Instantiate(spawned, created, wired, _) =>
        SpawnRewrites(doc, spawned);
      case Group(members, _) =>
        MembersAchieve(members, doc);
    }
  }

  lemma {:induction false} MembersAchieve(members: seq<Command>, doc: Document)
    ensures
      var r := ExecuteAll(members, doc);
      && (r.ok <==> forall i :: 0 <= i < |members| ==> Succeeds(members[i]))
      && (r.ok ==> Rewritten(doc, AllWrites(members), r.doc) && AllWrites(r.members) == AllWrites(members))
    decreases members
  {
    hide Execute, Writes, Succeeds, Rewritten;
    if members == [] {
      NothingRewritten(doc);
    } else {
      var first, tail := Execute(members[0], doc), members[1..];
      ExecuteAchieves(members[0], doc);
      if first.ok {
        MembersAchieve(tail, first.doc);
        var others := ExecuteAll(tail, first.doc);
        assert forall i :: 0 < i < |members| ==> members[i] == tail[i - 1];
        if others.ok {
          RewrittenConcat(doc, Writes(members[0]), first.doc, AllWrites(tail), others.doc);
          assert ([first.command] + others.members)[1..] == others.members;
        } else {
          var i :| 0 <= i < |tail| && !Succeeds(tail[i]);
          assert !Succeeds(members[i + 1]);
        }
      }
    }
  }

  lemma NothingRewritten(doc: Document)
    ensures Rewritten(doc, [], doc)
  {
  }

  // ---------------------------------------------------------------------------------------------
  // Execute and undo cancel out
  // ---------------------------------------------------------------------------------------------

  /** `after` undoes to a fresh command on `doc`, which executes to `after` again. */
  ghost predicate Cancels(after: Outcome, doc: Document) {
    var back := Undo(after.command, after.doc);
    && after.ok && back.ok && back.doc == doc && Fresh(back.command)
    && Execute(back.command, doc) == after
  }

  /**
    The document is as before, and asking for an undo does not change it either. Nothing is marked as executed any more,
    except that a single command that failed has to be undone for that.
  */
  predicate Harmless(after: Outcome, doc: Document) {
    var asked := Undo(after.command, doc);
    && !after.ok && after.doc == doc && asked.doc == doc
    && Fresh(asked.command) && (after.command.Group? ==> Fresh(after.command))
  }

  lemma LeafCancels(c: Command, doc: Document)
    requires !c.Group? && Fresh(c) && Records(c, doc)
    ensures if Execute(c, doc).ok then Cancels(Execute(c, doc), doc) else Harmless(Execute(c, doc), doc)
  {
    match c {
      case Edit(key, before, after, wired, _) =>
        if wired {
          StoreBack(doc, key, before, after);
        }
      case Instantiate(spawned, created, wired, _) =>
        if wired {
          RemovingSpawned(doc, spawned);
          assert Keys(spawned) == [] ==> spawned == [];
        }
        assert Without(doc, []) == doc;
    }
  }

  /**
    Groups are atomic, to any depth: a failing execution leaves the document as it was, and a successful one is
    undone completely and can be repeated.
  */
  lemma {:induction false} ExecuteCancels(c: Command, doc: Document)
    requires Fresh(c) && Records(c, doc)
    ensures if Execute(c, doc).ok then Cancels(Execute(c, doc), doc) else Harmless(Execute(c, doc), doc)
    decreases c
  {
    if c.Group? {
      MembersCancel(c.members, doc);
    } else {
      LeafCancels(c, doc);
    }
  }

  lemma {:induction false} MembersCancel(members: seq<Command>, doc: Document)
    requires AllFresh(members) && AllRecord(members, doc)
    ensures
      var r := ExecuteAll(members, doc);
      if r.ok then
        var back := UndoAll(r.members, r.doc);
        back.ok && back.doc == doc && AllFresh(back.members) && ExecuteAll(back.members, doc) == r
      else RollBack(r.members, r.doc).doc == doc && AllFresh(RollBack(r.members, r.doc).members)
    decreases members
  {
    hide Execute, Undo, Fresh, Records;
    if members != [] {
      var first, tail := Execute(members[0], doc), members[1..];
      ExecuteCancels(members[0], doc);
      assert AllFresh(tail);
      if first.ok {
        MembersCancel(tail, first.doc);
        var others := ExecuteAll(tail, first.doc);
        if others.ok {
          UndoAllFront(first.command, others.members, others.doc);
          ExecuteAllFront(first.command, others.members, first.doc, others.doc, doc);
        } else {
          RollBackFront(first.command, others.members, others.doc);
        }
      } else {
        RollBackFront(first.command, tail, first.doc);
        FreshRollBack(tail, first.doc);
      }
    }
  }

  /** Undoing a list whose tail is undone first. */
  lemma {:induction false} UndoAllFront(m: Command, others: seq<Command>, doc: Document)
    ensures
      var all, tail := UndoAll([m] + others, doc), UndoAll(others, doc);
      if !tail.ok then !all.ok else
        var first := Undo(m, tail.doc);
        all == Outcomes([first.command] + tail.members, first.doc, first.ok)
    decreases others
  {
    hide Undo;
    var all := [m] + others;
    if others == [] {
      assert all[..0] == [] && all[0] == m;
      assert UndoAll([], Undo(m, doc).doc) == Outcomes([], Undo(m, doc).doc, true);
    } else {
      var n := |others| - 1;
      assert all[..n + 1] == [m] + others[..n] && all[n + 1] == others[n];
      var last := Undo(others[n], doc);
      if last.ok {
        UndoAllFront(m, others[..n], last.doc);
        var tail := UndoAll(others[..n], last.doc);
        if tail.ok {
          assert [Undo(m, tail.doc).command] + tail.members + [last.command]
            == [Undo(m, tail.doc).command] + (tail.members + [last.command]);
        }
      }
    }
  }

  lemma {:induction false} RollBackFront(m: Command, others: seq<Command>, doc: Document)
    ensures
      var tail := RollBack(others, doc);
      var first := Undo(m, tail.doc);
      RollBack([m] + others, doc) == Outcomes([first.command] + tail.members, first.doc, true)
    decreases others
  {
    hide Undo;
    var all := [m] + others;
    if others == [] {
      assert all[..0] == [] && all[0] == m;
    } else {
      var n := |others| - 1;
      assert all[..n + 1] == [m] + others[..n] && all[n + 1] == others[n];
      var last := Undo(others[n], doc);
      RollBackFront(m, others[..n], last.doc);
      var tail := RollBack(others[..n], last.doc);
      assert [Undo(m, tail.doc).command] + tail.members + [last.command]
        == [Undo(m, tail.doc).command] + (tail.members + [last.command]);
    }
  }

  /** Members that never ran ignore the rollback. */
  lemma {:induction false} FreshRollBack(members: seq<Command>, doc: Document)
    requires AllFresh(members)
    ensures RollBack(members, doc) == Outcomes(members, doc, true)
    decreases members
  {
    if members != [] {
      var n := |members| - 1;
      assert Fresh(members[n]);
      FreshRollBack(members[..n], doc);
      assert members[..n] + [members[n]] == members;
    }
  }

  /** Repeating: first the undone front, then the undone tail. */
  lemma ExecuteAllFront(m: Command, others: seq<Command>, d1: Document, d2: Document, doc: Document)
    requires Cancels(Outcome(m, d1, true), doc)
    requires
      var back := UndoAll(others, d2);
      back.ok && back.doc == d1 && AllFresh(back.members) && ExecuteAll(back.members, d1) == Outcomes(others, d2, true)
    ensures
      var m', others' := Undo(m, d1).command, UndoAll(others, d2).members;
      AllFresh([m'] + others') && ExecuteAll([m'] + others', doc) == Outcomes([m] + others, d2, true)
  {
    hide Execute, Undo, Fresh;
    var m', others' := Undo(m, d1).command, UndoAll(others, d2).members;
    var all := [m'] + others';
    assert all[0] == m' && all[1..] == others';
  }
}
