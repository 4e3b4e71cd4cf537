/** The dependency closure of an asset, and the bundles that are built from closures. */
module AssetBundle {
  import opened PrefabCycles

  datatype Entry = Entry(uuid: Uuid, path: string, kind: AssetKind, dependencies: seq<Uuid>, fileSize: nat)

  type Database = map<Uuid, Entry>

  /** Entries are filed under their own uuid. */
  predicate WellKeyed(db: Database) {
    forall u :: u in db ==> db[u].uuid == u
  }

  predicate DependsOn(db: Database, u: Uuid, v: Uuid) {
    u in db && v in db[u].dependencies
  }

  /** A path of dependencies from `u` to `v`. */
  predicate Leads(db: Database, p: seq<Uuid>, u: Uuid, v: Uuid) {
    && |p| >= 1 && p[0] == u && p[|p| - 1] == v
    && forall i :: 0 <= i < |p| - 1 ==> DependsOn(db, p[i], p[i + 1])
  }

  ghost predicate Reaches(db: Database, u: Uuid, v: Uuid) {
    exists p :: Leads(db, p, u, v)
  }

  lemma ReachesItself(db: Database, u: Uuid)
    ensures Reaches(db, u, u)
  {
    assert Leads(db, [u], u, u);
  }

  lemma ReachesThrough(db: Database, u: Uuid, d: Uuid, v: Uuid)
    requires DependsOn(db, u, d) && Reaches(db, d, v)
    ensures Reaches(db, u, v)
  {
    var p :| Leads(db, p, d, v);
    assert Leads(db, [u] + p, u, v);
  }

  lemma ReachesOn(db: Database, u: Uuid, d: Uuid, v: Uuid)
    requires Reaches(db, u, d) && DependsOn(db, d, v)
    ensures Reaches(db, u, v)
  {
    var p :| Leads(db, p, u, d);
    assert Leads(db, p + [v], u, v);
  }

  // ---------------------------------------------------------------------------------------------
  // The closure
  // ---------------------------------------------------------------------------------------------

  /** The result holds the entry of every existing visited asset, each once. */
  ghost predicate Listed(db: Database, visited: set<Uuid>, result: seq<Entry>) {
    && (forall i :: 0 <= i < |result| ==>
         result[i].uuid in db && db[result[i].uuid] == result[i] && result[i].uuid in visited)
    && (forall u :: u in visited && u in db ==> db[u] in result)
    && (forall i, j :: 0 <= i < j < |result| ==> result[i].uuid != result[j].uuid)
  }

  /** Whatever is visited and not being worked on has all its dependencies visited. */
  ghost predicate ClosedBut(db: Database, visited: set<Uuid>, open: set<Uuid>) {
    forall u, v :: u in visited && u !in open && DependsOn(db, u, v) ==> v in visited
  }

  lemma {:induction false} ClosedHoldsPaths(db: Database, visited: set<Uuid>, p: seq<Uuid>, u: Uuid, v: Uuid)
    requires ClosedBut(db, visited, {}) && u in visited && Leads(db, p, u, v)
    ensures v in visited
    decreases |p|
  {
    if |p| > 1 {
      assert DependsOn(db, p[0], p[1]);
      ClosedHoldsPaths(db, visited, p[1..], p[1], v);
    }
  }

  /** `collect_dependencies`, with the two mutable references as values that go in and come out. */
  method CollectDependencies(
    db: Database, uuid: Uuid, visited: set<Uuid>, result: seq<Entry>, ghost open: set<Uuid>)
    returns (visited': set<Uuid>, result': seq<Entry>)
    requires WellKeyed(db) && Listed(db, visited, result) && ClosedBut(db, visited, open)
    ensures Listed(db, visited', result') && ClosedBut(db, visited', open)
    ensures visited <= visited' && uuid in visited' && result <= result'
    ensures forall u :: u in visited' && u !in visited ==> Reaches(db, uuid, u)
    ensures uuid in db && uuid !in visited ==> |result'| > |result| && result'[|result|] == db[uuid]
    decreases db.Keys - visited
  {
    visited', result' := visited, result;
    if uuid in visited {
      return;
    }
    visited' := visited + {uuid};
    ReachesItself(db, uuid);
    if uuid in db {
      result' := result + [db[uuid]];
      ListedAppend(db, visited, result, uuid);
      var deps := db[uuid].dependencies;
      var i := 0;
      while i < |deps|
        invariant i <= |deps| && visited + {uuid} <= visited' && result + [db[uuid]] <= result'
        invariant Listed(db, visited', result') && ClosedBut(db, visited', open + {uuid})
        invariant forall j :: 0 <= j < i ==> deps[j] in visited'
        invariant forall u :: u in visited' && u !in visited ==> Reaches(db, uuid, u)
      {
        ghost var before := visited';
        visited', result' := CollectDependencies(db, deps[i], visited', result', open + {uuid});
        assert DependsOn(db, uuid, deps[i]);
        forall u | u in visited' && u !in before ensures Reaches(db, uuid, u) {
          ReachesThrough(db, uuid, deps[i], u);
        }
        i := i + 1;
      }
    }
  }

  lemma ListedAppend(db: Database, visited: set<Uuid>, result: seq<Entry>, uuid: Uuid)
    requires WellKeyed(db) && Listed(db, visited, result) && uuid in db && uuid !in visited
    ensures Listed(db, visited + {uuid}, result + [db[uuid]])
  {
    var all := result + [db[uuid]];
    forall u | u in visited + {uuid} && u in db ensures db[u] in all {
      if u == uuid {
        assert all[|result|] == db[u];
      } else {
        assert db[u] in result;
      }
    }
  }

  predicate Holds(entries: seq<Entry>, u: Uuid) {
    exists i :: 0 <= i < |entries| && entries[i].uuid == u
  }

  predicate NoRepeats(entries: seq<Entry>) {
    forall i, j :: 0 <= i < j < |entries| ==> entries[i].uuid != entries[j].uuid
  }

  /** `dependency_chain`: the existing assets that the root reaches, each once, the root in front. */
  method DependencyChain(db: Database, root: Uuid) returns (result: seq<Entry>)
    requires WellKeyed(db)
    ensures forall u :: Holds(result, u) <==> u in db && Reaches(db, root, u)
    ensures forall e :: e in result ==> e.uuid in db && db[e.uuid] == e
    ensures NoRepeats(result)
    ensures root in db ==> result != [] && result[0] == db[root]
  {
    var visited: set<Uuid>;
    visited, result := CollectDependencies(db, root, {}, [], {});
    forall u ensures Holds(result, u) <==> u in db && Reaches(db, root, u) {
      if u in db && Reaches(db, root, u) {
        var p :| Leads(db, p, root, u);
        ClosedHoldsPaths(db, visited, p, root, u);
        assert db[u] in result;
      }
    }
  }

  // ---------------------------------------------------------------------------------------------
  // Bundles
  // ---------------------------------------------------------------------------------------------

  datatype BundleAsset = BundleAsset(uuid: Uuid, path: string, kind: AssetKind, originalSize: nat)

  datatype BundleError = EmptyName | InvalidUuid(uuid: Uuid)

  datatype BundleResult = Built(assets: seq<BundleAsset>, totalBytes: nat) | Refused(error: BundleError)

  function SumOfSizes(assets: seq<BundleAsset>): nat {
    if assets == [] then 0 else SumOfSizes(assets[..|assets| - 1]) + assets[|assets| - 1].originalSize
  }

  predicate Bundled(assets: seq<BundleAsset>, u: Uuid) {
    exists i :: 0 <= i < |assets| && assets[i].uuid == u
  }

  /** The line of the manifest tells the path, the kind and the size of the asset. */
  predicate Describes(a: BundleAsset, e: Entry) {
    a.uuid == e.uuid && a.path == e.path && a.kind == e.kind && a.originalSize == e.fileSize
  }

  lemma {:induction false} SizesAddUp(first: seq<BundleAsset>, second: seq<BundleAsset>)
    ensures SumOfSizes(first + second) == SumOfSizes(first) + SumOfSizes(second)
    ensures |second| == 1 ==> SumOfSizes(second) == second[0].originalSize
    decreases |second|
  {
    if second == [] {
      assert first + second == first;
    } else {
      var n := |second| - 1;
      assert (first + second)[..|first| + n] == first + second[..n];
      SizesAddUp(first, second[..n]);
    }
  }

  function AssetOf(e: Entry): BundleAsset {
    BundleAsset(e.uuid, e.path, e.kind, e.fileSize)
  }

  ghost predicate ReachedFrom(db: Database, roots: seq<Uuid>, u: Uuid) {
    exists r :: r in roots && Reaches(db, r, u)
  }

  /**
    The manifest part of `build`: refused for an empty name or the first root that does not exist; otherwise
    exactly the existing assets that some root reaches, each once, and the sum of their sizes.
  */
  method Build(db: Database, name: string, roots: seq<Uuid>) returns (r: BundleResult)
    requires WellKeyed(db)
    ensures name == "" <==> r == Refused(EmptyName)
    ensures name != "" && (exists i :: 0 <= i < |roots| && roots[i] !in db) ==>
      exists i :: 0 <= i < |roots| && roots[i] !in db && (forall j :: 0 <= j < i ==> roots[j] in db)
        && r == Refused(InvalidUuid(roots[i]))
    ensures name != "" && (forall i :: 0 <= i < |roots| ==> roots[i] in db) ==> r.Built?
    ensures r.Built? ==>
      && (forall u :: Bundled(r.assets, u) <==> u in db && ReachedFrom(db, roots, u))
      && (forall i :: 0 <= i < |r.assets| ==> r.assets[i].uuid in db && Describes(r.assets[i], db[r.assets[i].uuid]))
      && (forall i, j :: 0 <= i < j < |r.assets| ==> r.assets[i].uuid != r.assets[j].uuid)
      && r.totalBytes == SumOfSizes(r.assets)
  {
    hide Reaches, ReachedFrom, Holds, Bundled, SumOfSizes;
    if name == "" {
      return Refused(EmptyName);
    }
    RootsOfNone(db);
    var allUuids: seq<Uuid>, visited: set<Uuid> := [], {};
    var i := 0;
    while i < |roots|
      invariant i <= |roots| && forall j :: 0 <= j < i ==> roots[j] in db
      invariant Distinct(allUuids) && (forall u :: u in allUuids <==> u in visited)
      invariant forall u :: u in visited <==> u in db && ReachedFrom(db, roots[..i], u)
    {
      if roots[i] !in db {
        return Refused(InvalidUuid(roots[i]));
      }
      var chain := DependencyChain(db, roots[i]);
      ghost var before := visited;
      allUuids, visited := AddChain(chain, allUuids, visited);
      forall u ensures u in visited <==> u in db && ReachedFrom(db, roots[..i + 1], u) {
        OneMoreRoot(db, roots, i, u);
        assert u in visited <==> u in before || Holds(chain, u);
      }
      i := i + 1;
    }
    assert roots[..i] == roots;
    var assets, total := Manifest(db, allUuids);
    r := Built(assets, total);
  }

  /** The loop that writes the manifest. */
  method Manifest(db: Database, uuids: seq<Uuid>) returns (assets: seq<BundleAsset>, total: nat)
    requires WellKeyed(db) && Distinct(uuids) && forall u :: u in uuids ==> u in db
    ensures forall u :: Bundled(assets, u) <==> u in uuids
    ensures forall i :: 0 <= i < |assets| ==> assets[i].uuid in db && Describes(assets[i], db[assets[i].uuid])
    ensures forall i, j :: 0 <= i < j < |assets| ==> assets[i].uuid != assets[j].uuid
    ensures total == SumOfSizes(assets)
  {
    assets, total := [], 0;
    var k := 0;
    while k < |uuids|
      invariant k <= |uuids| && |assets| == k && total == SumOfSizes(assets)
      invariant forall j :: 0 <= j < k ==> uuids[j] in db && assets[j] == AssetOf(db[uuids[j]])
    {
      assert uuids[k] in uuids;
      var entry := db[uuids[k]];
      ghost var before := assets;
      assets := assets + [AssetOf(entry)];
      assert assets[..k] == before;
      total := total + entry.fileSize;
      k := k + 1;
    }
  }

  predicate Distinct(s: seq<Uuid>) {
    forall i, j :: 0 <= i < j < |s| ==> s[i] != s[j]
  }

  lemma RootsOfNone(db: Database)
    ensures forall u :: !ReachedFrom(db, [], u)
  {
  }

  lemma OneMoreRoot(db: Database, roots: seq<Uuid>, i: nat, u: Uuid)
    requires i < |roots|
    ensures ReachedFrom(db, roots[..i + 1], u) <==> ReachedFrom(db, roots[..i], u) || Reaches(db, roots[i], u)
  {
    assert roots[..i + 1] == roots[..i] + [roots[i]];
  }

  /** The loop over one chain, which keeps what was not there before. */
  method AddChain(chain: seq<Entry>, allUuids: seq<Uuid>, visited: set<Uuid>)
    returns (allUuids': seq<Uuid>, visited': set<Uuid>)
    requires Distinct(allUuids) && forall u :: u in allUuids <==> u in visited
    ensures Distinct(allUuids') && forall u :: u in allUuids' <==> u in visited'
    ensures forall u :: u in visited' <==> u in visited || Holds(chain, u)
  {
    allUuids', visited' := allUuids, visited;
    var i := 0;
    while i < |chain|
      invariant i <= |chain| && Distinct(allUuids') && forall u :: u in allUuids' <==> u in visited'
      invariant forall u :: u in visited' <==> u in visited || Holds(chain[..i], u)
    {
      var u := chain[i].uuid;
      assert chain[..i + 1] == chain[..i] + [chain[i]];
      assert Holds(chain[..i + 1], u) by { assert chain[..i + 1][i].uuid == u; }
      assert forall w :: Holds(chain[..i], w) ==> Holds(chain[..i + 1], w) by {
        assert forall j :: 0 <= j < i ==> chain[..i + 1][j] == chain[..i][j];
      }
      if u !in visited' {
        visited' := visited' + {u};
        allUuids' := allUuids' + [u];
      }
      i := i + 1;
    }
    assert chain[..i] == chain;
  }

  /** A bundle is closed: with a member it contains every existing asset that the member depends on. */
  lemma BundleIsClosed(db: Database, roots: seq<Uuid>, assets: seq<BundleAsset>, u: Uuid, d: Uuid)
    requires forall w :: Bundled(assets, w) <==> w in db && ReachedFrom(db, roots, w)
    requires Bundled(assets, u) && DependsOn(db, u, d) && d in db
    ensures Bundled(assets, d)
  {
    var r :| r in roots && Reaches(db, r, u);
    ReachesOn(db, r, u, d);
  }
}
