/**
 * Artifact retention. Versions in authority are kept together with everything they depend on;
 * dependency graphs may be cyclic and may name versions that no longer exist.
 */
module ArtifactModel {
  import opened Common

  datatype Version = Version(text: string)

  datatype Artifact = Artifact(created: int, dependencies: seq<Version>, record: string, parameters: string)

  /** What is kept of a removed artifact: everything but its parameters. */
  datatype Archived = Archived(created: int, dependencies: seq<Version>, record: string)

  function Summary(a: Artifact): Archived {
    Archived(a.created, a.dependencies, a.record)
  }

  type Table = map<Version, Artifact>

  /** Every existing member has all its dependencies in the set. */
  predicate ClosedUnder(versions: set<Version>, table: Table) {
    forall v, d :: v in versions && v in table && d in table[v].dependencies ==> d in versions
  }

  /** The smallest closed set holding the roots. */
  ghost predicate IsClosure(closure: set<Version>, roots: set<Version>, table: Table) {
    && roots <= closure && ClosedUnder(closure, table)
    && forall other: set<Version> :: roots <= other && ClosedUnder(other, table) ==> closure <= other
  }

  /** A path of dependencies starting at a root. */
  predicate IsPath(path: seq<Version>, table: Table) {
    forall i :: 0 <= i < |path| - 1 ==> path[i] in table && path[i + 1] in table[path[i]].dependencies
  }

  ghost predicate Reachable(v: Version, roots: set<Version>, table: Table) {
    exists path: seq<Version> :: path != [] && path[0] in roots && path[|path| - 1] == v && IsPath(path, table)
  }

  lemma {:induction false} PathStays(path: seq<Version>, closed: set<Version>, table: Table)
    requires path != [] && path[0] in closed && ClosedUnder(closed, table) && IsPath(path, table)
    ensures path[|path| - 1] in closed
  {
    if |path| > 1 {
      var init := path[..|path| - 1];
      PathStays(init, closed, table);
      assert init[|init| - 1] == path[|path| - 2];
    }
  }

  lemma ReachRoot(r: Version, roots: set<Version>, table: Table)
    requires r in roots
    ensures Reachable(r, roots, table)
  {
    assert IsPath([r], table);
  }

  lemma ReachNext(w: Version, d: Version, roots: set<Version>, table: Table)
    requires Reachable(w, roots, table) && w in table && d in table[w].dependencies
    ensures Reachable(d, roots, table)
  {
    var path: seq<Version> :| path != [] && path[0] in roots && path[|path| - 1] == w && IsPath(path, table);
    var longer := path + [d];
    forall i | 0 <= i < |longer| - 1 ensures longer[i] in table && longer[i + 1] in table[longer[i]].dependencies {
      assert i < |path| - 1 ==> path[i] in table && path[i + 1] in table[path[i]].dependencies;
    }
    assert IsPath(longer, table);
  }

  lemma ReachableIsClosed(closure: set<Version>, roots: set<Version>, table: Table)
    requires roots <= closure && ClosedUnder(closure, table)
    ensures var reached := set w | w in closure && Reachable(w, roots, table);
            roots <= reached && ClosedUnder(reached, table)
  {
    forall r | r in roots ensures Reachable(r, roots, table) {
      ReachRoot(r, roots, table);
    }
    forall w, d | Reachable(w, roots, table) && w in table && d in table[w].dependencies
      ensures Reachable(d, roots, table)
    {
      ReachNext(w, d, roots, table);
    }
  }

  /** The closure is exactly what can be reached through dependencies. */
  lemma ClosureIsReachable(closure: set<Version>, roots: set<Version>, table: Table, v: Version)
    requires IsClosure(closure, roots, table)
    ensures v in closure <==> Reachable(v, roots, table)
  {
    if Reachable(v, roots, table) {
      var path: seq<Version> :| path != [] && path[0] in roots && path[|path| - 1] == v && IsPath(path, table);
      PathStays(path, closure, table);
    } else {
      ReachableIsClosed(closure, roots, table);
    }
  }

  // ---------------------------------------------------------------- the worklist

  function Named(table: Table): set<Version> {
    set v, d | v in table && d in table[v].dependencies :: d
  }

  /** Everything found is needed, and everything found but not on the list is expanded. */
  ghost predicate Expanding(found: set<Version>, todo: seq<Version>, roots: set<Version>, table: Table) {
    && roots <= found <= roots + Named(table) && Elements(todo) <= found
    && (forall v, d :: v in found && v !in todo && v in table && d in table[v].dependencies ==> d in found)
    && (forall other: set<Version> :: roots <= other && ClosedUnder(other, table) ==> found <= other)
  }

  lemma ExpandedIsClosure(found: set<Version>, roots: set<Version>, table: Table)
    requires Expanding(found, [], roots, table)
    ensures IsClosure(found, roots, table)
  {
  }

  // ---------------------------------------------------------------- what to keep

  /** All the versions, newest first. */
  predicate Listing(versions: seq<Version>, table: Table) {
    && Distinct(versions) && Elements(versions) == table.Keys
    && forall i, j :: 0 <= i < j < |versions| ==>
         && versions[i] in table && versions[j] in table
         && table[versions[i]].created >= table[versions[j]].created
  }

  /** A set together with the first `k` listed versions. */
  function WithNewest(existing: set<Version>, versions: seq<Version>, k: nat): set<Version>
    requires k <= |versions|
  {
    if k == 0 then existing else WithNewest(existing, versions, k - 1) + {versions[k - 1]}
  }

  lemma {:induction false} WithNewestIs(existing: set<Version>, versions: seq<Version>, k: nat)
    requires k <= |versions|
    ensures forall v :: v in WithNewest(existing, versions, k) <==> v in existing || v in versions[..k]
  {
    if k > 0 {
      WithNewestIs(existing, versions, k - 1);
      assert versions[..k] == versions[..k - 1] + [versions[k - 1]];
    }
  }

  /** The existing part of the closure, filled up with the newest others to the limit. */
  predicate Kept(keep: set<Version>, existing: set<Version>, versions: seq<Version>, limit: nat, k: nat) {
    && k <= |versions| && keep == WithNewest(existing, versions, k)
    && (k > 0 ==> |WithNewest(existing, versions, k - 1)| < limit)
    && (k < |versions| ==> |keep| >= limit)
  }

  lemma KeptSize(keep: set<Version>, existing: set<Version>, versions: seq<Version>, limit: nat, k: nat)
    requires Distinct(versions) && existing <= Elements(versions) && Kept(keep, existing, versions, limit, k)
    ensures existing <= keep <= Elements(versions)
    ensures |keep| == Max(|existing|, Min(limit, |versions|))
  {
    DistinctSize(versions);
    WithNewestIs(existing, versions, k);
    SubsetSize(keep, Elements(versions));
    SubsetSize(existing, keep);
    assert k == |versions| ==> versions[..k] == versions;
    assert k == |versions| ==> Elements(versions) <= keep;
    if k == |versions| {
      SubsetSize(Elements(versions), keep);
    }
  }

  /** Beyond the closure the newest are kept: nothing removed is newer than an unprotected survivor. */
  lemma NewestSurvive(
    keep: set<Version>, existing: set<Version>, versions: seq<Version>, table: Table, limit: nat, k: nat,
    survivor: Version, removed: Version)
    requires Listing(versions, table) && Kept(keep, existing, versions, limit, k)
    requires survivor in keep && survivor !in existing && removed in table && removed !in keep
    ensures survivor in table && table[survivor].created >= table[removed].created
  {
    WithNewestIs(existing, versions, k);
    var i :| 0 <= i < k && versions[..k][i] == survivor;
    assert removed in Elements(versions);
    var j :| 0 <= j < |versions| && versions[j] == removed;
    assert versions[..k] + versions[k..] == versions;
    assert removed !in versions[..k];
    assert versions[i] == survivor && j >= k;
  }
}
