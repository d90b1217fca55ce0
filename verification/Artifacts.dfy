/** Pruning the artifact tables in one transaction. */
module Artifacts {
  import opened Common
  import opened ArtifactModel

  /** The versions one skill state refers to; an absent one refers to nothing. */
  datatype SkillState = SkillState(
    latest: Option<Version>, champion: Option<Version>, testing: Option<Version>, active: Option<Version>,
    suspended: Option<Version>, pending: set<Version>)

  function One(v: Option<Version>): set<Version> {
    if v.Some? then {v.value} else {}
  }

  function Referred(s: SkillState): set<Version> {
    One(s.latest) + One(s.champion) + One(s.testing) + One(s.active) + One(s.suspended) + s.pending
  }

  method CollectRoots(preserve: set<Version>, states: seq<SkillState>) returns (roots: set<Version>)
    ensures forall v :: v in roots <==> v in preserve || exists i :: 0 <= i < |states| && v in Referred(states[i])
  {
    roots := preserve;
    for i := 0 to |states|
      invariant forall v :: v in roots <==> v in preserve || exists k :: 0 <= k < i && v in Referred(states[k])
    {
      roots := roots + Referred(states[i]);
    }
  }

  /** Put the unseen dependencies of one artifact on the worklist. */
  method Expand(found: set<Version>, todo: seq<Version>, dependencies: seq<Version>)
    returns (found': set<Version>, todo': seq<Version>)
    ensures found' == found + Elements(dependencies)
    ensures Elements(todo') == Elements(todo) + (Elements(dependencies) - found)
    ensures |todo'| >= |todo| && (found' == found ==> todo' == todo)
  {
    found', todo' := found, todo;
    for i := 0 to |dependencies|
      invariant found' == found + Elements(dependencies[..i])
      invariant Elements(todo') == Elements(todo) + (Elements(dependencies[..i]) - found)
      invariant |todo'| >= |todo| && (found' == found ==> todo' == todo)
    {
      var d := dependencies[i];
      assert dependencies[..i + 1] == dependencies[..i] + [d];
      assert Elements(dependencies[..i + 1]) == Elements(dependencies[..i]) + {d};
      if d !in found' {
        assert Elements(todo' + [d]) == Elements(todo') + {d};
        found', todo' := found' + {d}, todo' + [d];
      }
    }
    assert dependencies[..|dependencies|] == dependencies;
  }

  lemma ExpandKeeps(
    found: set<Version>, todo: seq<Version>, v: Version, roots: set<Version>, table: Table,
    found': set<Version>, todo': seq<Version>)
    requires Expanding(found, todo + [v], roots, table)
    requires if v in table then found' == found + Elements(table[v].dependencies) else found' == found
    requires Elements(todo') == Elements(todo) + (found' - found)
    ensures Expanding(found', todo', roots, table)
  {
    assert v in Elements(todo + [v]);
    assert Elements(todo + [v]) == Elements(todo) + {v};
    forall w, d | w in found' && w !in todo' && w in table && d in table[w].dependencies ensures d in found' {
      assert w !in Elements(todo');
      if w == v {
        assert d in Elements(table[v].dependencies);
      } else {
        assert w in found && w !in Elements(todo + [v]);
      }
    }
    forall other: set<Version> | roots <= other && ClosedUnder(other, table) ensures found' <= other {
      assert v in other;
    }
    forall d | d in found' ensures d in roots + Named(table) {
    }
  }

  /** Take one version off the list: either something new is found or the list gets shorter. */
  method Visit(found: set<Version>, rest: seq<Version>, v: Version, roots: set<Version>, table: Table)
    returns (found': set<Version>, todo': seq<Version>)
    requires Expanding(found, rest + [v], roots, table)
    ensures Expanding(found', todo', roots, table) && found <= found'
    ensures found' == found ==> todo' == rest
  {
    found', todo' := found, rest;
    if v in table {
      found', todo' := Expand(found, rest, table[v].dependencies);
    }
    ExpandKeeps(found, rest, v, roots, table, found', todo');
  }

  lemma FoundGrows(all: set<Version>, found: set<Version>, found': set<Version>)
    requires found <= found' <= all && found != found'
    ensures |all - found'| < |all - found|
  {
    SubsetSize(all - found', all - found);
    var v := Pick(found' - found);
    assert v in all - found && v !in all - found';
  }

  /** The worklist; it ends on every dependency graph. */
  method Close(roots: set<Version>, order: seq<Version>, table: Table) returns (closure: set<Version>)
    requires Elements(order) == roots
    ensures IsClosure(closure, roots, table)
  {
    closure := roots;
    var todo := order;
    ghost var all := roots + Named(table);
    while todo != []
      invariant Expanding(closure, todo, roots, table)
      decreases |all - closure|, |todo|
    {
      var v, rest := todo[|todo| - 1], todo[..|todo| - 1];
      assert todo == rest + [v];
      var found, next := Visit(closure, rest, v, roots, table);
      if found != closure {
        FoundGrows(all, closure, found);
      }
      closure, todo := found, next;
    }
    ExpandedIsClosure(closure, roots, table);
  }

  /** Fill the kept set with the newest versions up to the limit. */
  method ChooseKept(existing: set<Version>, versions: seq<Version>, limit: nat) returns (keep: set<Version>, k: nat)
    ensures Kept(keep, existing, versions, limit, k)
  {
    keep, k := existing, 0;
    while k < |versions| && |keep| < limit
      invariant k <= |versions| && keep == WithNewest(existing, versions, k)
      invariant k > 0 ==> |WithNewest(existing, versions, k - 1)| < limit
    {
      keep, k := keep + {versions[k]}, k + 1;
    }
  }

  /**
   * The existing closure survives whole, the rest is the newest up to the limit, and the number
   * left is the larger of the limit (or all there were) and the existing closure.
   */
  predicate Pruned(
    before: Table, after: Table, removed: seq<Version>, closure: set<Version>, versions: seq<Version>,
    limit: nat, k: nat)
  {
    && after == before - Elements(removed) && Elements(removed) == before.Keys - after.Keys
    && before.Keys * closure <= after.Keys
    && Kept(after.Keys, before.Keys * closure, versions, limit, k)
    && |after| == Max(|before.Keys * closure|, Min(limit, |before|))
  }

  class ArtifactStore {
    var artifacts: Table
    var statistical: set<Version>
    var archive: map<Version, Archived>

    constructor (artifacts: Table, statistical: set<Version>, archive: map<Version, Archived>)
      ensures this.artifacts == artifacts && this.statistical == statistical && this.archive == archive
    {
      this.artifacts, this.statistical, this.archive := artifacts, statistical, archive;
    }

    /** Archive versions one by one; an existing archive row is left as it is. */
    method Archive(removed: seq<Version>)
      requires Elements(removed) <= artifacts.Keys
      modifies this`archive
      ensures archive.Keys == old(archive.Keys) + Elements(removed)
      ensures forall v :: v in old(archive) ==> archive[v] == old(archive[v])
      ensures forall v :: v in removed && v !in old(archive) ==> archive[v] == Summary(artifacts[v])
    {
      for i := 0 to |removed|
        invariant archive.Keys == old(archive.Keys) + Elements(removed[..i])
        invariant forall v :: v in old(archive) ==> archive[v] == old(archive[v])
        invariant forall v :: v in removed[..i] && v !in old(archive) ==> archive[v] == Summary(artifacts[v])
      {
        assert Elements(removed[..i + 1]) == Elements(removed[..i]) + {removed[i]};
        if removed[i] !in archive {
          archive := archive[removed[i] := Summary(artifacts[removed[i]])];
        }
      }
      assert removed[..|removed|] == removed;
    }

    /** `order` is the arbitrary order in which the roots are visited, `versions` the newest-first listing. */
    method Prune(limit: int, roots: set<Version>, order: seq<Version>, versions: seq<Version>)
      returns (removed: Option<seq<Version>>, ghost closure: set<Version>, ghost k: nat)
      requires Elements(order) == roots && Listing(versions, artifacts)
      modifies this
      ensures removed.None? <==> limit < 1
      ensures removed.None? ==> unchanged(this)
      ensures removed.Some? ==> IsClosure(closure, roots, old(artifacts))
      ensures removed.Some? ==> Pruned(old(artifacts), artifacts, removed.value, closure, versions, limit, k)
      ensures removed.Some? ==> statistical == old(statistical) - Elements(removed.value)
      ensures removed.Some? ==>
                && archive.Keys == old(archive.Keys) + Elements(removed.value)
                && (forall v :: v in old(archive) ==> archive[v] == old(archive[v]))
                && (forall v :: v in removed.value && v !in old(archive) ==> archive[v] == Summary(old(artifacts)[v]))
    {
      closure, k := {}, 0;
      removed := None;
      if limit >= 1 {
        var found, dropped, newest := Decide(artifacts, limit, roots, order, versions);
        closure, k := found, newest;
        Archive(dropped);
        artifacts := artifacts - Elements(dropped);
        statistical := statistical - Elements(dropped);
        removed := Some(dropped);
      }
    }
  }

  /** Which versions to remove. */
  method Decide(table: Table, limit: nat, roots: set<Version>, order: seq<Version>, versions: seq<Version>)
    returns (closure: set<Version>, dropped: seq<Version>, k: nat)
    requires Elements(order) == roots && Listing(versions, table)
    ensures IsClosure(closure, roots, table)
    ensures Pruned(table, table - Elements(dropped), dropped, closure, versions, limit, k)
  {
    closure := Close(roots, order, table);
    var keep;
    keep, k := ChooseKept(table.Keys * closure, versions, limit);
    KeptSize(keep, table.Keys * closure, versions, limit, k);
    dropped := Unkept(versions, keep);
    DropSize(table, versions, dropped, keep);
  }

  method Unkept(versions: seq<Version>, keep: set<Version>) returns (dropped: seq<Version>)
    ensures Elements(dropped) == Elements(versions) - keep
  {
    dropped := [];
    for i := 0 to |versions|
      invariant Elements(dropped) == Elements(versions[..i]) - keep
    {
      assert Elements(versions[..i + 1]) == Elements(versions[..i]) + {versions[i]};
      if versions[i] !in keep {
        assert Elements(dropped + [versions[i]]) == Elements(dropped) + {versions[i]};
        dropped := dropped + [versions[i]];
      }
    }
    assert versions[..|versions|] == versions;
  }

  lemma DropSize(table: Table, versions: seq<Version>, dropped: seq<Version>, keep: set<Version>)
    requires Listing(versions, table) && keep <= table.Keys && Elements(dropped) == table.Keys - keep
    ensures (table - Elements(dropped)).Keys == keep
    ensures |table - Elements(dropped)| == |keep| && |versions| == |table|
  {
    DistinctSize(versions);
    assert |(table - Elements(dropped)).Keys| == |table - Elements(dropped)|;
    assert |table.Keys| == |table|;
  }
}
