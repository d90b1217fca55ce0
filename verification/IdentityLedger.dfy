/** Reserving a batch of identities in one transaction. */
module IdentityLedger {
  import opened Common
  import opened IdentityModel

  const BATCH: nat := 400

  function Keys(rs: seq<Reservation>): set<Key> {
    set r | r in rs :: r.key
  }

  /** The part of a table that belongs to some keys. */
  function Restricted(rows: Ledger, keys: set<Key>): Ledger {
    map k | k in rows && k in keys :: rows[k]
  }

  /** Read the rows of the keys, a bounded number of keys at a time. */
  method Load(rows: Ledger, keys: seq<Key>) returns (existing: Ledger)
    ensures existing == Restricted(rows, Elements(keys))
  {
    existing := map[];
    var offset := 0;
    while offset < |keys|
      invariant 0 <= offset <= |keys|
      invariant existing == Restricted(rows, Elements(keys[..offset]))
    {
      var next := if offset + BATCH < |keys| then offset + BATCH else |keys|;
      var batch := keys[offset..next];
      assert keys[..next] == keys[..offset] + batch;
      assert Elements(keys[..next]) == Elements(keys[..offset]) + Elements(batch);
      existing := existing + Restricted(rows, Elements(batch));
      offset := next;
    }
    assert keys[..offset] == keys;
  }

  /** What the loop keeps: the copy follows the merge on the batch's keys, and the changes complete the table. */
  ghost predicate Following(rows: Ledger, existing: Ledger, updates: Ledger, merged: Ledger, keys: set<Key>) {
    existing == Restricted(merged, keys) && rows + updates == merged
  }

  /** The updates one list of reservations causes. */
  method Updates(rows: Ledger, existing: Ledger, rs: seq<Reservation>) returns (updates: Ledger)
    requires existing == Restricted(rows, Keys(rs))
    ensures rows + updates == Merge(rows, rs)
  {
    updates := map[];
    var known := existing;
    for i := 0 to |rs|
      invariant Following(rows, known, updates, Merge(rows, rs[..i]), Keys(rs))
    {
      var r := rs[i];
      assert rs[..i + 1][..i] == rs[..i];
      assert r in rs;
      var chosen := Choose(Get(known, r.key), r);
      if chosen.Some? && chosen != Get(known, r.key) {
        known, updates := known[r.key := chosen.value], updates[r.key := chosen.value];
      }
    }
    assert rs[..|rs|] == rs;
  }

  class PolicyIdentities {
    var rows: Ledger

    constructor ()
      ensures rows == map[]
    {
      rows := map[];
    }

    /** `order` lists the distinct keys of the batch. */
    method Remember(rs: seq<Reservation>, order: seq<Key>)
      requires Elements(order) == Keys(rs)
      modifies this
      ensures rows == Merge(old(rows), rs)
    {
      if rs == [] {
        return;
      }
      var existing := Load(rows, order);
      var updates := Updates(rows, existing, rs);
      rows := rows + updates;
    }
  }
}
