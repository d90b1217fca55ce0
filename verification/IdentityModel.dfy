/**
 * The ledger of proof identities: per key, the earliest real reservation ever offered, or an
 * empty reservation while none is real.
 */
module IdentityModel {
  import opened Common

  datatype Key = Key(text: string)

  /** An offered reservation: its instant if its clock is readable, its episode unless empty. */
  datatype Reservation = Reservation(key: Key, clock: Option<int>, episode: Option<int>)

  /** A stored clock; texts from elsewhere may be unreadable. */
  datatype Clock = NoClock | At(instant: int) | Unreadable(text: string)

  datatype Entry = Entry(clock: Clock, episode: Option<int>)

  type Ledger = map<Key, Entry>

  function Get(ledger: Ledger, k: Key): Option<Entry> {
    if k in ledger then Some(ledger[k]) else None
  }

  predicate IsReal(r: Reservation) {
    r.episode.Some? && r.clock.Some?
  }

  predicate IsEmpty(r: Reservation) {
    r.episode.None?
  }

  function Incoming(r: Reservation): Entry {
    if r.clock.Some? then Entry(At(r.clock.value), r.episode) else Entry(NoClock, None)
  }

  /** The order of (instant, episode) pairs. */
  predicate NotAfter(t: int, e: int, t': int, e': int) {
    t < t' || (t == t' && e <= e')
  }

  /** What the ledger holds for a key after one reservation of that key. */
  function Choose(current: Option<Entry>, r: Reservation): Option<Entry> {
    if r.episode.Some? && r.clock.None? then current
    else if current.None? || (current.value.episode.None? && r.episode.Some?) then Some(Incoming(r))
    else if r.episode.Some? && current.value.clock.At? && current.value.episode.Some? then
      if NotAfter(current.value.clock.instant, current.value.episode.value, r.clock.value, r.episode.value) then current
      else Some(Incoming(r))
    else current
  }

  function Apply(ledger: Ledger, r: Reservation): Ledger {
    var chosen := Choose(Get(ledger, r.key), r);
    if chosen.Some? then ledger[r.key := chosen.value] else ledger
  }

  function Merge(ledger: Ledger, rs: seq<Reservation>): Ledger {
    if rs == [] then ledger else Apply(Merge(ledger, rs[..|rs| - 1]), rs[|rs| - 1])
  }

  lemma {:induction false} MergeBatches(ledger: Ledger, a: seq<Reservation>, b: seq<Reservation>)
    ensures Merge(ledger, a + b) == Merge(Merge(ledger, a), b)
  {
    if b == [] {
      assert a + b == a;
    } else {
      MergeBatches(ledger, a, b[..|b| - 1]);
      assert (a + b)[..|a + b| - 1] == a + b[..|b| - 1];
    }
  }

  // ---------------------------------------------------------------- one key

  predicate RealAt(rs: seq<Reservation>, k: Key, i: int) {
    0 <= i < |rs| && rs[i].key == k && IsReal(rs[i])
  }

  predicate EmptyAt(rs: seq<Reservation>, k: Key, i: int) {
    0 <= i < |rs| && rs[i].key == k && IsEmpty(rs[i])
  }

  ghost predicate AnyReal(rs: seq<Reservation>, k: Key) {
    exists i :: RealAt(rs, k, i)
  }

  ghost predicate AnyEmpty(rs: seq<Reservation>, k: Key) {
    exists i :: EmptyAt(rs, k, i)
  }

  /** The entry is the least of the real reservations. */
  ghost predicate IsEarliest(entry: Entry, rs: seq<Reservation>, k: Key) {
    && entry.clock.At? && entry.episode.Some?
    && (exists i :: RealAt(rs, k, i) && Incoming(rs[i]) == entry)
    && forall j :: RealAt(rs, k, j) ==>
         NotAfter(entry.clock.instant, entry.episode.value, rs[j].clock.value, rs[j].episode.value)
  }

  /** The entry is the first empty reservation. */
  ghost predicate IsFirstEmpty(entry: Entry, rs: seq<Reservation>, k: Key) {
    exists i :: EmptyAt(rs, k, i) && Incoming(rs[i]) == entry && forall j :: j < i ==> !EmptyAt(rs, k, j)
  }

  /** The ledger entry that a list of reservations should lead to. */
  ghost predicate Expected(entry: Option<Entry>, rs: seq<Reservation>, k: Key) {
    if AnyReal(rs, k) then entry.Some? && IsEarliest(entry.value, rs, k)
    else if AnyEmpty(rs, k) then entry.Some? && IsFirstEmpty(entry.value, rs, k)
    else entry.None?
  }

  lemma Extended(rs: seq<Reservation>, r: Reservation, k: Key)
    ensures forall i :: i < |rs| ==> (RealAt(rs + [r], k, i) <==> RealAt(rs, k, i))
    ensures forall i :: i < |rs| ==> (EmptyAt(rs + [r], k, i) <==> EmptyAt(rs, k, i))
    ensures RealAt(rs + [r], k, |rs|) <==> r.key == k && IsReal(r)
    ensures EmptyAt(rs + [r], k, |rs|) <==> r.key == k && IsEmpty(r)
    ensures forall i :: RealAt(rs + [r], k, i) ==> i < |rs| || i == |rs|
    ensures forall i :: EmptyAt(rs + [r], k, i) ==> i < |rs| || i == |rs|
  {
  }

  lemma RealStep(entry: Option<Entry>, rs: seq<Reservation>, r: Reservation, k: Key)
    requires Expected(entry, rs, k) && r.key == k && IsReal(r)
    ensures Expected(Choose(entry, r), rs + [r], k)
  {
    Extended(rs, r, k);
    var next := Choose(entry, r).value;
    assert RealAt(rs + [r], k, |rs|);
    if AnyReal(rs, k) {
      var i :| RealAt(rs, k, i) && Incoming(rs[i]) == entry.value;
      assert RealAt(rs + [r], k, i);
    }
    forall j | RealAt(rs + [r], k, j)
      ensures NotAfter(next.clock.instant, next.episode.value, (rs + [r])[j].clock.value, (rs + [r])[j].episode.value)
    {
      if j < |rs| {
        assert RealAt(rs, k, j);
      }
    }
  }

  lemma EmptyStep(entry: Option<Entry>, rs: seq<Reservation>, r: Reservation, k: Key)
    requires Expected(entry, rs, k) && r.key == k && IsEmpty(r)
    ensures Expected(Choose(entry, r), rs + [r], k)
  {
    Extended(rs, r, k);
    assert EmptyAt(rs + [r], k, |rs|);
    if AnyReal(rs, k) {
      var i :| RealAt(rs, k, i) && Incoming(rs[i]) == entry.value;
      assert RealAt(rs + [r], k, i);
    } else if AnyEmpty(rs, k) {
      var i :| EmptyAt(rs, k, i) && Incoming(rs[i]) == entry.value && forall j :: j < i ==> !EmptyAt(rs, k, j);
      assert EmptyAt(rs + [r], k, i);
    }
  }

  lemma OtherStep(entry: Option<Entry>, rs: seq<Reservation>, r: Reservation, k: Key)
    requires Expected(entry, rs, k) && (r.key != k || (!IsReal(r) && !IsEmpty(r)))
    ensures Expected(entry, rs + [r], k)
  {
    Extended(rs, r, k);
    if AnyReal(rs, k) {
      var i :| RealAt(rs, k, i) && Incoming(rs[i]) == entry.value;
      assert RealAt(rs + [r], k, i);
      forall j | RealAt(rs + [r], k, j) ensures RealAt(rs, k, j) {
      }
    } else if AnyEmpty(rs, k) {
      var i :| EmptyAt(rs, k, i) && Incoming(rs[i]) == entry.value && forall j :: j < i ==> !EmptyAt(rs, k, j);
      assert EmptyAt(rs + [r], k, i);
    }
  }

  /** From an empty ledger: the earliest real reservation, else the first empty one. */
  lemma {:induction false} MergeIsEarliest(rs: seq<Reservation>, k: Key)
    ensures Expected(Get(Merge(map[], rs), k), rs, k)
  {
    if rs == [] {
    } else {
      var init, r := rs[..|rs| - 1], rs[|rs| - 1];
      MergeIsEarliest(init, k);
      assert rs == init + [r];
      var entry := Get(Merge(map[], init), k);
      if r.key == k && IsReal(r) {
        RealStep(entry, init, r, k);
      } else if r.key == k && IsEmpty(r) {
        EmptyStep(entry, init, r, k);
      } else {
        OtherStep(entry, init, r, k);
      }
    }
  }

  // ---------------------------------------------------------------- order and repetition

  /** Some reservation is real, or all the empty ones carry the same instant (usually none). */
  ghost predicate Settled(rs: seq<Reservation>, k: Key) {
    AnyReal(rs, k) || forall i, j :: EmptyAt(rs, k, i) && EmptyAt(rs, k, j) ==> Incoming(rs[i]) == Incoming(rs[j])
  }

  lemma RealMembers(a: seq<Reservation>, b: seq<Reservation>, k: Key, i: int)
    requires Elements(a) == Elements(b)
    ensures RealAt(a, k, i) ==> exists j :: RealAt(b, k, j) && b[j] == a[i]
    ensures EmptyAt(a, k, i) ==> exists j :: EmptyAt(b, k, j) && b[j] == a[i]
  {
    if 0 <= i < |a| {
      assert a[i] in Elements(b);
      var j :| 0 <= j < |b| && b[j] == a[i];
      assert RealAt(a, k, i) ==> RealAt(b, k, j);
      assert EmptyAt(a, k, i) ==> EmptyAt(b, k, j);
    }
  }

  lemma SameEarliest(x: Entry, y: Entry, a: seq<Reservation>, b: seq<Reservation>, k: Key)
    requires Elements(a) == Elements(b) && IsEarliest(x, a, k) && IsEarliest(y, b, k)
    ensures x == y
  {
    var i :| RealAt(a, k, i) && Incoming(a[i]) == x;
    RealMembers(a, b, k, i);
    var i' :| RealAt(b, k, i') && b[i'] == a[i];
    var j :| RealAt(b, k, j) && Incoming(b[j]) == y;
    RealMembers(b, a, k, j);
    var j' :| RealAt(a, k, j') && a[j'] == b[j];
  }

  /** The result for a key depends only on which reservations were offered, not on order or number. */
  lemma SameMembersSameEntry(a: seq<Reservation>, b: seq<Reservation>, k: Key)
    requires Elements(a) == Elements(b) && Settled(a, k)
    ensures Get(Merge(map[], a), k) == Get(Merge(map[], b), k)
  {
    var x, y := Get(Merge(map[], a), k), Get(Merge(map[], b), k);
    MergeIsEarliest(a, k);
    MergeIsEarliest(b, k);
    forall i: int ensures RealAt(a, k, i) ==> AnyReal(b, k) {
      RealMembers(a, b, k, i);
    }
    forall i: int ensures (RealAt(b, k, i) ==> AnyReal(a, k)) && (EmptyAt(b, k, i) ==> AnyEmpty(a, k)) {
      RealMembers(b, a, k, i);
    }
    forall i: int ensures EmptyAt(a, k, i) ==> AnyEmpty(b, k) {
      RealMembers(a, b, k, i);
    }
    if AnyReal(a, k) {
      SameEarliest(x.value, y.value, a, b, k);
    } else if AnyEmpty(a, k) {
      SameFirstEmpty(x.value, y.value, a, b, k);
    }
  }

  lemma SameFirstEmpty(x: Entry, y: Entry, a: seq<Reservation>, b: seq<Reservation>, k: Key)
    requires Elements(a) == Elements(b) && Settled(a, k) && !AnyReal(a, k)
    requires IsFirstEmpty(x, a, k) && IsFirstEmpty(y, b, k)
    ensures x == y
  {
    var i :| EmptyAt(a, k, i) && Incoming(a[i]) == x && forall j :: j < i ==> !EmptyAt(a, k, j);
    var j :| EmptyAt(b, k, j) && Incoming(b[j]) == y && forall n :: n < j ==> !EmptyAt(b, k, n);
    RealMembers(b, a, k, j);
  }

  /** Putting a chosen empty reservation first makes it the result. */
  lemma FirstWins(rs: seq<Reservation>, k: Key, i: int)
    requires EmptyAt(rs, k, i) && !AnyReal(rs, k)
    ensures var b := rs[i..] + rs[..i];
            && multiset(b) == multiset(rs) && Elements(b) == Elements(rs)
            && Get(Merge(map[], b), k) == Some(Incoming(rs[i]))
  {
    var b := rs[i..] + rs[..i];
    assert rs == rs[..i] + rs[i..];
    assert multiset(b) == multiset(rs);
    forall r ensures r in b <==> r in rs {
      assert r in multiset(b) <==> r in multiset(rs);
    }
    assert Elements(b) == Elements(rs);
    MergeIsEarliest(b, k);
    forall n: int ensures !RealAt(b, k, n) {
      RealMembers(b, rs, k, n);
    }
    assert b[0] == rs[i];
    assert EmptyAt(b, k, 0);
  }

  /** Every reordering of the reservations gives the same entry. */
  ghost predicate OrderFree(rs: seq<Reservation>, k: Key) {
    forall b: seq<Reservation> :: multiset(b) == multiset(rs) ==> Get(Merge(map[], b), k) == Get(Merge(map[], rs), k)
  }

  lemma OrderFreeExactly(rs: seq<Reservation>, k: Key)
    ensures OrderFree(rs, k) <==> Settled(rs, k)
  {
    if Settled(rs, k) {
      forall b: seq<Reservation> | multiset(b) == multiset(rs)
        ensures Get(Merge(map[], b), k) == Get(Merge(map[], rs), k)
      {
        forall r ensures r in b <==> r in rs {
          assert r in multiset(b) <==> r in multiset(rs);
        }
        SameMembersSameEntry(rs, b, k);
      }
    } else {
      var i, j :| EmptyAt(rs, k, i) && EmptyAt(rs, k, j) && Incoming(rs[i]) != Incoming(rs[j]);
      FirstWins(rs, k, i);
      FirstWins(rs, k, j);
      assert multiset(rs[i..] + rs[..i]) == multiset(rs);
      assert multiset(rs[j..] + rs[..j]) == multiset(rs);
    }
  }

  // ---------------------------------------------------------------- existing ledgers

  /** A stored episode with an unreadable clock is never replaced. */
  lemma {:induction false} UnreadableStays(ledger: Ledger, rs: seq<Reservation>, k: Key)
    requires k in ledger && ledger[k].clock.Unreadable? && ledger[k].episode.Some?
    ensures Get(Merge(ledger, rs), k) == Some(ledger[k])
  {
    if rs == [] {
    } else {
      UnreadableStays(ledger, rs[..|rs| - 1], k);
    }
  }

  /** A readable real entry only ever moves to an earlier one. */
  lemma {:induction false} OnlyEarlier(ledger: Ledger, rs: seq<Reservation>, k: Key)
    requires k in ledger && ledger[k].clock.At? && ledger[k].episode.Some?
    ensures var after := Merge(ledger, rs);
            && k in after && after[k].clock.At? && after[k].episode.Some?
            && NotAfter(after[k].clock.instant, after[k].episode.value,
                        ledger[k].clock.instant, ledger[k].episode.value)
  {
    if rs == [] {
    } else {
      OnlyEarlier(ledger, rs[..|rs| - 1], k);
    }
  }
}
