/** Exactly what the recorder keeps, displaces and collects. */
module RecorderService {
  import opened Common
  import opened RecorderModel
  import opened RecorderRuns

  // ---------------------------------------------------------------- counting

  /** A count is the number of positions that hold an event of the category. */
  lemma {:induction false} CountIsNumber(es: seq<Event>, c: Category)
    ensures Count(es, c) == |Places(es, c)|
  {
    if es == [] {
      assert Places(es, c) == {};
    } else {
      CountIsNumber(es[1..], c);
      PlacesNext(es, c);
      ShiftedSize(Places(es[1..], c));
      ShiftedHas(Places(es[1..], c), 0);
    }
  }

  function Places(es: seq<Event>, c: Category): set<int> {
    set i | 0 <= i < |es| && CategoryOf(es[i]) == c
  }

  lemma PlacesNext(es: seq<Event>, c: Category)
    requires es != []
    ensures Places(es, c) == Shifted(Places(es[1..], c)) + (if CategoryOf(es[0]) == c then {0} else {})
  {
    forall i ensures i in Places(es, c) <==>
                     i in Shifted(Places(es[1..], c)) || (i == 0 && CategoryOf(es[0]) == c) {
      ShiftedHas(Places(es[1..], c), i);
      assert 0 < i < |es| ==> es[1..][i - 1] == es[i];
    }
  }

  function Shifted(xs: set<int>): set<int> {
    set i | i in xs :: i + 1
  }

  lemma ShiftedHas(xs: set<int>, i: int)
    ensures i in Shifted(xs) <==> i - 1 in xs
  {
    if i - 1 in xs {
      assert (i - 1) + 1 == i;
    }
  }

  lemma {:induction false} ShiftedSize(xs: set<int>)
    ensures |Shifted(xs)| == |xs|
    decreases |xs|
  {
    if xs == {} {
    } else {
      var x := Pick(xs);
      ShiftedSize(xs - {x});
      forall i ensures i in Shifted(xs) <==> i in Shifted(xs - {x}) + {x + 1} {
        ShiftedHas(xs, i);
        ShiftedHas(xs - {x}, i);
      }
      ShiftedHas(xs - {x}, x + 1);
      assert Shifted(xs) == Shifted(xs - {x}) + {x + 1};
    }
  }

  /** An interval is protected exactly when one of its first eight events is. */
  lemma ProtectedIntervalExactly(interval: seq<Event>)
    ensures ProtectedInterval(interval) <==>
              exists i :: 0 <= i < |interval| && i < 8 && Protected(interval[i])
  {
    var es := if |interval| <= EVENT_SLOTS then interval else interval[..EVENT_SLOTS];
    HasCategory(es, TrainingCategory);
    HasCategory(es, ProofCategory);
    if exists i :: 0 <= i < |es| && Protected(es[i]) {
      var i :| 0 <= i < |es| && Protected(es[i]);
      assert interval[i] == es[i];
    }
  }

  lemma {:induction false} HasCategory(es: seq<Event>, c: Category)
    ensures Count(es, c) > 0 <==> exists i :: 0 <= i < |es| && CategoryOf(es[i]) == c
  {
    if es != [] {
      HasCategory(es[1..], c);
      if i :| 0 <= i < |es| && CategoryOf(es[i]) == c {
        assert i > 0 ==> es[1..][i - 1] == es[i];
      }
      if i :| 0 <= i < |es| - 1 && CategoryOf(es[1..][i]) == c {
        assert es[i + 1] == es[1..][i];
      }
    }
  }

  // ---------------------------------------------------------------- submission

  /**
   * An event that encodes is kept, as the newest, unless all eight slots hold protected events and
   * it is not one; with a free slot nothing else is lost.
   */
  lemma SubmitExactly(r: Recorder, e: Event, encodes: bool)
    requires Bounded(r)
    ensures var after := Submit(r, e, encodes);
            var kept := encodes && (|r.events| < 8 || Protected(e) || exists x :: x in r.events && !Protected(x));
            && after.publications == r.publications && after.queue == r.queue
            && (!kept ==> after.events == r.events)
            && (kept ==> after.events != [] && after.events[|after.events| - 1] == e)
            && (encodes && |r.events| < 8 ==> after == r.(events := r.events + [e]))
            && (kept && |r.events| == 8 ==> |after.events| == 8)
  {
    if |r.events| == EVENT_SLOTS {
      var open := FirstOpen(r.events);
      if open == |r.events| {
        assert forall x :: x in r.events ==> Protected(x);
      } else {
        assert r.events[open] in r.events;
      }
    }
  }

  // ---------------------------------------------------------------- publication

  /** `g` lists, in order, the events at exactly these positions. */
  predicate ListsAt(items: seq<Item>, keep: bool, idx: seq<nat>, g: seq<Event>) {
    && Increasing(idx) && Picks(items, idx, g)
    && HasAll(items, keep, idx)
  }

  predicate HasAll(items: seq<Item>, keep: bool, idx: seq<nat>) {
    forall i: nat :: i < |items| ==> (Retained(items[i]) == keep <==> i in idx)
  }

  predicate Increasing(idx: seq<nat>) {
    forall a, b :: 0 <= a < b < |idx| ==> idx[a] < idx[b]
  }

  predicate Picks(items: seq<Item>, idx: seq<nat>, g: seq<Event>) {
    |g| == |idx| && forall k :: 0 <= k < |idx| ==> idx[k] < |items| && g[k] == EventOf(items[idx[k]])
  }

  function Later(idx: seq<nat>): (out: seq<nat>)
    ensures |out| == |idx| && forall k :: 0 <= k < |idx| ==> out[k] == idx[k] + 1
  {
    seq(|idx|, k requires 0 <= k < |idx| => idx[k] + 1)
  }

  lemma LaterHas(idx: seq<nat>, i: nat)
    ensures i in Later(idx) <==> i > 0 && i - 1 in idx
  {
    if i > 0 && i - 1 in idx {
      var k :| 0 <= k < |idx| && idx[k] == i - 1;
      assert Later(idx)[k] == i;
    }
  }

  /** The positions kept, from those of the items after the first. */
  function MoreIdx(items: seq<Item>, keep: bool, rest: seq<nat>): seq<nat>
    requires items != []
  {
    (if Retained(items[0]) == keep then [0] else []) + Later(rest)
  }

  lemma {:induction false} ChosenLists(items: seq<Item>, keep: bool) returns (idx: seq<nat>)
    ensures ListsAt(items, keep, idx, Chosen(items, keep))
  {
    if items == [] {
      idx := [];
    } else {
      var rest := ChosenLists(items[1..], keep);
      idx := MoreIdx(items, keep, rest);
      PicksMore(items, keep, rest, Chosen(items[1..], keep));
      HasMore(items, keep, rest);
      ChosenNext(items, keep);
    }
  }

  lemma ChosenNext(items: seq<Item>, keep: bool)
    requires items != []
    ensures Chosen(items, keep)
            == (if Retained(items[0]) == keep then [EventOf(items[0])] else []) + Chosen(items[1..], keep)
  {
  }

  lemma HasMore(items: seq<Item>, keep: bool, rest: seq<nat>)
    requires items != [] && HasAll(items[1..], keep, rest)
    ensures HasAll(items, keep, MoreIdx(items, keep, rest))
  {
    forall i: nat | i < |items| ensures Retained(items[i]) == keep <==> i in MoreIdx(items, keep, rest) {
      LaterHas(rest, i);
      assert i > 0 ==> items[i] == items[1..][i - 1];
    }
  }

  lemma PicksMore(items: seq<Item>, keep: bool, rest: seq<nat>, g: seq<Event>)
    requires items != [] && Increasing(rest) && Picks(items[1..], rest, g)
    ensures var idx := MoreIdx(items, keep, rest);
            Increasing(idx) && Picks(items, idx, (if Retained(items[0]) == keep then [EventOf(items[0])] else []) + g)
  {
  }

  /** What a publication keeps of an item: the event itself if it was offered, is protected and encodes. */
  lemma ItemsAre(item: Item)
    ensures Retained(item) <==> item.Offered? && item.encodes && item.event.kind in {Training, TrainingError, Proof}
    ensures item.Offered? ==> EventOf(item) == item.event
    ensures item.Hole? ==> CategoryOf(EventOf(item)) == ProofCategory
  {
  }

  /**
   * A publication keeps the retained events among its first seven items together, in order, as the
   * newest group; if none is retained nothing is added, and only a fifth group displaces the oldest.
   */
  lemma PublishExactly(r: Recorder, items: seq<Item>) returns (idx: seq<nat>, group: seq<Event>)
    requires Bounded(r)
    ensures ListsAt(if |items| <= 7 then items else items[..7], true, idx, group)
    ensures var after := Publish(r, items);
            && after.events == r.events && after.queue == r.queue
            && after.publications ==
                 if group == [] then r.publications
                 else (if |r.publications| == 4 then r.publications[1..] else r.publications) + [group]
  {
    idx := ChosenLists(Head(items), true);
    group := Chosen(Head(items), true);
  }

  // ---------------------------------------------------------------- collection

  /** The events of one class, in order. */
  function Only(es: seq<Event>, protected: bool): seq<Event> {
    if es == [] then [] else OnlyOne(es[0], protected) + Only(es[1..], protected)
  }

  function OnlyOne(e: Event, protected: bool): seq<Event> {
    if Protected(e) == protected then [e] else []
  }

  lemma {:induction false} OnlyConcat(a: seq<Event>, b: seq<Event>, protected: bool)
    ensures Only(a + b, protected) == Only(a, protected) + Only(b, protected)
  {
    if a == [] {
      assert a + b == b;
    } else {
      var rest := a[1..];
      OnlyConcat(rest, b, protected);
      OnlyCons(a[0], rest + b, protected);
      assert a + b == [a[0]] + (rest + b);
      ConcatAssociates(OnlyOne(a[0], protected), Only(rest, protected), Only(b, protected));
    }
  }

  lemma ConcatAssociates(a: seq<Event>, b: seq<Event>, c: seq<Event>)
    ensures a + (b + c) == (a + b) + c
  {
  }

  lemma OnlyCons(e: Event, es: seq<Event>, protected: bool)
    ensures Only([e] + es, protected) == OnlyOne(e, protected) + Only(es, protected)
  {
    assert ([e] + es)[1..] == es;
  }

  lemma {:induction false} OnlyNone(es: seq<Event>, protected: bool)
    requires forall k :: 0 <= k < |es| ==> Protected(es[k]) != protected
    ensures Only(es, protected) == []
  {
    if es != [] {
      OnlyNone(es[1..], protected);
    }
  }

  lemma {:induction false} OnlySizes(es: seq<Event>)
    ensures |Only(es, true)| + |Only(es, false)| == |es|
  {
    if es != [] {
      OnlySizes(es[1..]);
    }
  }

  /** The order of collection: protected events first, each class oldest first. */
  function ByClass(es: seq<Event>): (out: seq<Event>)
    ensures |out| == |es|
  {
    OnlySizes(es);
    Only(es, true) + Only(es, false)
  }

  lemma DropOnly(es: seq<Event>, i: nat, b: bool)
    requires i < |es|
    ensures Only(es, b) == Only(es[..i], b) + (OnlyOne(es[i], b) + Only(es[i + 1..], b))
    ensures Only(Drop(es, i), b) == Only(es[..i], b) + Only(es[i + 1..], b)
  {
    assert es == es[..i] + ([es[i]] + es[i + 1..]);
    OnlyConcat(es[..i], [es[i]] + es[i + 1..], b);
    OnlyCons(es[i], es[i + 1..], b);
    OnlyConcat(es[..i], es[i + 1..], b);
  }

  lemma Regroup(e: Event, p: seq<Event>, u: seq<Event>, v: seq<Event>)
    ensures ([] + ([e] + p)) + (u + ([] + v)) == [e] + (([] + p) + (u + v))
  {
  }

  lemma NextProtected(es: seq<Event>, i: nat)
    requires i < |es| && Protected(es[i]) && forall k :: 0 <= k < i ==> !Protected(es[k])
    ensures ByClass(es) == [es[i]] + ByClass(Drop(es, i))
  {
    DropOnly(es, i, true);
    DropOnly(es, i, false);
    OnlyNone(es[..i], true);
    Regroup(es[i], Only(es[i + 1..], true), Only(es[..i], false), Only(es[i + 1..], false));
  }

  lemma NextOther(es: seq<Event>)
    requires es != [] && forall k :: 0 <= k < |es| ==> !Protected(es[k])
    ensures ByClass(es) == [es[0]] + ByClass(Drop(es, 0))
  {
    OnlyNone(es, true);
    OnlyNone(es[1..], true);
    assert Drop(es, 0) == es[1..];
  }

  /** The next event is the first in that order. */
  lemma NextIsFirst(es: seq<Event>)
    requires es != []
    ensures ByClass(es) == [es[NextEvent(es)]] + ByClass(Drop(es, NextEvent(es)))
  {
    if FirstProtected(es) < |es| {
      NextProtected(es, FirstProtected(es));
    } else {
      NextOther(es);
    }
  }

  lemma PickNext(es: seq<Event>, room: nat)
    requires es != [] && room > 0
    ensures var rest := PickEvents(Drop(es, NextEvent(es)), room - 1);
            PickEvents(es, room) == ([es[NextEvent(es)]] + rest.0, rest.1)
  {
  }

  /** The pick is the beginning of the collection order, and what it leaves the rest. */
  predicate PicksFirst(es: seq<Event>, room: nat) {
    var (picked, left) := PickEvents(es, room);
    var n := Min(room, |es|);
    picked == ByClass(es)[..n] && ByClass(left) == ByClass(es)[n..]
  }

  lemma PickedStep(es: seq<Event>, room: nat)
    requires es != [] && room > 0 && PicksFirst(Drop(es, NextEvent(es)), room - 1)
    ensures PicksFirst(es, room)
  {
    var rest := Drop(es, NextEvent(es));
    PickNext(es, room);
    NextIsFirst(es);
    TakeMore(es[NextEvent(es)], ByClass(rest), Min(room - 1, |rest|));
    assert Min(room, |es|) == Min(room - 1, |rest|) + 1;
  }

  /** A pick takes what comes first in that order, as much as there is room for, and leaves the rest in order. */
  lemma {:induction false} PickedExactly(es: seq<Event>, room: nat)
    ensures PicksFirst(es, room)
    decreases room
  {
    if es == [] || room == 0 {
      assert PickEvents(es, room) == ([], es);
    } else {
      PickedExactly(Drop(es, NextEvent(es)), room - 1);
      PickedStep(es, room);
    }
  }

  lemma TakeMore(e: Event, rest: seq<Event>, n: nat)
    requires n <= |rest|
    ensures ([e] + rest)[..n + 1] == [e] + rest[..n] && ([e] + rest)[n + 1..] == rest[n..]
  {
  }

  /** Events of the first `n` groups. */
  function Together(groups: seq<seq<Event>>, n: nat): nat
    requires n <= |groups|
  {
    |Flatten(groups[..n])|
  }

  /** As many whole groups as fit into seven events, from the oldest on. */
  lemma {:induction false} GroupsFitExactly(groups: seq<seq<Event>>, used: nat)
    requires used <= 7
    ensures var n := FittingGroups(groups, used);
            && used + Together(groups, n) <= 7
            && (n < |groups| ==> used + Together(groups, n) + |groups[n]| > 7)
  {
    if groups == [] || used + |groups[0]| > GROUP_EVENTS {
      assert groups[..0] == [];
    } else {
      var n := FittingGroups(groups[1..], used + |groups[0]|);
      GroupsFitExactly(groups[1..], used + |groups[0]|);
      assert groups[..n + 1][0] == groups[0] && groups[..n + 1][1..] == groups[1..][..n];
      assert n < |groups| - 1 ==> groups[1..][n] == groups[n + 1];
    }
  }

  /** What is collected next: whole groups, then single events into what room is left. */
  function NextInterval(r: Recorder, n: nat): seq<Event>
    requires n <= |r.publications|
  {
    var groups := Flatten(r.publications[..n]);
    groups + ByClass(r.events)[..Min(if |groups| < 8 then 8 - |groups| else 0, |r.events|)]
  }

  lemma SelectsExactly(r: Recorder, n: nat)
    requires n == FittingGroups(r.publications, 0)
    ensures Select(r).selected == NextInterval(r, n) && Select(r).publications == r.publications[n..]
    ensures ByClass(Select(r).events) == ByClass(r.events)[|NextInterval(r, n)| - Together(r.publications, n)..]
  {
    SelectParts(r);
    PickedExactly(r.events, Room(r));
  }

  lemma EnqueueRoom(r: Recorder, interval: seq<Event>)
    requires |r.queue| < 4
    ensures Enqueue(r, interval) == r.(queue := r.queue + [interval])
  {
  }

  /**
   * A collection that encodes takes whole waiting groups from the oldest on, as many as fit into seven
   * events, and fills the eight places up with waiting events, protected ones first; one that does
   * not encode takes nothing. The oldest group is never left behind.
   */
  lemma CollectsExactly(r: Recorder, encodes: bool) returns (n: nat)
    requires Bounded(r) && |r.queue| < 4
    ensures n <= |r.publications| && Together(r.publications, n) <= 7
    ensures n < |r.publications| ==> Together(r.publications, n) + |r.publications[n]| > 7
    ensures r.publications != [] ==> n > 0
    ensures var after, interval := Collect(r, encodes), NextInterval(r, n);
            if !encodes then after == r
            else
              && after == r.(publications := r.publications[n..], events := after.events, queue := r.queue + [interval])
              && ByClass(after.events) == ByClass(r.events)[|interval| - Together(r.publications, n)..]
  {
    n := FittingGroups(r.publications, 0);
    GroupsFitExactly(r.publications, 0);
    SelectsExactly(r, n);
    var s := Select(r);
    EnqueueRoom(r.(publications := s.publications, events := s.events), s.selected);
    if r.publications != [] {
      assert r.publications[0] in r.publications;
      assert r.publications[..0] == [];
    }
  }
}
