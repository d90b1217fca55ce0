/** The recorder object: bounded deques and loss counters changed in place. */
module DiagnosticsRecorder {
  import opened Common
  import opened RecorderModel
  import opened RecorderRuns

  method FindOpen(es: seq<Event>) returns (index: nat)
    ensures index == FirstOpen(es)
  {
    index := 0;
    while index < |es| && Protected(es[index])
      invariant index <= |es| && forall k :: 0 <= k < index ==> Protected(es[k])
    {
      index := index + 1;
    }
  }

  method FindProtected(es: seq<Event>) returns (index: nat)
    ensures index == FirstProtected(es)
  {
    index := 0;
    while index < |es| && !Protected(es[index])
      invariant index <= |es| && forall k :: 0 <= k < index ==> !Protected(es[k])
    {
      index := index + 1;
    }
  }

  method FindOpenInterval(queue: seq<seq<Event>>) returns (index: nat)
    ensures index == FirstOpenInterval(queue)
  {
    index := 0;
    while index < |queue| && ProtectedInterval(queue[index])
      invariant index <= |queue| && forall k :: 0 <= k < index ==> ProtectedInterval(queue[k])
    {
      index := index + 1;
    }
  }

  /** The whole groups that fit, taken from the left of the publication deque. */
  method TakeGroups(publications: seq<seq<Event>>) returns (selected: seq<Event>, rest: seq<seq<Event>>)
    ensures var n := FittingGroups(publications, 0);
            selected == Flatten(publications[..n]) && rest == publications[n..]
  {
    selected, rest := [], publications;
    while rest != [] && |selected| + |rest[0]| <= GROUP_EVENTS
      invariant var n := FittingGroups(rest, |selected|);
                && selected + Flatten(rest[..n]) == Flatten(publications[..FittingGroups(publications, 0)])
                && rest[n..] == publications[FittingGroups(publications, 0)..]
      decreases |rest|
    {
      var n := FittingGroups(rest, |selected|);
      assert rest[..n][1..] == rest[1..][..n - 1];
      assert rest[n..] == rest[1..][n - 1..];
      selected, rest := selected + rest[0], rest[1..];
    }
    assert Flatten(rest[..0]) == [];
  }

  /** The first protected event, else the oldest. */
  method FindNext(es: seq<Event>) returns (index: nat)
    requires es != []
    ensures index == NextEvent(es)
  {
    index := FindProtected(es);
    if index == |es| {
      index := 0;
    }
  }

  lemma PickNext(es: seq<Event>, room: nat)
    requires es != [] && room > 0
    ensures var i, rest := NextEvent(es), PickEvents(Drop(es, NextEvent(es)), room - 1);
            PickEvents(es, room).0 == [es[i]] + rest.0 && PickEvents(es, room).1 == rest.1
  {
  }

  /** Single events for the remaining room, protected ones first. */
  method TakeSingles(es: seq<Event>, room: nat) returns (picked: seq<Event>, rest: seq<Event>)
    ensures picked == PickEvents(es, room).0 && rest == PickEvents(es, room).1
  {
    picked, rest := [], es;
    var left := room;
    while rest != [] && left > 0
      invariant picked + PickEvents(rest, left).0 == PickEvents(es, room).0
      invariant PickEvents(rest, left).1 == PickEvents(es, room).1
      decreases left
    {
      var index := FindNext(rest);
      PickNext(rest, left);
      picked, rest, left := picked + [rest[index]], Drop(rest, index), left - 1;
    }
    assert PickEvents(rest, left).0 == [];
  }

  lemma AddTwice(counters: Counters, a: seq<Event>, b: seq<Event>)
    ensures Add(Add(counters, a), b) == Add(counters, a + b)
  {
    CountConcat(a, b, TrainingCategory);
    CountConcat(a, b, ProofCategory);
    CountConcat(a, b, StorageCategory);
    CountConcat(a, b, OtherCategory);
  }

  lemma {:induction false} ChosenPush(items: seq<Item>, last: Item, keep: bool)
    ensures Retained(last) == keep ==> Chosen(items + [last], keep) == Chosen(items, keep) + [EventOf(last)]
    ensures Retained(last) != keep ==> Chosen(items + [last], keep) == Chosen(items, keep)
  {
    if items == [] {
      assert items + [last] == [last];
      assert [last][1..] == [];
    } else {
      ChosenPush(items[1..], last, keep);
      assert (items + [last])[1..] == items[1..] + [last];
    }
  }

  lemma ChosenAppend(items: seq<Item>, i: nat, keep: bool)
    requires i < |items|
    ensures Retained(items[i]) == keep ==>
              Chosen(items[..i + 1], keep) == Chosen(items[..i], keep) + [EventOf(items[i])]
    ensures Retained(items[i]) != keep ==> Chosen(items[..i + 1], keep) == Chosen(items[..i], keep)
  {
    assert items[..i + 1] == items[..i] + [items[i]];
    ChosenPush(items[..i], items[i], keep);
  }

  class Recorder {
    var events: seq<Event>
    var publications: seq<seq<Event>>
    var queue: seq<seq<Event>>
    var lostEvents: Counters
    var lostHandoff: Counters

    ghost function View(): RecorderModel.Recorder
      reads this
    {
      RecorderModel.Recorder(events, publications, queue, lostEvents, lostHandoff)
    }

    constructor ()
      ensures View() == Fresh()
    {
      events, publications, queue, lostEvents, lostHandoff := [], [], [], ZERO, ZERO;
    }

    method RecordLoss(e: Event)
      modifies this`lostEvents
      ensures lostEvents == Add(old(lostEvents), [e])
    {
      lostEvents := Add(lostEvents, [e]);
    }

    /** Accept one directly submitted event. */
    method SubmitEvent(e: Event, encodes: bool) returns (ok: bool)
      modifies this
      ensures View() == Submit(old(View()), e, encodes)
      ensures ok ==> e in events
    {
      if !encodes {
        RecordLoss(e);
        return false;
      }
      if |events| >= EVENT_SLOTS {
        var open := FindOpen(events);
        if open == |events| && !Protected(e) {
          RecordLoss(e);
          return false;
        }
        var victim := if open == |events| then 0 else open;
        RecordLoss(events[victim]);
        events := Drop(events, victim);
      }
      events := events + [e];
      ok := true;
    }

    /** Count every event of a list as lost, one at a time. */
    method RecordLosses(es: seq<Event>)
      modifies this`lostEvents
      ensures lostEvents == Add(old(lostEvents), es)
    {
      var i := 0;
      while i < |es|
        invariant 0 <= i <= |es| && lostEvents == Add(old(lostEvents), es[..i])
      {
        RecordLoss(es[i]);
        AddTwice(old(lostEvents), es[..i], [es[i]]);
        assert es[..i + 1] == es[..i] + [es[i]];
        i := i + 1;
      }
      assert es[..i] == es;
    }

    /** Keep the valid members of one publication together; count the rest as lost. */
    method Retain(items: seq<Item>) returns (retained: seq<Event>)
      modifies this`lostEvents
      ensures retained == Chosen(items, true)
      ensures lostEvents == Add(old(lostEvents), Chosen(items, false))
    {
      retained := [];
      var i := 0;
      while i < |items|
        invariant 0 <= i <= |items| && retained == Chosen(items[..i], true)
        invariant lostEvents == Add(old(lostEvents), Chosen(items[..i], false))
      {
        ChosenAppend(items, i, true);
        ChosenAppend(items, i, false);
        if Retained(items[i]) {
          retained := retained + [EventOf(items[i])];
        } else {
          RecordLoss(EventOf(items[i]));
          AddTwice(old(lostEvents), Chosen(items[..i], false), [EventOf(items[i])]);
        }
        i := i + 1;
      }
      assert items[..i] == items;
    }

    method Publication(items: seq<Item>)
      modifies this
      ensures View() == Publish(old(View()), items)
    {
      var group := Retain(Head(items));
      RecordLosses(EventsOf(Tail(items)));
      if group == [] {
        return;
      }
      if |publications| == GROUPS {
        RecordLosses(publications[0]);
        publications := publications[1..];
      }
      publications := publications + [group];
    }

    /** What the next record would carry; consumed only when `commit` is set. */
    method TakeEvents(commit: bool) returns (selected: seq<Event>)
      modifies this
      ensures selected == Select(old(View())).selected
      ensures !commit ==> View() == old(View())
      ensures commit ==>
                View() == old(View()).(publications := Select(old(View())).publications,
                                       events := Select(old(View())).events)
    {
      var grouped, groups := TakeGroups(publications);
      var picked, rest := TakeSingles(events, if |grouped| < EVENT_SLOTS then EVENT_SLOTS - |grouped| else 0);
      selected := grouped + picked;
      if commit {
        publications, events := groups, rest;
      }
    }

    /** Collect one interval: preview, encode, then consume exactly what was previewed. */
    method CollectInterval(encodes: bool) returns (record: seq<Event>)
      modifies this
      ensures View() == Collect(old(View()), encodes)
      ensures record == Select(old(View())).selected
    {
      record := TakeEvents(false);
      if !encodes {
        return;
      }
      var consumed := TakeEvents(true);
      assert consumed == record;
      if |queue| >= INTERVALS {
        var open := FindOpenInterval(queue);
        if open == |queue| && !ProtectedInterval(record) {
          lostHandoff := AddInterval(lostHandoff, record);
          return;
        }
        var victim := if open == |queue| then 0 else open;
        lostHandoff := AddInterval(lostHandoff, queue[victim]);
        queue := Drop(queue, victim);
      }
      queue := queue + [record];
    }

    /** Hand the oldest interval to the writer if it accepts one. */
    method FlushOne(accepted: bool) returns (handed: Option<seq<Event>>)
      modifies this`queue
      ensures handed.Some? == (accepted && old(queue) != [])
      ensures handed.Some? ==> old(queue) == [handed.value] + queue
      ensures handed.None? ==> queue == old(queue)
    {
      handed := None;
      if accepted && queue != [] {
        handed := Some(queue[0]);
        queue := queue[1..];
      }
    }

    /** Shutdown: everything still held is counted, intervals by the events inside them. */
    method StopRecording()
      modifies this
      ensures View() == Stop(old(View()))
    {
      ghost var was := View();
      while queue != []
        invariant AddIntervals(lostHandoff, queue) == AddIntervals(was.lostHandoff, was.queue)
        invariant View() == was.(queue := queue, lostHandoff := lostHandoff)
        decreases |queue|
      {
        lostHandoff := AddInterval(lostHandoff, queue[0]);
        queue := queue[1..];
      }
      RecordLosses(Flatten(publications));
      RecordLosses(events);
      AddTwice(was.lostEvents, Flatten(publications), events);
      publications, events := [], [];
    }
  }
}
