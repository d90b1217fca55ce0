/**
 * The season event queue object. Its heap is kept as the fully sorted list, which is one
 * of the lists `heapq` may hold; only the head and the popped row are observable.
 */
module EventQueue {
  import opened Common
  import opened EventQueueModel

  datatype Row = Row(later: nat, priority: int, sequence: int, event: Event)

  function EntryOf(row: Row): Entry {
    Entry(row.later, row.priority, row.event)
  }

  predicate Less(a: Row, b: Row) {
    Before(EntryOf(a), a.sequence, EntryOf(b), b.sequence)
  }

  predicate Sorted(rows: seq<Row>) {
    forall i, j :: 0 <= i < j < |rows| ==> Less(rows[i], rows[j])
  }

  predicate Unique(rows: seq<Row>) {
    forall i, j :: 0 <= i < j < |rows| ==> rows[i].sequence != rows[j].sequence
  }

  function Sequences(rows: seq<Row>): set<int> {
    set r | r in rows :: r.sequence
  }

  /** The keyed contents of a row list. */
  ghost function Contents(rows: seq<Row>): map<int, Entry> {
    if rows == [] then map[]
    else Contents(rows[1..])[rows[0].sequence := EntryOf(rows[0])]
  }

  lemma SequencesCons(rows: seq<Row>)
    requires rows != [] && Unique(rows)
    ensures Unique(rows[1..]) && rows[0].sequence !in Sequences(rows[1..])
    ensures Sequences(rows) == Sequences(rows[1..]) + {rows[0].sequence}
  {
    assert rows == [rows[0]] + rows[1..];
  }

  lemma {:induction false} ContentsOf(rows: seq<Row>)
    requires Unique(rows)
    ensures Contents(rows).Keys == Sequences(rows)
    ensures |Contents(rows)| == |rows|
    ensures forall r :: r in rows ==> Contents(rows)[r.sequence] == EntryOf(r)
  {
    if rows == [] {
    } else {
      var rest := rows[1..];
      SequencesCons(rows);
      ContentsOf(rest);
      forall r | r in rows ensures Contents(rows)[r.sequence] == EntryOf(r) {
        assert r == rows[0] || r in rest;
        assert r in rest ==> r.sequence in Sequences(rest);
      }
    }
  }

  /** Two unique lists with the same rows have the same contents. */
  lemma SameRows(a: seq<Row>, b: seq<Row>)
    requires Unique(a) && Unique(b) && Elements(a) == Elements(b)
    ensures Contents(a) == Contents(b)
  {
    ContentsOf(a);
    ContentsOf(b);
    assert forall r :: r in a <==> r in Elements(a);
    assert forall r :: r in b <==> r in Elements(b);
    assert Sequences(a) == Sequences(b);
    forall s | s in Contents(a) ensures Contents(a)[s] == Contents(b)[s] {
      var r :| r in a && r.sequence == s;
      assert r in b;
    }
  }

  lemma ElementsCons(row: Row, rest: seq<Row>)
    ensures Elements([row] + rest) == {row} + Elements(rest)
    ensures Sequences([row] + rest) == {row.sequence} + Sequences(rest)
  {
  }

  /** `heappush` on the sorted representation. */
  function Push(rows: seq<Row>, row: Row): (out: seq<Row>) {
    if rows == [] || Less(row, rows[0]) then [row] + rows else [rows[0]] + Push(rows[1..], row)
  }

  lemma {:induction false} PushAdds(rows: seq<Row>, row: Row)
    ensures |Push(rows, row)| == |rows| + 1
    ensures Elements(Push(rows, row)) == Elements(rows) + {row}
    ensures Sequences(Push(rows, row)) == Sequences(rows) + {row.sequence}
  {
    ElementsCons(row, rows);
    if rows != [] && !Less(row, rows[0]) {
      PushAdds(rows[1..], row);
      assert rows == [rows[0]] + rows[1..];
      ElementsCons(rows[0], rows[1..]);
      ElementsCons(rows[0], Push(rows[1..], row));
    }
  }

  lemma SortedCons(first: Row, rest: seq<Row>)
    requires Sorted(rest) && Unique(rest)
    requires forall r :: r in rest ==> Less(first, r) && first.sequence != r.sequence
    ensures Sorted([first] + rest) && Unique([first] + rest)
  {
    var rows := [first] + rest;
    assert forall i :: 0 < i < |rows| ==> rows[i] == rest[i - 1] && rows[i] in rest;
  }

  lemma {:induction false} PushSorts(rows: seq<Row>, row: Row)
    requires Sorted(rows) && Unique(rows) && row.sequence !in Sequences(rows)
    ensures Sorted(Push(rows, row)) && Unique(Push(rows, row))
  {
    assert forall r :: r in rows ==> r.sequence in Sequences(rows);
    if rows == [] {
    } else if Less(row, rows[0]) {
      forall r | r in rows ensures Less(row, r) && row.sequence != r.sequence {
        assert r == rows[0] || Less(rows[0], r);
      }
      SortedCons(row, rows);
    } else {
      var first, tail := rows[0], rows[1..];
      assert forall r :: r in tail ==> r in rows;
      PushSorts(tail, row);
      PushAdds(tail, row);
      forall r | r in Push(tail, row) ensures Less(first, r) && first.sequence != r.sequence {
        assert r in Elements(Push(tail, row));
        assert r in tail || r == row;
      }
      SortedCons(first, Push(tail, row));
    }
  }

  /** `heapify` on any list of uniquely numbered rows. */
  function Heapify(rows: seq<Row>): (out: seq<Row>) {
    if rows == [] then [] else Push(Heapify(rows[1..]), rows[0])
  }

  lemma {:induction false} HeapifyKeeps(rows: seq<Row>)
    requires Unique(rows)
    ensures Sorted(Heapify(rows)) && Unique(Heapify(rows))
    ensures |Heapify(rows)| == |rows| && Elements(Heapify(rows)) == Elements(rows)
    ensures Sequences(Heapify(rows)) == Sequences(rows)
    ensures Contents(Heapify(rows)) == Contents(rows)
  {
    if rows == [] {
    } else {
      var rest := Heapify(rows[1..]);
      HeapifyKeeps(rows[1..]);
      assert rows == [rows[0]] + rows[1..];
      ElementsCons(rows[0], rows[1..]);
      assert rows[0].sequence !in Sequences(rows[1..]);
      PushAdds(rest, rows[0]);
      PushSorts(rest, rows[0]);
      SameRows(Heapify(rows), rows);
    }
  }

  lemma PushKeeps(rows: seq<Row>, row: Row)
    requires Sorted(rows) && Unique(rows) && row.sequence !in Sequences(rows)
    ensures Sorted(Push(rows, row)) && Unique(Push(rows, row))
    ensures Sequences(Push(rows, row)) == Sequences(rows) + {row.sequence}
    ensures Contents(Push(rows, row)) == Contents(rows)[row.sequence := EntryOf(row)]
  {
    PushAdds(rows, row);
    PushSorts(rows, row);
    ElementsCons(row, rows);
    FrontContents(rows, row);
    SameRows(Push(rows, row), [row] + rows);
  }

  lemma FrontContents(rows: seq<Row>, row: Row)
    requires Unique(rows) && row.sequence !in Sequences(rows)
    ensures Unique([row] + rows) && Contents([row] + rows) == Contents(rows)[row.sequence := EntryOf(row)]
  {
    assert ([row] + rows)[1..] == rows;
    assert forall r :: r in rows ==> r.sequence in Sequences(rows);
  }

  lemma FirstBeforeOthers(rows: seq<Row>, t: int)
    requires Sorted(rows) && Unique(rows) && rows != []
    requires t in Sequences(rows) && t != rows[0].sequence
    requires t in Contents(rows)
    ensures Before(EntryOf(rows[0]), rows[0].sequence, Contents(rows)[t], t)
  {
    ContentsOf(rows);
    var r :| r in rows && r.sequence == t;
    var i :| 0 <= i < |rows| && rows[i] == r;
    assert Less(rows[0], rows[i]);
  }

  lemma TailContents(rows: seq<Row>)
    requires Unique(rows) && rows != []
    ensures Sequences(rows[1..]) == Sequences(rows) - {rows[0].sequence}
    ensures Contents(rows[1..]) == Contents(rows) - {rows[0].sequence}
  {
    assert rows == [rows[0]] + rows[1..];
    ElementsCons(rows[0], rows[1..]);
    assert rows[0].sequence !in Sequences(rows[1..]);
    assert rows[0].sequence !in Contents(rows[1..]) by {
      ContentsOf(rows[1..]);
    }
    RemoveAdded(Contents(rows[1..]), rows[0].sequence, EntryOf(rows[0]));
  }

  /** The first row of the sorted list is the heap head of its contents. */
  lemma FirstIsHead(rows: seq<Row>)
    requires Sorted(rows) && Unique(rows) && rows != []
    ensures rows[0].sequence in Contents(rows)
    ensures Contents(rows)[rows[0].sequence] == EntryOf(rows[0])
    ensures Contents(rows) != map[] && Head(Contents(rows)) == rows[0].sequence
  {
    ContentsOf(rows);
    assert rows[0] in rows;
    var m := Contents(rows);
    forall t | t in m && t != rows[0].sequence
      ensures Before(m[rows[0].sequence], rows[0].sequence, m[t], t)
    {
      FirstBeforeOthers(rows, t);
    }
    HeadUnique(m, rows[0].sequence);
  }

  /** Rewriting rows one by one, without renumbering, rewrites the contents pointwise. */
  lemma RewrittenSequences(rows: seq<Row>, out: seq<Row>)
    requires |out| == |rows|
    requires forall i :: 0 <= i < |rows| ==> out[i].sequence == rows[i].sequence
    ensures Sequences(out) == Sequences(rows)
  {
    forall s | s in Sequences(rows) ensures s in Sequences(out) {
      var i :| 0 <= i < |rows| && rows[i].sequence == s;
      assert out[i] in out;
    }
    forall s | s in Sequences(out) ensures s in Sequences(rows) {
      var i :| 0 <= i < |out| && out[i].sequence == s;
      assert rows[i] in rows;
    }
  }

  lemma ContentsAre(rows: seq<Row>, want: map<int, Entry>)
    requires Unique(rows) && want.Keys == Sequences(rows)
    requires forall i :: 0 <= i < |rows| ==> want[rows[i].sequence] == EntryOf(rows[i])
    ensures Contents(rows) == want
  {
    ContentsOf(rows);
    var contents := Contents(rows);
    forall s | s in Sequences(rows) ensures contents[s] == want[s] {
      var i :| 0 <= i < |rows| && rows[i].sequence == s;
    }
  }

  lemma RewrittenContents(rows: seq<Row>, out: seq<Row>, want: map<int, Entry>)
    requires Unique(rows) && |out| == |rows|
    requires forall i :: 0 <= i < |rows| ==> out[i].sequence == rows[i].sequence
    requires want.Keys == Sequences(rows)
    requires forall i :: 0 <= i < |rows| ==> want[rows[i].sequence] == EntryOf(out[i])
    ensures Unique(out) && Contents(out) == want && Sequences(out) == Sequences(rows)
  {
    RewrittenSequences(rows, out);
    ContentsAre(out, want);
  }

  function Unparked(rows: seq<Row>): seq<Row> {
    seq(|rows|, i requires 0 <= i < |rows| => rows[i].(later := 0))
  }

  lemma UnparkedContents(rows: seq<Row>)
    requires Unique(rows)
    ensures Unique(Unparked(rows)) && Contents(Unparked(rows)) == Cleared(Contents(rows))
    ensures Sequences(Unparked(rows)) == Sequences(rows)
  {
    ContentsOf(rows);
    RewrittenContents(rows, Unparked(rows), Cleared(Contents(rows)));
  }

  function PromotedRow(row: Row, mint: string): Row {
    if row.priority > 0 && row.event.mint == mint then row.(priority := 0) else row
  }

  lemma PromotedContents(rows: seq<Row>, out: seq<Row>, mint: string)
    requires Unique(rows) && |out| == |rows|
    requires forall i :: 0 <= i < |rows| ==> out[i] == PromotedRow(rows[i], mint)
    ensures Unique(out) && Contents(out) == Promoted(Contents(rows), mint)
    ensures Sequences(out) == Sequences(rows)
  {
    ContentsOf(rows);
    RewrittenContents(rows, out, Promoted(Contents(rows), mint));
  }

  /** How many of the rows a promotion of the mint would change. */
  function Raised(rows: seq<Row>, mint: string): nat {
    if rows == [] then 0
    else
      var last := rows[|rows| - 1];
      Raised(rows[..|rows| - 1], mint) + if last.priority > 0 && last.event.mint == mint then 1 else 0
  }

  /** The transition scan over the heap's list, and the number of rows it changed. */
  method PromoteRows(queue: seq<Row>, mint: string) returns (rows: seq<Row>, changed: nat)
    ensures |rows| == |queue| && forall i :: 0 <= i < |rows| ==> rows[i] == PromotedRow(queue[i], mint)
    ensures changed == Raised(queue, mint) && (changed == 0 ==> rows == queue)
  {
    rows, changed := queue, 0;
    for index := 0 to |queue|
      invariant |rows| == |queue| && forall i :: 0 <= i < index ==> rows[i] == PromotedRow(queue[i], mint)
      invariant forall i :: index <= i < |rows| ==> rows[i] == queue[i]
      invariant changed == Raised(queue[..index], mint) && (changed == 0 ==> rows == queue)
    {
      assert queue[..index + 1][..index] == queue[..index];
      if rows[index].priority > 0 && rows[index].event.mint == mint {
        rows := rows[index := rows[index].(priority := 0)];
        changed := changed + 1;
      }
    }
    assert queue[..|queue|] == queue;
  }

  /** Discard the admission of each row in turn. */
  method WithoutRows(pending: set<int>, rows: seq<Row>) returns (left: set<int>)
    ensures left == pending - Sequences(rows)
  {
    left := pending;
    for i := 0 to |rows|
      invariant left == pending - Sequences(rows[..i])
    {
      assert rows[..i + 1] == rows[..i] + [rows[i]];
      left := left - {rows[i].sequence};
    }
    assert rows[..|rows|] == rows;
  }

  /** asyncio's own counter after some rows were marked done, one at a time. */
  method AfterDone(unfinished: int, rows: nat) returns (left: int)
    ensures left == unfinished - rows
  {
    left := unfinished;
    for i := 0 to rows
      invariant left == unfinished - i
    {
      left := left - 1;
    }
  }

  class SeasonEventQueue {
    var queue: seq<Row>
    var boundary: Option<int>
    var pending: set<int>
    var dequeued: seq<int>
    var unfinished: int
    const maxsize: int

    ghost predicate Valid()
      reads this
    {
      Sorted(queue) && Unique(queue) && Sequences(queue) <= pending
    }

    ghost function View(): Queue
      reads this
    {
      Queue(Contents(queue), boundary, pending, dequeued, unfinished, maxsize)
    }

    constructor (maxsize: int)
      ensures Valid() && View() == Empty(maxsize)
    {
      queue, boundary, pending, dequeued, unfinished := [], None, {}, [], 0;
      this.maxsize := maxsize;
    }

    method Admit(s: int)
      requires Valid()
      modifies this
      ensures Valid() && View() == EventQueueModel.Admit(old(View()), s)
    {
      pending := pending + {s};
    }

    /** Callers give up only a sequence they never put. */
    method Forget(s: int)
      requires Valid() && s !in Sequences(queue)
      modifies this
      ensures Valid() && View() == EventQueueModel.Forget(old(View()), s)
    {
      pending := pending - {s};
    }

    /** Whether a put must raise `QueueFull`. */
    method IsFull(s: int) returns (full: bool)
      requires Valid()
      ensures full == Refused(View(), s)
    {
      assert |Contents(queue)| == |queue| && Contents(queue).Keys == Sequences(queue) by {
        ContentsOf(queue);
      }
      if boundary.Some? && s > boundary.value && maxsize > 0 {
        var taken := Sequences(queue) + Elements(dequeued);
        var waiting := set w | w in pending && w <= boundary.value && w !in taken;
        assert waiting == WaitingOld(View(), boundary.value);
        if |queue| >= Max(0, maxsize - |waiting|) {
          return true;
        }
      }
      full := maxsize > 0 && |queue| >= maxsize;
    }

    method PutNowait(priority: int, s: int, event: Event) returns (ok: bool)
      requires Valid() && s !in Sequences(queue)
      modifies this
      ensures Valid() && View() == TryPut(old(View()), priority, s, event)
      ensures ok == !Refused(old(View()), s)
    {
      var full := IsFull(s);
      if full {
        return false;
      }
      var row := Row(if boundary.Some? && s > boundary.value then 1 else 0, priority, s, event);
      PushKeeps(queue, row);
      pending := pending + {s};
      queue := Push(queue, row);
      unfinished := unfinished + 1;
      ok := true;
    }

    method IsEmpty() returns (e: bool)
      requires Valid()
      ensures e == Available(View()).None?
    {
      if queue != [] {
        FirstIsHead(queue);
      }
      e := queue == [] || queue[0].later > 0;
    }

    method HasReadyBefore(priority: int) returns (ready: bool)
      requires Valid()
      ensures ready == AvailableBefore(View(), priority).Some?
    {
      if queue != [] {
        FirstIsHead(queue);
      }
      var e := IsEmpty();
      ready := !e && queue[0].priority < priority;
    }

    /** None stands for `QueueEmpty`. */
    method GetNowait() returns (row: Option<Row>)
      requires Valid()
      modifies this
      ensures Valid() && View() == Take(old(View()), Available(old(View())))
      ensures row.Some? == Available(old(View())).Some?
      ensures row.Some? ==> row.value.sequence == Available(old(View())).value
                            && EntryOf(row.value) == old(View()).rows[row.value.sequence]
    {
      var e := IsEmpty();
      if e {
        return None;
      }
      FirstIsHead(queue);
      TailContents(queue);
      row := Some(queue[0]);
      queue := queue[1..];
      dequeued := dequeued + [row.value.sequence];
    }

    method GetNowaitBefore(priority: int) returns (row: Option<Row>)
      requires Valid()
      modifies this
      ensures Valid() && View() == Take(old(View()), AvailableBefore(old(View()), priority))
      ensures row.Some? == AvailableBefore(old(View()), priority).Some?
      ensures row.Some? ==> row.value.sequence == AvailableBefore(old(View()), priority).value
                            && row.value.priority < priority
    {
      var ready := HasReadyBefore(priority);
      if !ready {
        return None;
      }
      row := GetNowait();
    }

    method PromoteMint(mint: string) returns (changed: nat)
      requires Valid()
      modifies this
      ensures Valid() && View() == Promote(old(View()), mint)
      ensures changed == Raised(old(queue), mint) && (changed == 0 ==> unchanged(this))
    {
      var rows;
      rows, changed := PromoteRows(queue, mint);
      PromotedContents(queue, rows, mint);
      if changed > 0 {
        HeapifyKeeps(rows);
        queue := Heapify(rows);
      }
    }

    /** False stands for asyncio's `ValueError`. */
    method TaskDone() returns (ok: bool)
      requires Valid() && forall s :: s in dequeued ==> s !in Sequences(queue)
      modifies this
      ensures Valid() && View() == EventQueueModel.TaskDone(old(View()))
      ensures ok == (old(unfinished) > 0)
    {
      ok := unfinished > 0;
      if ok {
        unfinished := unfinished - 1;
        if dequeued != [] {
          pending := pending - {dequeued[0]};
          dequeued := dequeued[1..];
        }
      }
    }

    method BeginBoundary(s: int)
      requires Valid()
      modifies this
      ensures Valid() && View() == Begin(old(View()), s)
    {
      if boundary.Some? {
        return;
      }
      var b := s;
      var rest := pending;
      while rest != {}
        invariant rest <= pending && IsMaxWith(b, s, pending - rest)
        invariant unchanged(this)
        decreases |rest|
      {
        ghost var some := Pick(rest);
        var x: int :| x in rest;
        assert pending - (rest - {x}) == (pending - rest) + {x};
        b := Max(b, x);
        rest := rest - {x};
      }
      assert pending - rest == pending;
      UnparkedContents(queue);
      HeapifyKeeps(Unparked(queue));
      boundary := Some(b);
      queue := Heapify(Unparked(queue));
    }

    method BoundaryReady() returns (ready: bool)
      ensures ready == Ready(View())
    {
      ready := boundary.Some? && forall s :: s in pending ==> s > boundary.value;
    }

    method EndBoundary()
      requires Valid()
      modifies this
      ensures Valid() && View() == End(old(View()))
    {
      UnparkedContents(queue);
      HeapifyKeeps(Unparked(queue));
      boundary := None;
      queue := Heapify(Unparked(queue));
    }

    /** Queued rows were never dequeued: only asyncio's counter is settled for them. */
    method DiscardQueued()
      requires Valid() && unfinished >= |queue|
      modifies this
      ensures Valid() && View() == Discard(old(View()))
    {
      ContentsOf(queue);
      var rows := queue;
      pending := WithoutRows(pending, rows);
      queue, boundary := [], None;
      unfinished := AfterDone(unfinished, |rows|);
    }
  }
}
