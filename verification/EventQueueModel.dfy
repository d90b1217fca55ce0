/**
 * The season event queue as a state machine.
 *
 * Rows are keyed by their admission sequence: sequences are issued once, so a key
 * identifies a row. The heap order is the tuple order (later, priority, sequence).
 */
module EventQueueModel {
  import opened Common

  datatype Event = Event(mint: string, payload: int)

  datatype Entry = Entry(later: nat, priority: int, event: Event)

  datatype Queue = Queue(
    rows: map<int, Entry>,
    boundary: Option<int>,
    pending: set<int>,
    dequeued: seq<int>,
    unfinished: int,
    maxsize: int)

  // ---------------------------------------------------------------- heap order

  /** Strict tuple order of two rows with different sequences. */
  predicate Before(a: Entry, s: int, b: Entry, t: int) {
    a.later < b.later ||
    (a.later == b.later && (a.priority < b.priority || (a.priority == b.priority && s < t)))
  }

  predicate IsHead(rows: map<int, Entry>, s: int) {
    s in rows && forall t :: t in rows && t != s ==> Before(rows[s], s, rows[t], t)
  }

  lemma {:induction false} HeadExists(rows: map<int, Entry>)
    requires rows != map[]
    ensures exists s :: IsHead(rows, s)
    decreases |rows|
  {
    var s := Pick(rows.Keys);
    var rest := rows - {s};
    assert rest.Keys == rows.Keys - {s};
    assert forall t :: t in rows && t != s ==> t in rest && rest[t] == rows[t];
    if rest == map[] {
      assert IsHead(rows, s);
    } else {
      HeadExists(rest);
      var h :| IsHead(rest, h);
      assert IsHead(rows, if Before(rows[s], s, rows[h], h) then s else h);
    }
  }

  ghost function Head(rows: map<int, Entry>): (s: int)
    requires rows != map[]
    ensures IsHead(rows, s)
  {
    HeadExists(rows);
    var s :| IsHead(rows, s);
    s
  }

  lemma HeadUnique(rows: map<int, Entry>, s: int)
    requires IsHead(rows, s)
    ensures rows != map[] && Head(rows) == s
  {
    var h := Head(rows);
    assert h != s ==> Before(rows[s], s, rows[h], h);
  }

  // ---------------------------------------------------------------- derived sets

  /** Admitted sequences whose producer has not put its row yet. */
  ghost function Waiting(q: Queue): set<int> {
    q.pending - q.rows.Keys - Elements(q.dequeued)
  }

  ghost function AtOrBelow(xs: set<int>, b: int): set<int> {
    set s | s in xs && s <= b
  }

  ghost function WaitingOld(q: Queue, b: int): set<int> {
    AtOrBelow(Waiting(q), b)
  }

  ghost function QueuedOld(q: Queue, b: int): set<int> {
    AtOrBelow(q.rows.Keys, b)
  }

  /** Rows parked behind the boundary. */
  ghost function Parked(q: Queue): set<int> {
    set s | s in q.rows && q.rows[s].later > 0
  }

  // ---------------------------------------------------------------- operations

  function Empty(maxsize: int): Queue {
    Queue(map[], None, {}, [], 0, maxsize)
  }

  function Cleared(rows: map<int, Entry>): map<int, Entry> {
    map s | s in rows :: rows[s].(later := 0)
  }

  function Admit(q: Queue, s: int): Queue {
    q.(pending := q.pending + {s})
  }

  function Forget(q: Queue, s: int): Queue {
    q.(pending := q.pending - {s})
  }

  predicate IsLater(q: Queue, s: int) {
    q.boundary.Some? && s > q.boundary.value
  }

  /** asyncio refuses at maxsize; a parked arrival is also refused capacity owed to old producers. */
  ghost predicate Refused(q: Queue, s: int) {
    q.maxsize > 0 &&
    (|q.rows| >= q.maxsize ||
     (IsLater(q, s) && |q.rows| >= Max(0, q.maxsize - |WaitingOld(q, q.boundary.value)|)))
  }

  ghost function TryPut(q: Queue, priority: int, s: int, event: Event): Queue {
    if Refused(q, s) then q
    else q.(pending := q.pending + {s},
            rows := q.rows[s := Entry(if IsLater(q, s) then 1 else 0, priority, event)],
            unfinished := q.unfinished + 1)
  }

  /** The row a get would hand out: the heap head, unless that head is parked. */
  ghost function Available(q: Queue): Option<int> {
    if q.rows == map[] || q.rows[Head(q.rows)].later > 0 then None else Some(Head(q.rows))
  }

  ghost function AvailableBefore(q: Queue, priority: int): Option<int> {
    var head := Available(q);
    if head.None? || q.rows[head.value].priority >= priority then None else head
  }

  ghost function Take(q: Queue, taken: Option<int>): Queue {
    if taken.None? then q
    else q.(rows := q.rows - {taken.value}, dequeued := q.dequeued + [taken.value])
  }

  function Promoted(rows: map<int, Entry>, mint: string): map<int, Entry> {
    map s | s in rows ::
      if rows[s].priority > 0 && rows[s].event.mint == mint then rows[s].(priority := 0) else rows[s]
  }

  function Promote(q: Queue, mint: string): Queue {
    q.(rows := Promoted(q.rows, mint))
  }

  /** One acknowledgement: asyncio's counter falls and the oldest receipt leaves the admitted set. */
  function TaskDone(q: Queue): Queue {
    if q.unfinished <= 0 then q
    else if q.dequeued == [] then q.(unfinished := q.unfinished - 1)
    else q.(unfinished := q.unfinished - 1,
            pending := q.pending - {q.dequeued[0]},
            dequeued := q.dequeued[1..])
  }

  ghost predicate IsMaxWith(b: int, s: int, xs: set<int>) {
    b >= s && (b == s || b in xs) && forall x :: x in xs ==> x <= b
  }

  lemma {:induction false} MaxWithExists(s: int, xs: set<int>)
    ensures exists b :: IsMaxWith(b, s, xs)
    decreases |xs|
  {
    if xs == {} {
      assert IsMaxWith(s, s, xs);
    } else {
      var x := Pick(xs);
      var rest := xs - {x};
      MaxWithExists(s, rest);
      var b :| IsMaxWith(b, s, rest);
      assert forall y :: y in xs && y != x ==> y in rest;
      assert IsMaxWith(Max(b, x), s, xs);
    }
  }

  ghost function MaxWith(s: int, xs: set<int>): (b: int)
    ensures IsMaxWith(b, s, xs)
  {
    MaxWithExists(s, xs);
    var b :| IsMaxWith(b, s, xs);
    b
  }

  ghost function Begin(q: Queue, s: int): Queue {
    if q.boundary.Some? then q
    else q.(boundary := Some(MaxWith(s, q.pending)), rows := Cleared(q.rows))
  }

  function End(q: Queue): Queue {
    q.(boundary := None, rows := Cleared(q.rows))
  }

  function Discard(q: Queue): Queue {
    q.(rows := map[], boundary := None, pending := q.pending - q.rows.Keys,
       unfinished := q.unfinished - |q.rows|)
  }

  ghost predicate Ready(q: Queue) {
    q.boundary.Some? && forall s :: s in q.pending ==> s > q.boundary.value
  }
}
