/**
 * Keyset reading of the diagnostics history. Each page is read from the table as it is at that
 * moment and may stop early at a deadline; the next page continues after its last row.
 */
module DiagnosticsExport {
  import opened Common

  /** The index order of interval rows; an event row also has its item number. */
  datatype Key = Key(at: int, boot: int, seqNo: int, item: int)

  predicate Below(a: Key, b: Key) {
    || a.at < b.at
    || (a.at == b.at && a.boot < b.boot)
    || (a.at == b.at && a.boot == b.boot && a.seqNo < b.seqNo)
    || (a.at == b.at && a.boot == b.boot && a.seqNo == b.seqNo && a.item < b.item)
  }

  predicate Ascending(keys: seq<Key>) {
    forall i, j :: 0 <= i < j < |keys| ==> Below(keys[i], keys[j])
  }

  function PageSize(limit: int): nat {
    Max(1, Min(100, limit))
  }

  /** A page: the first rows beyond the cursor. It is empty only when there are none. */
  predicate IsPage(table: set<Key>, after: Key, limit: int, page: seq<Key>) {
    && |page| <= PageSize(limit) && Ascending(page)
    && (forall k :: k in page ==> k in table && Below(after, k))
    && (forall k :: k in table && Below(after, k) && k !in page ==> page != [] && Below(page[|page| - 1], k))
  }

  function Move(after: Key, page: seq<Key>): Key {
    if page == [] then after else page[|page| - 1]
  }

  datatype Read = Read(table: set<Key>, limit: int, page: seq<Key>)

  predicate Follows(pages: seq<Read>, after: Key) {
    pages == [] ||
    (IsPage(pages[0].table, after, pages[0].limit, pages[0].page) && Follows(pages[1..], Move(after, pages[0].page)))
  }

  function Delivered(pages: seq<Read>): seq<Key> {
    if pages == [] then [] else pages[0].page + Delivered(pages[1..])
  }

  /** Whatever was inserted or deleted meanwhile, rows come in order and none comes twice. */
  lemma {:induction false} NothingTwice(pages: seq<Read>, after: Key)
    requires Follows(pages, after)
    ensures Ascending(Delivered(pages)) && Distinct(Delivered(pages))
    ensures forall k :: k in Delivered(pages) ==> Below(after, k)
  {
    if pages == [] {
    } else {
      var page, rest := pages[0].page, Delivered(pages[1..]);
      NothingTwice(pages[1..], Move(after, page));
      if page != [] {
        assert page[|page| - 1] in page;
      }
      AscendingConcat(page, rest, Move(after, page));
      forall k | k in rest ensures Below(after, k) {
        assert Below(Move(after, page), k);
      }
      assert Ascending(Delivered(pages));
    }
  }

  lemma AscendingConcat(a: seq<Key>, b: seq<Key>, middle: Key)
    requires Ascending(a) && Ascending(b) && (a != [] ==> a[|a| - 1] == middle)
    requires forall k :: k in b ==> Below(middle, k)
    ensures Ascending(a + b)
  {
    var all := a + b;
    forall i, j | 0 <= i < j < |all| ensures Below(all[i], all[j]) {
      if i < |a| <= j {
        assert all[j] == b[j - |a|] && all[j] in b;
        assert i < |a| - 1 ==> Below(a[i], a[|a| - 1]);
      }
    }
  }

  /** A row that stays in the table is delivered by the time a page comes back empty. */
  lemma {:induction false} NothingSkipped(pages: seq<Read>, after: Key, k: Key)
    requires Follows(pages, after) && pages != [] && pages[|pages| - 1].page == []
    requires Below(after, k) && forall i :: 0 <= i < |pages| ==> k in pages[i].table
    ensures k in Delivered(pages)
  {
    var page := pages[0].page;
    if k !in page {
      assert page != [] && Below(Move(after, page), k);
      var rest := pages[1..];
      assert rest != [] && rest[|rest| - 1] == pages[|pages| - 1];
      assert forall i :: 0 <= i < |rest| ==> rest[i] == pages[i + 1];
      NothingSkipped(rest, Move(after, page), k);
    }
  }

  /** Every delivered row was in the table when its page was read. */
  lemma {:induction false} NothingInvented(pages: seq<Read>, after: Key, k: Key)
    requires Follows(pages, after) && k in Delivered(pages)
    ensures exists i :: 0 <= i < |pages| && k in pages[i].table && k in pages[i].page
  {
    if k in pages[0].page {
      assert k in pages[0].table;
    } else {
      NothingInvented(pages[1..], Move(after, pages[0].page), k);
      var i :| 0 <= i < |pages[1..]| && k in pages[1..][i].table && k in pages[1..][i].page;
      assert pages[i + 1] == pages[1..][i];
    }
  }

  // ---------------------------------------------------------------- rows that move

  /** What identifies a row: everything but its time, which falls when an earlier start is merged in. */
  datatype Id = Id(boot: int, seqNo: int, item: int)

  function IdOf(k: Key): Id {
    Id(k.boot, k.seqNo, k.item)
  }

  function KeyAt(id: Id, at: int): Key {
    Key(at, id.boot, id.seqNo, id.item)
  }

  /** In these tables the row stands at these times, one per table, never later than before. */
  predicate Stands(pages: seq<Read>, id: Id, at: seq<int>) {
    && |at| == |pages|
    && (forall i :: 0 <= i < |pages| ==> forall k :: k in pages[i].table && IdOf(k) == id ==> k == KeyAt(id, at[i]))
    && (forall i :: 0 <= i < |pages| ==> KeyAt(id, at[i]) in pages[i].table)
    && forall i, j :: 0 <= i < j < |at| ==> at[j] <= at[i]
  }

  predicate HasId(keys: seq<Key>, id: Id) {
    exists k :: k in keys && IdOf(k) == id
  }

  /** Before it was delivered, the row was found at or behind the cursor of a page. */
  predicate Overtaken(pages: seq<Read>, after: Key, id: Id, at: seq<int>)
    requires |at| == |pages|
  {
    pages != [] && !HasId(pages[0].page, id) &&
    (!Below(after, KeyAt(id, at[0])) || Overtaken(pages[1..], Move(after, pages[0].page), id, at[1..]))
  }

  lemma StandsOn(pages: seq<Read>, id: Id, at: seq<int>)
    requires pages != [] && Stands(pages, id, at)
    ensures Stands(pages[1..], id, at[1..])
  {
    var rest, later := pages[1..], at[1..];
    assert forall i :: 0 <= i < |rest| ==> rest[i] == pages[i + 1] && later[i] == at[i + 1];
  }

  /** A row behind the cursor stays behind it. */
  lemma {:induction false} BehindStays(pages: seq<Read>, after: Key, id: Id, at: seq<int>)
    requires Follows(pages, after) && Stands(pages, id, at) && (pages != [] ==> !Below(after, KeyAt(id, at[0])))
    ensures !HasId(Delivered(pages), id)
  {
    if pages == [] {
    } else {
      var page := pages[0].page;
      StandsOn(pages, id, at);
      assert !HasId(page, id) by {
        assert forall k :: k in page && IdOf(k) == id ==> k == KeyAt(id, at[0]);
      }
      if page != [] {
        assert page[|page| - 1] in page;
      }
      BehindStays(pages[1..], Move(after, page), id, at[1..]);
    }
  }

  /** A row that stays, possibly at earlier and earlier times, is delivered exactly unless it was overtaken. */
  lemma {:induction false} DeliveredExactly(pages: seq<Read>, after: Key, id: Id, at: seq<int>)
    requires Follows(pages, after) && pages != [] && pages[|pages| - 1].page == [] && Stands(pages, id, at)
    ensures HasId(Delivered(pages), id) <==> !Overtaken(pages, after, id, at)
  {
    var page, rest := pages[0].page, pages[1..];
    StandsOn(pages, id, at);
    if HasId(page, id) {
      var k :| k in page && IdOf(k) == id;
      assert k in Delivered(pages);
    } else if !Below(after, KeyAt(id, at[0])) {
      BehindStays(pages, after, id, at);
    } else {
      assert KeyAt(id, at[0]) in pages[0].table && KeyAt(id, at[0]) !in page;
      assert rest != [] && rest[|rest| - 1] == pages[|pages| - 1];
      DeliveredExactly(rest, Move(after, page), id, at[1..]);
      assert forall k :: k in Delivered(pages) <==> k in page || k in Delivered(rest);
    }
  }

  /** And no identity is delivered twice, although its key may have changed. */
  lemma {:induction false} NoIdTwice(pages: seq<Read>, after: Key, id: Id, at: seq<int>)
    requires Follows(pages, after) && Stands(pages, id, at)
    ensures forall k, l :: k in Delivered(pages) && l in Delivered(pages) && IdOf(k) == IdOf(l) == id ==> k == l
  {
    if pages == [] {
    } else {
      var page, rest := pages[0].page, Delivered(pages[1..]);
      StandsOn(pages, id, at);
      assert forall k :: k in page && IdOf(k) == id ==> k == KeyAt(id, at[0]);
      if HasId(page, id) {
        assert KeyAt(id, at[0]) in page;
        LastIsLargest(page, KeyAt(id, at[0]));
        BehindStays(pages[1..], Move(after, page), id, at[1..]);
      } else {
        NoIdTwice(pages[1..], Move(after, page), id, at[1..]);
      }
      assert forall k :: k in Delivered(pages) <==> k in page || k in rest;
    }
  }

  lemma LastIsLargest(page: seq<Key>, k: Key)
    requires Ascending(page) && k in page
    ensures k == page[|page| - 1] || Below(k, page[|page| - 1])
  {
  }

  // ---------------------------------------------------------------- size and progress

  /** No page holds more than a hundred rows, nor more than were asked for. */
  lemma {:induction false} PagesAreBounded(pages: seq<Read>, after: Key, i: nat)
    requires Follows(pages, after) && i < |pages|
    ensures |pages[i].page| <= 100 && (pages[i].limit >= 1 ==> |pages[i].page| <= pages[i].limit)
    ensures pages[i].limit < 1 ==> |pages[i].page| <= 1
    decreases i
  {
    if i > 0 {
      PagesAreBounded(pages[1..], Move(after, pages[0].page), i - 1);
    }
  }

  lemma {:induction false} DeliveredSize(pages: seq<Read>)
    requires forall i :: 0 <= i < |pages| ==> pages[i].page != []
    ensures |Delivered(pages)| >= |pages|
  {
    if pages != [] {
      assert pages[0].page != [];
      assert forall i :: 0 <= i < |pages| - 1 ==> pages[1..][i] == pages[i + 1];
      DeliveredSize(pages[1..]);
    }
  }

  /** However small its pages, an export meets an empty page before it has read more pages than there are rows. */
  lemma ExportEnds(pages: seq<Read>, after: Key, rows: set<Key>)
    requires Follows(pages, after) && |pages| > |rows|
    requires forall i :: 0 <= i < |pages| ==> pages[i].table <= rows
    ensures exists i :: 0 <= i < |pages| && pages[i].page == []
  {
    if forall i :: 0 <= i < |pages| ==> pages[i].page != [] {
      NothingTwice(pages, after);
      DeliveredSize(pages);
      DistinctSize(Delivered(pages));
      forall k | k in Delivered(pages) ensures k in rows {
        NothingInvented(pages, after, k);
      }
      SubsetSize(Elements(Delivered(pages)), rows);
    }
  }
}
