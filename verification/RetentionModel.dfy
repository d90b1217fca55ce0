/**
 * Bounded retention: keep the newest N rows of a class under (timestamp, identifier) order.
 * The direct form compares rows with the N-th newest; the indexed form finds the N-th newest
 * timestamp first and ranks identifiers only among its ties.
 */
module RetentionModel {
  import opened Common

  /** `removable` is the class predicate: a trade event, or a decision that is not an entry. */
  datatype Row = Row(stamp: int, id: int, removable: bool)

  predicate Less(a: Row, b: Row) {
    a.stamp < b.stamp || (a.stamp == b.stamp && a.id < b.id)
  }

  predicate UniqueIds(rows: set<Row>) {
    forall a, b :: a in rows && b in rows && a.id == b.id ==> a == b
  }

  function Eligible(table: set<Row>): set<Row> {
    set r | r in table && r.removable
  }

  function Newer(r: Row, rows: set<Row>): set<Row> {
    set x | x in rows && Less(r, x)
  }

  /** Position from the newest, starting at zero. */
  function Rank(r: Row, rows: set<Row>): nat {
    |Newer(r, rows)|
  }

  /** The rows that are not among the newest `n`. */
  function Surplus(rows: set<Row>, n: nat): set<Row> {
    set r | r in rows && Rank(r, rows) >= n
  }

  // ---------------------------------------------------------------- ranks

  lemma RankOrder(rows: set<Row>, a: Row, b: Row)
    requires UniqueIds(rows) && a in rows && b in rows
    ensures Less(a, b) <==> Rank(a, rows) > Rank(b, rows)
  {
    if Less(a, b) {
      RankFalls(rows, a, b);
    } else if Less(b, a) {
      RankFalls(rows, b, a);
    } else {
      assert a == b;
    }
  }

  lemma RankFalls(rows: set<Row>, a: Row, b: Row)
    requires a in rows && b in rows && Less(a, b)
    ensures Rank(a, rows) > Rank(b, rows)
  {
    assert b !in Newer(b, rows) && Newer(b, rows) + {b} <= Newer(a, rows);
    SubsetSize(Newer(b, rows) + {b}, Newer(a, rows));
  }

  lemma RankGrows(r: Row, small: set<Row>, large: set<Row>)
    requires small <= large
    ensures Rank(r, small) <= Rank(r, large)
  {
    assert Newer(r, small) <= Newer(r, large);
    SubsetSize(Newer(r, small), Newer(r, large));
  }

  lemma {:induction false} NewestExists(rows: set<Row>)
    requires rows != {} && UniqueIds(rows)
    ensures exists m :: m in rows && Newer(m, rows) == {}
  {
    var r := Pick(rows);
    var others := rows - {r};
    if others == {} {
      assert Newer(r, rows) == {};
    } else {
      NewestExists(others);
      var m :| m in others && Newer(m, others) == {};
      assert rows == others + {r};
      assert forall x :: x in others ==> x !in Newer(m, others);
      var top := if Less(m, r) then r else m;
      assert Newer(top, rows) == {};
    }
  }

  /** Every rank below the number of rows is taken. */
  lemma {:induction false} RankExists(rows: set<Row>, k: nat)
    requires UniqueIds(rows) && k < |rows|
    ensures exists b :: b in rows && Rank(b, rows) == k
  {
    NewestExists(rows);
    var m :| m in rows && Newer(m, rows) == {};
    if k == 0 {
      assert Rank(m, rows) == 0;
    } else {
      var others := rows - {m};
      RankExists(others, k - 1);
      var b :| b in others && Rank(b, others) == k - 1;
      assert b !in Newer(m, rows) && m.id != b.id;
      assert Newer(b, rows) == Newer(b, others) + {m};
      assert Rank(b, rows) == k;
    }
  }

  /** With more than `n` rows exactly the excess is surplus; otherwise nothing is. */
  lemma SurplusSize(rows: set<Row>, n: nat)
    requires UniqueIds(rows)
    ensures |Surplus(rows, n)| == if |rows| > n then |rows| - n else 0
  {
    if |rows| > n {
      RankExists(rows, n);
      var b :| b in rows && Rank(b, rows) == n;
      forall r | r in rows ensures r in Surplus(rows, n) <==> r !in Newer(b, rows) {
        RankOrder(rows, r, b);
        RankOrder(rows, b, r);
      }
      assert rows == Newer(b, rows) + Surplus(rows, n);
      DisjointUnionSize(Newer(b, rows), Surplus(rows, n));
    } else {
      forall r | r in rows ensures r !in Surplus(rows, n) {
        assert Newer(r, rows) <= rows - {r};
        SubsetSize(Newer(r, rows), rows - {r});
      }
      assert Surplus(rows, n) == {};
    }
  }

  // ---------------------------------------------------------------- the direct form

  predicate AtRank(rows: set<Row>, k: nat, b: Row) {
    b in rows && Rank(b, rows) == k
  }

  /** Rows strictly below the N-th newest; none when there is no such row. */
  ghost function BelowNth(rows: set<Row>, n: nat): set<Row>
    requires n > 0
  {
    set r | r in rows && exists b :: AtRank(rows, n - 1, b) && Less(r, b)
  }

  lemma DirectForm(rows: set<Row>, n: nat)
    requires UniqueIds(rows) && n > 0
    ensures BelowNth(rows, n) == Surplus(rows, n)
  {
    forall r, b | r in rows && AtRank(rows, n - 1, b) ensures Less(r, b) <==> Rank(r, rows) >= n {
      RankOrder(rows, r, b);
    }
    if |rows| >= n {
      RankExists(rows, n - 1);
      var b :| b in rows && Rank(b, rows) == n - 1;
      assert AtRank(rows, n - 1, b);
      forall r | r in rows ensures r in BelowNth(rows, n) <==> r in Surplus(rows, n) {
        assert Less(r, b) <==> Rank(r, rows) >= n;
      }
    } else {
      SurplusSize(rows, n);
      assert forall b :: b in rows ==> b !in Surplus(rows, n);
    }
  }

  // ---------------------------------------------------------------- the indexed form

  /** A listing of all the rows, each once, newest timestamp first; ties in any order. */
  predicate ListsByStamp(q: seq<Row>, rows: set<Row>) {
    Distinct(q) && Elements(q) == rows && forall i, j :: 0 <= i < j < |q| ==> q[i].stamp >= q[j].stamp
  }

  /** A listing of rows sharing a timestamp, largest identifier first. */
  predicate ListsById(p: seq<Row>, rows: set<Row>) {
    Distinct(p) && Elements(p) == rows && forall i, j :: 0 <= i < j < |p| ==> p[i].id > p[j].id
  }

  function After(rows: set<Row>, stamp: int): set<Row> {
    set r | r in rows && r.stamp > stamp
  }

  function Ties(rows: set<Row>, stamp: int): set<Row> {
    set r | r in rows && r.stamp == stamp
  }

  /** The rows older than the boundary time, or tied with it and below the boundary row. */
  function BelowBoundary(rows: set<Row>, stamp: int, boundary: Row): set<Row> {
    set r | r in rows && r.stamp <= stamp && (r.stamp < stamp || r.id < boundary.id)
  }

  /** The tie offset always names one of the ties. */
  lemma OffsetInRange(rows: set<Row>, q: seq<Row>, n: nat)
    requires ListsByStamp(q, rows) && 0 < n <= |q|
    ensures var stamp := q[n - 1].stamp;
            |After(rows, stamp)| <= n - 1 < |After(rows, stamp)| + |Ties(rows, stamp)|
  {
    var stamp := q[n - 1].stamp;
    var after, ties := After(rows, stamp), Ties(rows, stamp);
    forall r | r in after ensures r in Elements(q[..n - 1]) {
      var i :| 0 <= i < |q| && q[i] == r;
      assert i < n - 1;
      assert q[..n - 1][i] == r;
    }
    DistinctSize(q[..n - 1]);
    SubsetSize(after, Elements(q[..n - 1]));
    forall r | r in Elements(q[..n]) ensures r in after + ties {
      var i :| 0 <= i < n && q[..n][i] == r;
      assert q[i] in Elements(q) && q[i].stamp >= stamp;
    }
    DistinctSize(q[..n]);
    SubsetSize(Elements(q[..n]), after + ties);
    DisjointUnionSize(after, ties);
  }

  /** The row found through the ties is the N-th newest of all. */
  lemma BoundaryIsNth(rows: set<Row>, stamp: int, p: seq<Row>, k: nat)
    requires ListsById(p, Ties(rows, stamp)) && k < |p|
    ensures AtRank(rows, |After(rows, stamp)| + k, p[k])
  {
    var b := p[k];
    assert b in Elements(p);
    var ahead := Elements(p[..k]);
    forall r | r in ahead ensures r in Ties(rows, stamp) {
      var j :| 0 <= j < k && p[..k][j] == r;
      assert p[j] in Elements(p);
    }
    forall r | r in rows ensures r in Newer(b, rows) <==> r in After(rows, stamp) + ahead {
      if r.stamp == stamp {
        assert r in Elements(p);
        var i :| 0 <= i < |p| && p[i] == r;
        assert i < k ==> p[..k][i] == r;
        if r in ahead {
          var j :| 0 <= j < k && p[..k][j] == r;
          assert p[j] == r;
        }
      }
    }
    assert Newer(b, rows) == After(rows, stamp) + ahead;
    DisjointUnionSize(After(rows, stamp), ahead);
    DistinctSize(p[..k]);
  }

  /** The indexed form selects exactly the rows below the N-th newest, ties included. */
  lemma IndexedForm(rows: set<Row>, n: nat, q: seq<Row>, p: seq<Row>)
    requires UniqueIds(rows) && 0 < n <= |q| && ListsByStamp(q, rows)
    requires ListsById(p, Ties(rows, q[n - 1].stamp))
    ensures var k := n - 1 - |After(rows, q[n - 1].stamp)|;
            && 0 <= k < |p|
            && BelowBoundary(rows, q[n - 1].stamp, p[k]) == BelowNth(rows, n) == Surplus(rows, n)
  {
    var stamp := q[n - 1].stamp;
    OffsetInRange(rows, q, n);
    DistinctSize(p);
    var k := n - 1 - |After(rows, stamp)|;
    BoundaryIsNth(rows, stamp, p, k);
    DirectForm(rows, n);
    var b := p[k];
    assert b in Elements(p);
    forall r | r in rows ensures r in BelowBoundary(rows, stamp, b) <==> r in Surplus(rows, n) {
      RankOrder(rows, r, b);
    }
  }

  /** Fewer than N rows: no boundary time exists and nothing is selected. */
  lemma TooFewRows(rows: set<Row>, n: nat)
    requires UniqueIds(rows) && 0 < n && |rows| < n
    ensures BelowNth(rows, n) == Surplus(rows, n) == {}
  {
    DirectForm(rows, n);
    SurplusSize(rows, n);
  }

  // ---------------------------------------------------------------- what a pass keeps

  /** One chunk: the oldest `limit` of the candidate rows. */
  predicate IsChunk(candidates: set<Row>, limit: nat, chunk: set<Row>) {
    && chunk <= candidates && |chunk| == Min(limit, |candidates|)
    && forall c, r :: c in chunk && r in candidates - chunk ==> Less(c, r)
  }

  /**
   * `ever` is every row that was present at some time of the pass. A row outside the class, or
   * among the newest `n` of its class over the whole pass, is still in the table.
   */
  predicate Kept(table: set<Row>, ever: set<Row>, n: nat) {
    table <= ever && forall r :: r in ever && (!r.removable || Rank(r, Eligible(ever)) < n) ==> r in table
  }

  lemma InsertKeeps(table: set<Row>, ever: set<Row>, n: nat, arrived: set<Row>)
    requires Kept(table, ever, n)
    ensures Kept(table + arrived, ever + arrived, n)
  {
    forall r | r in ever + arrived && (!r.removable || Rank(r, Eligible(ever + arrived)) < n)
      ensures r in table + arrived
    {
      RankGrows(r, Eligible(ever), Eligible(ever + arrived));
    }
  }

  lemma DeleteKeeps(table: set<Row>, ever: set<Row>, n: nat, chunk: set<Row>)
    requires Kept(table, ever, n) && chunk <= Surplus(Eligible(table), n)
    ensures Kept(table - chunk, ever, n)
  {
    forall r | r in chunk ensures r.removable && Rank(r, Eligible(ever)) >= n {
      assert r in Surplus(Eligible(table), n);
      RankGrows(r, Eligible(table), Eligible(ever));
    }
  }
}
