/** Shared building blocks: an optional value and the row filters the storage queries are made of. */
module Common {

  /** A value that may be absent: `null`/`undefined` in the source, or `NaN` for a failed number parse. */
  datatype Option<T> = None | Some(value: T)

  /** The rows of `rows` that satisfy `p`, in their original order (a `.eq(...)` query). */
  function Filter<T(!new)>(rows: seq<T>, p: T -> bool): (r: seq<T>)
    ensures |r| <= |rows|
  {
    if rows == [] then []
    else
      var rest := Filter(rows[1..], p);
      if p(rows[0]) then [rows[0]] + rest else rest
  }

  /** A filter keeps exactly the rows that satisfy the condition, each no more often than the table holds it. */
  lemma {:induction false} FilterKeepsMatches<T(!new)>(rows: seq<T>, p: T -> bool)
    ensures forall x :: x in Filter(rows, p) <==> x in rows && p(x)
    ensures multiset(Filter(rows, p)) <= multiset(rows)
    ensures (forall x :: x in rows ==> !p(x)) ==> Filter(rows, p) == []
  {
    if rows != [] {
      FilterKeepsMatches(rows[1..], p);
      assert rows == [rows[0]] + rows[1..];
    }
  }

  /**
   * A query ending in `.single()`: it yields a row only when exactly one row
   * matched; zero or several matching rows give an error and no data.
   */
  function Single<T>(rows: seq<T>): (r: Option<T>)
  {
    if |rows| == 1 then Some(rows[0]) else None
  }

  /** No two distinct positions of `rows` both satisfy `p`. */
  ghost predicate AtMostOne<T>(rows: seq<T>, p: T -> bool)
  {
    forall i, j :: 0 <= i < j < |rows| && p(rows[i]) ==> !p(rows[j])
  }

  /** When at most one row satisfies `p`, a query for `p` finds exactly that row if it exists. */
  lemma {:induction false} SingleFindsUniqueRow<T(!new)>(rows: seq<T>, p: T -> bool, x: T)
    requires AtMostOne(rows, p)
    requires x in rows && p(x)
    ensures Single(Filter(rows, p)) == Some(x)
  {
    assert rows == [rows[0]] + rows[1..];
    FilterKeepsMatches(rows[1..], p);
    if rows[0] == x {
      forall y | y in rows[1..] ensures !p(y) {
        var j :| 0 <= j < |rows[1..]| && rows[1..][j] == y;
        assert rows[j + 1] == y;
      }
    } else {
      assert x in rows[1..];
      assert AtMostOne(rows[1..], p) by {
        forall i, j | 0 <= i < j < |rows[1..]| && p(rows[1..][i]) ensures !p(rows[1..][j]) {
          assert rows[1..][i] == rows[i + 1] && rows[1..][j] == rows[j + 1];
        }
      }
      SingleFindsUniqueRow(rows[1..], p, x);
      assert !p(rows[0]);
    }
  }
}
