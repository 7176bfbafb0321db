/**
 * Tables: an in-memory stand-in for a relational table, keyed by integer
 * primary key. `Select` is a `SELECT ... WHERE p ORDER BY id` over the ids
 * in a half-open range; every repository and the order endpoints use it
 * for their list queries.
 */
module Tables {

  /** The ids of the rows in `[lo, hi)` whose record satisfies `p`, ascending. */
  function Select<R>(rows: map<int, R>, p: R -> bool, lo: int, hi: int): (ids: seq<int>)
    ensures forall i | 0 <= i < |ids| :: ids[i] in rows && lo <= ids[i] < hi && p(rows[ids[i]])
    ensures forall i, j | 0 <= i < j < |ids| :: ids[i] < ids[j]
    decreases hi - lo
  {
    if lo >= hi then []
    else if lo in rows && p(rows[lo]) then [lo] + Select(rows, p, lo + 1, hi)
    else Select(rows, p, lo + 1, hi)
  }

  /** Every row in range that satisfies the filter is selected. */
  lemma {:induction false} SelectComplete<R>(rows: map<int, R>, p: R -> bool, lo: int, hi: int, k: int)
    requires k in rows && lo <= k < hi && p(rows[k])
    ensures k in Select(rows, p, lo, hi)
    decreases hi - lo
  {
    if lo < k {
      SelectComplete(rows, p, lo + 1, hi, k);
    }
  }

  /** Membership in a selection, both directions. */
  lemma SelectMembership<R>(rows: map<int, R>, p: R -> bool, lo: int, hi: int, k: int)
    ensures k in Select(rows, p, lo, hi) <==> k in rows && lo <= k < hi && p(rows[k])
  {
    if k in rows && lo <= k < hi && p(rows[k]) {
      SelectComplete(rows, p, lo, hi, k);
    }
  }

  /** Every key of the table is the key its record carries (a primary-key column). */
  ghost predicate Keyed<R>(rows: map<int, R>, key: R -> int) {
    forall k | k in rows :: key(rows[k]) == k
  }

  /** The records of a list of ids, in list order. */
  function Fetch<R>(rows: map<int, R>, ids: seq<int>): (r: seq<R>)
    requires forall i | 0 <= i < |ids| :: ids[i] in rows
    ensures |r| == |ids| && forall i | 0 <= i < |ids| :: r[i] == rows[ids[i]]
  {
    seq(|ids|, i requires 0 <= i < |ids| => rows[ids[i]])
  }

  /** `SELECT * WHERE p ORDER BY id` restricted to ids in `[lo, hi)`. */
  function Query<R>(rows: map<int, R>, p: R -> bool, lo: int, hi: int): seq<R> {
    Fetch(rows, Select(rows, p, lo, hi))
  }

  /** A query returns exactly the stored records that satisfy the filter, each once,
      by ascending key. */
  lemma QueryExact<R>(rows: map<int, R>, key: R -> int, p: R -> bool, lo: int, hi: int)
    requires Keyed(rows, key)
    ensures forall i | 0 <= i < |Query(rows, p, lo, hi)| ::
      var x := Query(rows, p, lo, hi)[i];
      key(x) in rows && rows[key(x)] == x && lo <= key(x) < hi && p(x)
    ensures forall i, j | 0 <= i < j < |Query(rows, p, lo, hi)| ::
      key(Query(rows, p, lo, hi)[i]) < key(Query(rows, p, lo, hi)[j])
    ensures forall k | k in rows && lo <= k < hi && p(rows[k]) ::
      exists i :: 0 <= i < |Query(rows, p, lo, hi)| && key(Query(rows, p, lo, hi)[i]) == k
  {
    var ids := Select(rows, p, lo, hi);
    var r := Query(rows, p, lo, hi);
    forall i | 0 <= i < |r| ensures key(r[i]) == ids[i] {
      var k := ids[i];
      assert r[i] == rows[k];
    }
    forall k | k in rows && lo <= k < hi && p(rows[k]) ensures exists i :: 0 <= i < |r| && key(r[i]) == k {
      SelectComplete(rows, p, lo, hi, k);
      var i :| 0 <= i < |ids| && ids[i] == k;
      assert key(r[i]) == k;
    }
  }
}
