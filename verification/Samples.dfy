/** Metric samples and the ordered lookups the metric service makes over them. */
module Samples {
  import opened Prelude

  /** One stored sample; ids grow in the order of insertion. */
  datatype Row = Row(id: nat, metric: string, value: real, at: int)

  /** Samples are ordered by time, and by id at equal times. */
  predicate Before(a: Row, b: Row) { a.at < b.at || (a.at == b.at && a.id < b.id) }

  predicate NotAfter(a: Row, b: Row) { a == b || Before(a, b) }

  ghost predicate DistinctIds(rows: seq<Row>) {
    forall i, j | 0 <= i < j < |rows| :: rows[i].id != rows[j].id
  }

  // ---- Lookups ----

  /** The WHERE clauses the service uses. */
  datatype Clause =
    | OfMetric(metric: string)
    | Spanning(metric: string, from: Option<int>, to: int)
    | ValueIsNot(value: real)
    | IsAfter(row: Row)
    | IsBefore(row: Row)

  predicate Keeps(c: Clause, r: Row) {
    match c
    case OfMetric(metric) => r.metric == metric
    case Spanning(metric, from, to) => r.metric == metric && (from.Some? ==> from.value <= r.at) && r.at <= to
    case ValueIsNot(value) => r.value != value
    case IsAfter(row) => Before(row, r)
    case IsBefore(row) => Before(r, row)
  }

  /** The rows that satisfy a clause, in table order. */
  function Where(rows: seq<Row>, keep: Clause): seq<Row>
    decreases |rows|
  {
    if rows == [] then []
    else
      var rest := Where(rows[..|rows| - 1], keep);
      if Keeps(keep, rows[|rows| - 1]) then rest + [rows[|rows| - 1]] else rest
  }

  /** The last row in the order of time and id. */
  function Latest(rows: seq<Row>): (r: Option<Row>)
    ensures r.None? <==> rows == []
    decreases |rows|
  {
    if rows == [] then None
    else
      var best := Latest(rows[..|rows| - 1]);
      var last := rows[|rows| - 1];
      if best.None? || Before(best.value, last) then Some(last) else best
  }

  /** The first row in that order. */
  function Earliest(rows: seq<Row>): (r: Option<Row>)
    ensures r.None? <==> rows == []
    decreases |rows|
  {
    if rows == [] then None
    else
      var best := Earliest(rows[..|rows| - 1]);
      var last := rows[|rows| - 1];
      if best.None? || Before(last, best.value) then Some(last) else best
  }

  /** The last k rows in that order, last first. */
  function Newest(rows: seq<Row>, k: nat): seq<Row>
    decreases k
  {
    if k == 0 || rows == [] then []
    else [Latest(rows).value] + Newest(Where(rows, IsBefore(Latest(rows).value)), k - 1)
  }

  /** The row the two stall lookups arrive at: the latest change, then the earliest row after it. */
  function FirstUnchanged(rows: seq<Row>): Option<Row> {
    if rows == [] then None
    else
      var changed := Latest(Where(rows, ValueIsNot(Latest(rows).value.value)));
      Earliest(if changed.Some? then Where(rows, IsAfter(changed.value)) else rows)
  }

  // ---- What the lookups find ----

  lemma {:induction false} WhereHas(rows: seq<Row>, keep: Clause, x: Row)
    ensures x in Where(rows, keep) <==> x in rows && Keeps(keep, x)
    decreases |rows|
  {
    if rows != [] {
      WhereHas(rows[..|rows| - 1], keep, x);
      assert rows == rows[..|rows| - 1] + [rows[|rows| - 1]];
    }
  }

  lemma {:induction false} WhereDistinct(rows: seq<Row>, keep: Clause)
    requires DistinctIds(rows)
    ensures DistinctIds(Where(rows, keep))
    decreases |rows|
  {
    if rows != [] {
      var init := rows[..|rows| - 1];
      WhereDistinct(init, keep);
      var rest := Where(init, keep);
      forall i | 0 <= i < |rest| ensures rest[i].id != rows[|rows| - 1].id {
        WhereHas(init, keep, rest[i]);
        OtherId(rows, rest[i]);
      }
    }
  }

  lemma {:induction false} OtherId(rows: seq<Row>, r: Row)
    requires rows != [] && DistinctIds(rows) && r in rows[..|rows| - 1]
    ensures r.id != rows[|rows| - 1].id
  {
    var i :| 0 <= i < |rows| - 1 && rows[i] == r;
  }

  /** Latest is the greatest row. */
  lemma {:induction false} LatestIsGreatest(rows: seq<Row>, r: Row)
    requires DistinctIds(rows) && r in rows
    ensures Latest(rows).value in rows && NotAfter(r, Latest(rows).value)
    decreases |rows|
  {
    var init := rows[..|rows| - 1];
    var last := rows[|rows| - 1];
    if init != [] {
      LatestIsGreatest(init, if r in init then r else init[0]);
      OtherId(rows, Latest(init).value);
    }
  }

  /** Earliest is the least row. */
  lemma {:induction false} EarliestIsLeast(rows: seq<Row>, r: Row)
    requires DistinctIds(rows) && r in rows
    ensures Earliest(rows).value in rows && NotAfter(Earliest(rows).value, r)
    decreases |rows|
  {
    var init := rows[..|rows| - 1];
    if init != [] {
      EarliestIsLeast(init, if r in init then r else init[0]);
      OtherId(rows, Earliest(init).value);
    }
  }

  // ---- The simple scan over a sorted listing ----

  /** Insert into an ascending list. */
  function InsertSample(sorted: seq<Row>, r: Row): seq<Row>
    decreases |sorted|
  {
    if sorted == [] || Before(sorted[|sorted| - 1], r) then sorted + [r]
    else InsertSample(sorted[..|sorted| - 1], r) + [sorted[|sorted| - 1]]
  }

  /** All rows in ascending order. */
  function Ascending(rows: seq<Row>): seq<Row>
    decreases |rows|
  {
    if rows == [] then [] else InsertSample(Ascending(rows[..|rows| - 1]), rows[|rows| - 1])
  }

  /** Walk back from the end while the value stays the same. */
  function RunStart(s: seq<Row>, value: real): (k: nat)
    ensures k <= |s| && (forall i | k <= i < |s| :: s[i].value == value) && (k > 0 ==> s[k - 1].value != value)
    decreases |s|
  {
    if s == [] || s[|s| - 1].value != value then |s| else RunStart(s[..|s| - 1], value)
  }

  /** The last k entries of a listing, last first. */
  function Backwards(s: seq<Row>, k: nat): seq<Row>
    decreases k
  {
    if k == 0 || s == [] then [] else [s[|s| - 1]] + Backwards(s[..|s| - 1], k - 1)
  }

  ghost predicate InTimeOrder(s: seq<Row>) { forall i, j | 0 <= i < j < |s| :: Before(s[i], s[j]) }

  /** `s` lists exactly the given rows, in order. */
  ghost predicate Lists(
      s: seq<Row>, rows: seq<Row>) { InTimeOrder(s) && Elements(s) == Elements(rows) && DistinctIds(rows) }

  lemma {:induction false} ListedAt(s: seq<Row>, rows: seq<Row>, x: Row) returns (i: nat)
    requires Lists(s, rows) && x in rows
    ensures i < |s| && s[i] == x
  {
    assert x in Elements(s);
    i :| 0 <= i < |s| && s[i] == x;
  }

  lemma {:induction false} IsListed(s: seq<Row>, rows: seq<Row>, i: nat)
    requires Lists(s, rows) && i < |s|
    ensures s[i] in rows
  {
    assert s[i] in Elements(s);
  }

  lemma {:induction false} InsertHas(s: seq<Row>, r: Row)
    ensures Elements(InsertSample(s, r)) == Elements(s) + {r}
    decreases |s|
  {
    if s == [] || Before(s[|s| - 1], r) {
      ElementsSnoc(s, r);
    } else {
      var init, last := s[..|s| - 1], s[|s| - 1];
      assert s == init + [last];
      InsertHas(init, r);
      ElementsSnoc(InsertSample(init, r), last);
      ElementsSnoc(init, last);
    }
  }

  lemma {:induction false} InsertKeepsTimeOrder(s: seq<Row>, r: Row)
    requires InTimeOrder(s) && forall i | 0 <= i < |s| :: s[i].id != r.id
    ensures InTimeOrder(InsertSample(s, r))
    decreases |s|
  {
    if s != [] && !Before(s[|s| - 1], r) {
      var init, last := s[..|s| - 1], s[|s| - 1];
      InsertKeepsTimeOrder(init, r);
      InsertHas(init, r);
      var out := InsertSample(init, r);
      forall i | 0 <= i < |out| ensures Before(out[i], last) {
        assert out[i] in Elements(out);
        if out[i] != r {
          var j :| 0 <= j < |init| && init[j] == out[i];
          assert Before(s[j], s[|s| - 1]);
        }
      }
    }
  }

  lemma {:induction false} AscendingLists(rows: seq<Row>)
    requires DistinctIds(rows)
    ensures Lists(Ascending(rows), rows)
    decreases |rows|
  {
    if rows != [] {
      var init, last := rows[..|rows| - 1], rows[|rows| - 1];
      assert rows == init + [last];
      AscendingLists(init);
      var s := Ascending(init);
      forall i | 0 <= i < |s| ensures s[i].id != last.id {
        IsListed(s, init, i);
        OtherId(rows, s[i]);
      }
      InsertKeepsTimeOrder(s, last);
      InsertHas(s, last);
      ElementsSnoc(init, last);
    }
  }

  /** The last row of a listing is the latest. */
  lemma {:induction false} LastIsLatest(rows: seq<Row>, s: seq<Row>)
    requires Lists(s, rows) && rows != []
    ensures s != [] && s[|s| - 1] == Latest(rows).value
  {
    var first := ListedAt(s, rows, rows[0]);
    IsListed(s, rows, |s| - 1);
    LatestIsGreatest(rows, s[|s| - 1]);
    var c := ListedAt(s, rows, Latest(rows).value);
  }

  /** The rows before a position of a listing are listed by the part before it. */
  lemma {:induction false} EarlierThanLastIsInit(rows: seq<Row>, s: seq<Row>)
    requires Lists(s, rows) && s != []
    ensures Lists(s[..|s| - 1], Where(rows, IsBefore(s[|s| - 1])))
  {
    var n := |s| - 1;
    var rest := Where(rows, IsBefore(s[n]));
    WhereDistinct(rows, IsBefore(s[n]));
    forall x ensures x in Elements(s[..n]) <==> x in Elements(rest) {
      WhereHas(rows, IsBefore(s[n]), x);
      if x in rest {
        var i := ListedAt(s, rows, x);
        assert s[..n][i] == x;
      }
      if x in s[..n] {
        var i :| 0 <= i < n && s[..n][i] == x;
        IsListed(s, rows, i);
      }
    }
  }

  /** The newest k rows are the end of any ascending listing, read backwards. */
  lemma {:induction false} NewestReadsBackwards(rows: seq<Row>, s: seq<Row>, k: nat)
    requires Lists(s, rows)
    ensures Newest(rows, k) == Backwards(s, k)
    decreases k
  {
    assert s != [] ==> s[0] in Elements(s);
    if rows == [] {
      assert Elements(rows) == {};
    } else if k > 0 {
      LastIsLatest(rows, s);
      EarlierThanLastIsInit(rows, s);
      NewestReadsBackwards(Where(rows, IsBefore(s[|s| - 1])), s[..|s| - 1], k - 1);
    }
  }

  /** The first stall lookup finds the row just before the final run, if there is one. */
  lemma {:induction false} LatestChangeEndsBeforeRun(rows: seq<Row>, s: seq<Row>, value: real)
    requires Lists(s, rows)
    ensures var k := RunStart(s, value);
            Latest(Where(rows, ValueIsNot(value))) == if k > 0 then Some(s[k - 1]) else None
  {
    var k := RunStart(s, value);
    var others := Where(rows, ValueIsNot(value));
    WhereDistinct(rows, ValueIsNot(value));
    if k > 0 {
      IsListed(s, rows, k - 1);
      WhereHas(rows, ValueIsNot(value), s[k - 1]);
      LatestIsGreatest(others, s[k - 1]);
      WhereHas(rows, ValueIsNot(value), Latest(others).value);
      var c := ListedAt(s, rows, Latest(others).value);
    } else if others != [] {
      WhereHas(rows, ValueIsNot(value), others[0]);
      var c := ListedAt(s, rows, others[0]);
      assert false;
    }
  }

  /** The second lookup finds the row just after position `k - 1`. */
  lemma {:induction false} EarliestAfter(rows: seq<Row>, s: seq<Row>, k: nat)
    requires Lists(s, rows) && k < |s|
    ensures Earliest(if k > 0 then Where(rows, IsAfter(s[k - 1])) else rows) == Some(s[k])
  {
    var tail := if k > 0 then Where(rows, IsAfter(s[k - 1])) else rows;
    IsListed(s, rows, k);
    if k > 0 {
      WhereDistinct(rows, IsAfter(s[k - 1]));
      WhereHas(rows, IsAfter(s[k - 1]), s[k]);
    }
    EarliestIsLeast(tail, s[k]);
    var first := Earliest(tail).value;
    if k > 0 { WhereHas(rows, IsAfter(s[k - 1]), first); }
    var e := ListedAt(s, rows, first);
    assert k < e ==> Before(s[k], s[e]);
  }

  /**
   * The two ordered lookups agree with the scan: they find the first row of the maximal run of equal values that
   * ends at the latest row.
   */
  lemma {:induction false} LookupsFindRunStart(rows: seq<Row>)
    requires DistinctIds(rows) && rows != []
    ensures var s := Ascending(rows);
            var k := RunStart(s, Latest(rows).value.value);
            k < |s| && FirstUnchanged(rows) == Some(s[k])
  {
    var s := Ascending(rows);
    var value := Latest(rows).value.value;
    AscendingLists(rows);
    LastIsLatest(rows, s);
    LatestChangeEndsBeforeRun(rows, s, value);
    EarliestAfter(rows, s, RunStart(s, value));
  }
}
