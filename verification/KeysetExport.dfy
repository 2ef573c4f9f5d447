/** Keyset pagination, newest first, and the two export loops built on it: each returns the
    first rows of the whole ordered result, without repeating or skipping one. */
module KeysetExport {
  import opened Options

  /** A row of the table; `matching` is the verdict of the request's filters on it. */
  datatype Row = Row(at: int, id: int, matching: bool)

  datatype Cursor = Cursor(at: int, id: int)

  const AUDIT_PAGE: nat := 200
  const AUDIT_MAX: nat := 10_000
  const FLOW_PAGE: nat := 500
  const FLOW_MAX: nat := 50_000

  predicate UniqueIds(table: seq<Row>) {
    forall i, j :: 0 <= i < j < |table| ==> table[i].id != table[j].id
  }

  /** Older than the cursor, or as old with a lower id. */
  predicate Before(r: Row, c: Cursor) {
    r.at < c.at || (r.at == c.at && r.id < c.id)
  }

  predicate Newer(x: Row, y: Row) {
    Before(y, Cursor(x.at, x.id))
  }

  predicate Selected(r: Row, cursor: Option<Cursor>) {
    r.matching && (cursor.Some? ==> Before(r, cursor.value))
  }

  // ----- one query -----

  function Insert(sorted: seq<Row>, r: Row): (out: seq<Row>)
    ensures |out| == |sorted| + 1
    ensures forall x :: x in out <==> x == r || x in sorted
  {
    if sorted == [] then [r]
    else if Newer(r, sorted[0]) then [r] + sorted
    else [sorted[0]] + Insert(sorted[1..], r)
  }

  /** The selected rows, newest first and by descending id within a second. */
  function Ordered(table: seq<Row>, cursor: Option<Cursor>): (out: seq<Row>)
    ensures forall x :: x in out <==> x in table && Selected(x, cursor)
  {
    if table == [] then []
    else if Selected(table[0], cursor) then Insert(Ordered(table[1..], cursor), table[0])
    else Ordered(table[1..], cursor)
  }

  function Take(rows: seq<Row>, n: nat): seq<Row> {
    if |rows| <= n then rows else rows[..n]
  }

  predicate Descending(rows: seq<Row>) {
    forall i, j :: 0 <= i < j < |rows| ==> Newer(rows[i], rows[j])
  }

  lemma {:induction false} InsertKeepsOrder(sorted: seq<Row>, r: Row)
    requires Descending(sorted) && forall x :: x in sorted ==> x.id != r.id
    ensures Descending(Insert(sorted, r))
  {
    if sorted != [] && !Newer(r, sorted[0]) {
      var rest := sorted[1..];
      assert forall i, j :: 0 <= i < j < |rest| ==> rest[i] == sorted[i + 1] && rest[j] == sorted[j + 1];
      InsertKeepsOrder(rest, r);
      var out := Insert(rest, r);
      forall j | 0 <= j < |out| ensures Newer(sorted[0], out[j]) {
        assert out[j] in out;
        if out[j] != r {
          assert out[j] in rest;
          var k :| 0 <= k < |rest| && rest[k] == out[j];
          assert Newer(sorted[0], sorted[k + 1]);
        }
      }
    }
  }

  lemma {:induction false} OrderedIsDescending(table: seq<Row>, cursor: Option<Cursor>)
    requires UniqueIds(table)
    ensures Descending(Ordered(table, cursor))
  {
    if table != [] {
      var rest := table[1..];
      assert forall i, j :: 0 <= i < j < |rest| ==> rest[i] == table[i + 1] && rest[j] == table[j + 1];
      OrderedIsDescending(rest, cursor);
      forall x | x in Ordered(rest, cursor) ensures x.id != table[0].id {
        var k :| 0 <= k < |rest| && rest[k] == x;
        assert table[k + 1] == x;
      }
      if Selected(table[0], cursor) { InsertKeepsOrder(Ordered(rest, cursor), table[0]); }
    }
  }

  lemma {:induction false} SomeMember(y: seq<Row>)
    ensures y != [] ==> exists r :: r in y
  {
    if y != [] { assert y[0] in y; }
  }

  /** Descending lists with the same rows are the same list. */
  lemma {:induction false} DescendingIsUnique(x: seq<Row>, y: seq<Row>)
    requires Descending(x) && Descending(y) && forall r :: r in x <==> r in y
    ensures x == y
  {
    if x == [] {
      SomeMember(y);
    } else {
      assert x[0] in y && y != [];
      assert y[0] in x;
      HeadIsNewest(x, y[0]);
      HeadIsNewest(y, x[0]);
      var xs, ys := x[1..], y[1..];
      forall r ensures r in xs <==> r in ys {
        TailMembers(x, r);
        TailMembers(y, r);
      }
      assert Descending(xs) by { assert forall i :: 0 <= i < |xs| ==> xs[i] == x[i + 1]; }
      assert Descending(ys) by { assert forall i :: 0 <= i < |ys| ==> ys[i] == y[i + 1]; }
      DescendingIsUnique(xs, ys);
      assert x == [x[0]] + xs && y == [y[0]] + ys;
    }
  }

  lemma HeadIsNewest(x: seq<Row>, r: Row)
    requires Descending(x) && r in x
    ensures r == x[0] || Newer(x[0], r)
  {
    var i :| 0 <= i < |x| && x[i] == r;
    if i > 0 { assert Newer(x[0], x[i]); }
  }

  lemma TailMembers(x: seq<Row>, r: Row)
    requires Descending(x) && x != []
    ensures r in x[1..] <==> r in x && r != x[0]
  {
    if r in x[1..] {
      var i :| 0 <= i < |x[1..]| && x[1..][i] == r;
      assert Newer(x[0], x[i + 1]);
    }
  }

  /** After the cursor of the last row of a page come exactly the rows not yet paged. */
  lemma NextPage(table: seq<Row>, n: nat)
    requires UniqueIds(table) && 0 < n <= |Ordered(table, None)|
    ensures var all := Ordered(table, None);
            Ordered(table, Some(Cursor(all[n - 1].at, all[n - 1].id))) == all[n..]
  {
    var all := Ordered(table, None);
    var c := Cursor(all[n - 1].at, all[n - 1].id);
    OrderedIsDescending(table, None);
    OrderedIsDescending(table, Some(c));
    var rest := all[n..];
    assert Descending(rest) by { assert forall i :: 0 <= i < |rest| ==> rest[i] == all[n + i]; }
    forall r ensures r in Ordered(table, Some(c)) <==> r in rest {
      if r in rest {
        var i :| 0 <= i < |rest| && rest[i] == r;
        assert Newer(all[n - 1], all[n + i]);
      }
      if r in all && Before(r, c) {
        var i :| 0 <= i < |all| && all[i] == r;
        assert forall k :: 0 <= k < n - 1 ==> Newer(all[k], all[n - 1]);
        assert rest[i - n] == r;
      }
    }
    DescendingIsUnique(Ordered(table, Some(c)), rest);
  }

  /** The cursor after `n` rows of the whole result. */
  ghost predicate At(table: seq<Row>, cursor: Option<Cursor>, n: nat) {
    n <= |Ordered(table, None)| && Ordered(table, cursor) == Ordered(table, None)[n..]
  }

  lemma AtNext(table: seq<Row>, n: nat)
    requires UniqueIds(table) && 0 < n <= |Ordered(table, None)|
    ensures At(table, Some(Cursor(Ordered(table, None)[n - 1].at, Ordered(table, None)[n - 1].id)), n)
  {
    NextPage(table, n);
  }

  // ----- the audit export -----

  /** `collect_export`: pages of `page` rows until one is short or more than `max` were read. */
  method CollectAudit(table: seq<Row>, page: nat, max: nat) returns (events: seq<Row>, truncated: bool)
    requires UniqueIds(table) && page > 0
    ensures events == Take(Ordered(table, None), max)
    ensures truncated <==> |Ordered(table, None)| > max
  {
    ghost var all := Ordered(table, None);
    events := [];
    var cursor: Option<Cursor> := None;
    while true
      invariant |events| <= |all| && events == all[..|events|] && |events| <= max
      invariant At(table, cursor, |events|)
      decreases |all| - |events|
    {
      var rows := Take(Ordered(table, cursor), page);
      var full := |rows| == page;
      ghost var done := |events|;
      assert rows == all[done..][..|rows|] && events + rows == all[..done + |rows|];
      if rows != [] {
        var last := rows[|rows| - 1];
        cursor := Some(Cursor(last.at, last.id));
        assert last == all[done + |rows| - 1];
        AtNext(table, done + |rows|);
      }
      events := events + rows;
      if |events| > max {
        return events[..max], true;
      }
      if !full {
        return events, false;
      }
    }
  }

  /** The audit export: at most ten thousand rows. */
  method ExportAudit(table: seq<Row>) returns (events: seq<Row>, truncated: bool)
    requires UniqueIds(table)
    ensures events == Take(Ordered(table, None), AUDIT_MAX)
    ensures truncated <==> |Ordered(table, None)| > AUDIT_MAX
  {
    events, truncated := CollectAudit(table, AUDIT_PAGE, AUDIT_MAX);
  }

  // ----- the flow event export -----

  /** `load_events`: one row more than the page is read to know whether another page follows. */
  method LoadEvents(table: seq<Row>, cursor: Option<Cursor>, limit: nat)
    returns (events: seq<Row>, next: Option<Cursor>)
    requires limit > 0
    ensures events == Take(Ordered(table, cursor), limit)
    ensures next.Some? <==> |Ordered(table, cursor)| > limit
    ensures next.Some? ==> |events| == limit && next.value == Cursor(events[limit - 1].at, events[limit - 1].id)
  {
    events := Take(Ordered(table, cursor), limit + 1);
    next := None;
    if |events| > limit {
      events := events[..limit];
      next := Some(Cursor(events[limit - 1].at, events[limit - 1].id));
    }
  }

  /** Whole pages are kept, so a limit that is not a multiple of the page is rounded up. */
  function RoundUp(max: nat, page: nat): (r: nat)
    requires page > 0
    ensures max <= r && (max % page == 0 ==> r == max)
  {
    if max % page == 0 then max else max + (page - max % page)
  }

  method CollectFlow(table: seq<Row>, page: nat, max: nat) returns (events: seq<Row>, truncated: bool)
    requires UniqueIds(table) && page > 0 && max > 0
    ensures events == Take(Ordered(table, None), RoundUp(max, page))
    ensures truncated <==> |Ordered(table, None)| > RoundUp(max, page)
  {
    ghost var all := Ordered(table, None);
    events, truncated := [], false;
    var cursor: Option<Cursor> := None;
    while true
      invariant |events| <= |all| && events == all[..|events|] && |events| % page == 0 && !truncated
      invariant |events| < max && At(table, cursor, |events|)
      decreases |all| - |events|
    {
      ghost var done := |events|;
      var rows, next := LoadEvents(table, cursor, page);
      assert events + rows == all[..done + |rows|];
      events := events + rows;
      OneMorePage(done, page, max);
      if next.None? {
        return;
      }
      assert done + page <= |all|;
      if |events| >= max {
        truncated := true;
        return;
      }
      assert rows[page - 1] == all[done + page - 1];
      AtNext(table, done + page);
      cursor := next;
    }
  }

  /** Below the limit by whole pages, one more page does not pass the rounded limit, and
      reaches it when it reaches the limit. */
  lemma {:induction false} OneMorePage(done: nat, page: nat, max: nat)
    requires page > 0 && done < max && done % page == 0
    ensures (done + page) % page == 0 && done + page <= RoundUp(max, page)
    ensures done + page >= max ==> done + page == RoundUp(max, page)
  {
    NextPageMultiple(done / page, done, page);
    PagesBelow(done / page, max / page, max % page, done, page, max);
  }

  lemma {:induction false} NextPageMultiple(p: nat, done: nat, page: nat)
    requires page > 0 && done == p * page
    ensures (done + page) % page == 0
  {
    ModMultiple(p + 1, page);
    assert (p + 1) * page == done + page;
  }

  lemma {:induction false} PagesBelow(p: nat, q: nat, m: nat, done: nat, page: nat, max: nat)
    requires page > 0 && done == p * page && max == q * page + m && m < page && done < max && m == max % page
    ensures done + page <= RoundUp(max, page)
    ensures done + page >= max ==> done + page == RoundUp(max, page)
  {
    Order(p, q, page);
    Order(p, q + 1, page);
    Order(p + 1, q, page);
    assert (q + 1) * page == q * page + page && (p + 1) * page == p * page + page;
  }

  lemma {:induction false} MulGap(a: nat, b: nat, c: nat)
    requires a < b
    ensures a * c + c <= b * c
    decreases b - a
  {
    assert (a + 1) * c == a * c + c;
    if a + 1 < b { MulGap(a + 1, b, c); }
  }

  lemma {:induction false} Order(a: nat, b: nat, c: nat)
    requires c > 0
    ensures a * c < b * c <==> a < b
    ensures a < b ==> a * c + c <= b * c
  {
    if a < b {
      MulGap(a, b, c);
    } else if b < a {
      MulGap(b, a, c);
    }
  }

  lemma ModMultiple(k: nat, c: nat)
    requires c > 0
    ensures (k * c) % c == 0
  {
    var q, m := (k * c) / c, (k * c) % c;
    assert k * c == q * c + m;
    Order(q, k, c);
    Order(k, q + 1, c);
    assert m == (k - q) * c;
  }

  /** The flow export: at most fifty thousand rows. */
  method ExportFlow(table: seq<Row>) returns (events: seq<Row>, truncated: bool)
    requires UniqueIds(table)
    ensures events == Take(Ordered(table, None), FLOW_MAX)
    ensures truncated <==> |Ordered(table, None)| > FLOW_MAX
  {
    events, truncated := CollectFlow(table, FLOW_PAGE, FLOW_MAX);
  }

  // ----- what the exported rows are -----

  /** A truncated prefix of the ordered result: matching rows, newest first, none repeated,
      and every matching row left out is older than all of them. */
  lemma ExportedAreNewest(table: seq<Row>, n: nat)
    requires UniqueIds(table)
    ensures var out := Take(Ordered(table, None), n);
            Descending(out)
            && (forall r :: r in out ==> r in table && r.matching)
            && (forall r :: r in table && r.matching && r !in out ==>
                             |out| == n && forall x :: x in out ==> Newer(x, r))
  {
    var all := Ordered(table, None);
    var out := Take(all, n);
    OrderedIsDescending(table, None);
    forall r | r in table && r.matching && r !in out
      ensures |out| == n && forall x :: x in out ==> Newer(x, r)
    {
      assert r in all;
      var i :| 0 <= i < |all| && all[i] == r;
      assert forall k :: 0 <= k < |out| ==> all[k] in out;
      forall x | x in out ensures Newer(x, r) {
        var j :| 0 <= j < |out| && out[j] == x;
        assert Newer(all[j], all[i]);
      }
    }
  }
}
