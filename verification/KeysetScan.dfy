/**
 Paging through a collection by ascending id, each page starting behind the last id of the page before,
 while the visits rewrite the rows they were given, often taking them out of the very filter being paged.
 */
module KeysetScan {
  import opened Wrappers

  datatype Keyed<T> = Keyed(id: nat, doc: T)

  ghost predicate Sorted<T>(rows: seq<Keyed<T>>) { forall i, j :: 0 <= i < j < |rows| ==> rows[i].id < rows[j].id }

  predicate Behind(id: nat, cursor: Option<nat>) { cursor.None? || id > cursor.value }

  /** `find({...filter, _id: {$gt: cursor}}).sort({_id: 1}).limit(limit)`. */
  function Page<T>(rows: seq<Keyed<T>>, p: T -> bool, cursor: Option<nat>, limit: nat): seq<Keyed<T>>
    decreases |rows|
  {
    if rows == [] || limit == 0 then []
    else if Behind(rows[0].id, cursor) && p(rows[0].doc) then [rows[0]] + Page(rows[1..], p, cursor, limit - 1)
    else Page(rows[1..], p, cursor, limit)
  }

  /** The rows of the filter, in id order. */
  function Selected<T>(rows: seq<Keyed<T>>, p: T -> bool): seq<Keyed<T>> {
    if rows == [] then []
    else if p(rows[0].doc) then [rows[0]] + Selected(rows[1..], p)
    else Selected(rows[1..], p)
  }

  function RewriteOne<T>(row: Keyed<T>, p: T -> bool, f: T -> T): Keyed<T> {
    if p(row.doc) then Keyed(row.id, f(row.doc)) else row
  }

  /** Every row of the filter rewritten once, every other row as it was. */
  function Rewritten<T>(rows: seq<Keyed<T>>, p: T -> bool, f: T -> T): (r: seq<Keyed<T>>)
    ensures |r| == |rows| && forall i :: 0 <= i < |rows| ==> r[i] == RewriteOne(rows[i], p, f)
  {
    if rows == [] then [] else [RewriteOne(rows[0], p, f)] + Rewritten(rows[1..], p, f)
  }

  /** The writes of one visit: to the rows of the page, as they were read. */
  function WritePage<T(==)>(rows: seq<Keyed<T>>, page: seq<Keyed<T>>, f: T -> T): (r: seq<Keyed<T>>)
    ensures |r| == |rows|
    ensures forall i :: 0 <= i < |rows| ==>
              r[i] == if rows[i] in page then Keyed(rows[i].id, f(rows[i].doc)) else rows[i]
  {
    if rows == [] then []
    else [if rows[0] in page then Keyed(rows[0].id, f(rows[0].doc)) else rows[0]] + WritePage(rows[1..], page, f)
  }

  /** How many rows a page of `limit` walks over: up to its last row, or all of them. */
  function Walked<T>(rows: seq<Keyed<T>>, p: T -> bool, limit: nat): (n: nat)
    ensures n <= |rows|
    decreases |rows|
  {
    if rows == [] || limit == 0 then 0 else 1 + Walked(rows[1..], p, if p(rows[0].doc) then limit - 1 else limit)
  }

  lemma {:induction false} SelectedMembers<T>(rows: seq<Keyed<T>>, p: T -> bool, row: Keyed<T>)
    ensures row in Selected(rows, p) <==> row in rows && p(row.doc)
  {
    if rows != [] {
      SelectedMembers(rows[1..], p, row);
      assert rows == [rows[0]] + rows[1..];
    }
  }

  lemma {:induction false} SelectedConcat<T>(a: seq<Keyed<T>>, b: seq<Keyed<T>>, p: T -> bool)
    ensures Selected(a + b, p) == Selected(a, p) + Selected(b, p)
  {
    if a == [] {
      assert a + b == b;
    } else {
      SelectedConcat(a[1..], b, p);
      assert (a + b)[1..] == a[1..] + b && (a + b)[0] == a[0];
      assert [a[0]] + (Selected(a[1..], p) + Selected(b, p)) == [a[0]] + Selected(a[1..], p) + Selected(b, p);
    }
  }

  /** A page is what its filter selects of the rows it walks over; a full page ends in the last of them,
      a short one walks over all rows. */
  lemma {:induction false} PageIsSelected<T>(rows: seq<Keyed<T>>, p: T -> bool, limit: nat)
    ensures Page(rows, p, None, limit) == Selected(rows[..Walked(rows, p, limit)], p)
    ensures var page := Page(rows, p, None, limit);
            && |page| <= limit
            && (|page| < limit ==> Walked(rows, p, limit) == |rows|)
            && (|page| > 0 && |page| == limit ==> page[|page| - 1] == rows[Walked(rows, p, limit) - 1])
            && (|page| > 0 ==> page[|page| - 1] in rows && Walked(rows, p, limit) > 0)
    decreases |rows|
  {
    if rows != [] && limit > 0 {
      var next := if p(rows[0].doc) then limit - 1 else limit;
      PageIsSelected(rows[1..], p, next);
      var n := Walked(rows[1..], p, next);
      assert rows[..1 + n] == [rows[0]] + rows[1..][..n];
      assert rows[..1 + n][1..] == rows[1..][..n];
    }
  }

  /** Rows at or before the cursor are not read again. */
  lemma {:induction false} CursorSkips<T>(done: seq<Keyed<T>>, rest: seq<Keyed<T>>, p: T -> bool, cursor: Option<nat>,
                                          limit: nat)
    requires forall r :: r in done ==> !(Behind(r.id, cursor) && p(r.doc))
    requires forall r :: r in rest ==> Behind(r.id, cursor)
    ensures Page(done + rest, p, cursor, limit) == Page(rest, p, None, limit)
    decreases |done| + |rest|
  {
    if done != [] {
      assert (done + rest)[1..] == done[1..] + rest && done[0] in done;
      CursorSkips(done[1..], rest, p, cursor, limit);
    } else {
      assert done + rest == rest;
      if rest != [] && limit > 0 {
        assert rest[0] in rest;
        assert [] + rest[1..] == rest[1..];
        CursorSkips([], rest[1..], p, cursor, if p(rest[0].doc) then limit - 1 else limit);
      }
    }
  }

  lemma {:induction false} SelectedIsSorted<T>(rows: seq<Keyed<T>>, p: T -> bool)
    requires Sorted(rows)
    ensures Sorted(Selected(rows, p))
  {
    if rows != [] {
      SelectedIsSorted(rows[1..], p);
      var rest := Selected(rows[1..], p);
      forall j | 0 <= j < |rest| ensures rows[0].id < rest[j].id {
        SelectedMembers(rows[1..], p, rest[j]);
      }
    }
  }

  /** One visit: the rows walked over are rewritten, and no other. */
  lemma VisitRewrites<T>(done: seq<Keyed<T>>, rest: seq<Keyed<T>>, p: T -> bool, f: T -> T, m: nat)
    requires Sorted(done + rest) && m <= |rest|
    ensures WritePage(done + rest, Selected(rest[..m], p), f) == done + Rewritten(rest[..m], p, f) + rest[m..]
  {
    var all, page := done + rest, Selected(rest[..m], p);
    forall i | 0 <= i < |all|
      ensures all[i] in page <==> |done| <= i < |done| + m && p(all[i].doc)
    {
      SelectedMembers(rest[..m], p, all[i]);
      if |done| <= i < |done| + m { assert rest[..m][i - |done|] == all[i]; }
      if all[i] in rest[..m] {
        var j :| 0 <= j < m && rest[..m][j] == all[i];
        assert all[|done| + j] == all[i];
        assert i == |done| + j;
      }
    }
  }

  /** Rewriting in two parts. */
  lemma RewrittenConcat<T>(a: seq<Keyed<T>>, b: seq<Keyed<T>>, p: T -> bool, f: T -> T)
    ensures Rewritten(a + b, p, f) == Rewritten(a, p, f) + Rewritten(b, p, f)
  {}

  /** Where a scan stands after some pages: of the first `k` rows those of the filter are rewritten and
      visited and the cursor is at the last of them; the other rows are untouched. */
  ghost predicate At<T>(was: seq<Keyed<T>>, rows: seq<Keyed<T>>, p: T -> bool, f: T -> T, cursor: Option<nat>,
                        visited: seq<Keyed<T>>, k: nat)
  {
    && k <= |was|
    && rows == Rewritten(was[..k], p, f) + was[k..]
    && visited == Selected(was[..k], p)
    && (forall i :: 0 <= i < k && p(was[i].doc) ==> !Behind(was[i].id, cursor))
    && (forall i :: k <= i < |was| ==> Behind(was[i].id, cursor))
  }

  lemma AtCursor<T>(was: seq<Keyed<T>>, rows: seq<Keyed<T>>, p: T -> bool, f: T -> T, cursor: Option<nat>,
                    visited: seq<Keyed<T>>, k: nat, limit: nat)
    requires Sorted(was) && At(was, rows, p, f, cursor, visited, k)
    ensures Page(rows, p, cursor, limit) == Page(was[k..], p, None, limit)
    ensures Sorted(rows)
  {
    var done := Rewritten(was[..k], p, f);
    forall r | r in done ensures !(Behind(r.id, cursor) && p(r.doc)) {
      var i :| 0 <= i < k && done[i] == r;
      assert r == RewriteOne(was[i], p, f);
    }
    CursorSkips(done, was[k..], p, cursor, limit);
  }

  function CursorAfter<T>(page: seq<Keyed<T>>, cursor: Option<nat>): Option<nat> {
    if page == [] then cursor else Some(page[|page| - 1].id)
  }

  /** A non-empty page moves the cursor to its last row: behind it are exactly the rows not walked over. */
  lemma CursorMoves<T>(was: seq<Keyed<T>>, p: T -> bool, k: nat, next: nat, page: seq<Keyed<T>>, cursor: Option<nat>)
    requires Sorted(was) && k <= next <= |was| && page == Selected(was[k..next], p)
    requires forall i :: 0 <= i < k && p(was[i].doc) ==> !Behind(was[i].id, cursor)
    requires forall i :: k <= i < |was| ==> Behind(was[i].id, cursor)
    ensures forall i :: 0 <= i < next && p(was[i].doc) ==> !Behind(was[i].id, CursorAfter(page, cursor))
    ensures forall i :: next <= i < |was| ==> Behind(was[i].id, CursorAfter(page, cursor))
  {
    var walked := was[k..next];
    SelectedIsSorted(walked, p);
    forall i | k <= i < next && p(was[i].doc) ensures page != [] && was[i].id <= page[|page| - 1].id {
      assert walked[i - k] == was[i];
      SelectedMembers(walked, p, was[i]);
      var j :| 0 <= j < |page| && page[j] == was[i];
    }
    if page != [] {
      var last := page[|page| - 1];
      SelectedMembers(walked, p, last);
      var j :| 0 <= j < |walked| && walked[j] == last;
      assert was[k + j] == last;
    }
  }

  /** One page moves the scan past the rows it walked over. */
  lemma Advance<T>(was: seq<Keyed<T>>, rows: seq<Keyed<T>>, p: T -> bool, f: T -> T, cursor: Option<nat>,
                   visited: seq<Keyed<T>>, k: nat, limit: nat)
    returns (next: nat)
    requires Sorted(was) && At(was, rows, p, f, cursor, visited, k) && limit > 0
    ensures var page := Page(rows, p, cursor, limit);
            && At(was, WritePage(rows, page, f), p, f, CursorAfter(page, cursor), visited + page, next)
            && |page| <= limit && k <= next
            && (|page| < limit ==> next == |was|)
            && (|page| > 0 ==> next > k)
            && (forall r :: r in page ==> p(r.doc))
  {
    AtCursor(was, rows, p, f, cursor, visited, k, limit);
    var rest := was[k..];
    var m := Walked(rest, p, limit);
    var page := Page(rows, p, cursor, limit);
    PageIsSelected(rest, p, limit);
    VisitRewrites(Rewritten(was[..k], p, f), rest, p, f, m);
    next := k + m;
    assert was[..next] == was[..k] + rest[..m] && was[next..] == rest[m..] && was[k..next] == rest[..m];
    RewrittenConcat(was[..k], rest[..m], p, f);
    SelectedConcat(was[..k], rest[..m], p);
    CursorMoves(was, p, k, next, page, cursor);
    forall r | r in page ensures p(r.doc) { SelectedMembers(rest[..m], p, r); }
  }

  /** Past the last row the scan is over. */
  lemma AtEnd<T>(was: seq<Keyed<T>>, rows: seq<Keyed<T>>, p: T -> bool, f: T -> T, cursor: Option<nat>,
                 visited: seq<Keyed<T>>)
    requires At(was, rows, p, f, cursor, visited, |was|)
    ensures rows == Rewritten(was, p, f) && visited == Selected(was, p)
  {
    assert was[..|was|] == was && was[|was|..] == [];
  }

  class Collection<T(==, !new)> {
    var rows: seq<Keyed<T>>

    /** The scan that stops at the first short page.  Whatever the visits write into the rows they were
        given, every row of the filter at the start is visited once, in id order, as it was at the start. */
    method ScanBatches(p: T -> bool, f: T -> T, batchSize: nat) returns (visited: seq<Keyed<T>>)
      requires Sorted(rows) && batchSize > 0
      modifies this
      ensures visited == Selected(old(rows), p)
      ensures rows == Rewritten(old(rows), p, f)
    {
      ghost var was, k := rows, 0;
      var afterId: Option<nat>;
      visited, afterId := [], None;
      while true
        invariant At(was, rows, p, f, afterId, visited, k)
        decreases |was| - k
      {
        var page := Page(rows, p, afterId, batchSize);
        k := Advance(was, rows, p, f, afterId, visited, k, batchSize);
        rows := WritePage(rows, page, f);
        visited := visited + page;
        if |page| < batchSize {
          AtEnd(was, rows, p, f, CursorAfter(page, afterId), visited);
          return;
        }
        afterId := Some(page[|page| - 1].id);
      }
    }
  }
}
