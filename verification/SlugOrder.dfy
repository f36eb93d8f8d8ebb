/** The plan does not depend on the order in which either collection is read. */
module SlugOrder {
  import opened Wrappers
  import opened Seqs
  import opened SlugPlan

  ghost predicate UniqueIds(ws: seq<Workspace>) { forall i, j :: 0 <= i < j < |ws| ==> ws[i].id != ws[j].id }

  ghost predicate UniqueRows(rows: seq<RawReservation>) {
    forall i, j :: 0 <= i < j < |rows| ==> rows[i].id != rows[j].id
  }

  ghost predicate UniqueReservations(rows: seq<Reservation>) {
    forall i, j :: 0 <= i < j < |rows| ==> rows[i].id != rows[j].id
  }

  ghost predicate StrictlySorted(ws: seq<Workspace>) { forall i, j :: 0 <= i < j < |ws| ==> ws[i].id < ws[j].id }

  ghost predicate SameMembers<T(!new)>(a: seq<T>, b: seq<T>) { forall x :: x in a <==> x in b }

  // ---- Sorting ----

  lemma {:induction false} InsertSorts(w: Workspace, sorted: seq<Workspace>)
    requires StrictlySorted(sorted) && forall v :: v in sorted ==> v.id != w.id
    ensures StrictlySorted(Insert(w, sorted))
    ensures forall v :: v in Insert(w, sorted) <==> v == w || v in sorted
  {
    if sorted != [] && sorted[0].id < w.id {
      InsertSorts(w, sorted[1..]);
      assert sorted == [sorted[0]] + sorted[1..];
      var rest := Insert(w, sorted[1..]);
      forall j | 0 <= j < |rest| ensures sorted[0].id < rest[j].id {
        assert rest[j] in rest;
      }
    }
  }

  lemma {:induction false} SortByIdSorts(ws: seq<Workspace>)
    requires UniqueIds(ws)
    ensures StrictlySorted(SortById(ws)) && SameMembers(SortById(ws), ws)
  {
    if ws != [] {
      SortByIdSorts(ws[1..]);
      InsertSorts(ws[0], SortById(ws[1..]));
      assert ws == [ws[0]] + ws[1..];
    }
  }

  lemma {:induction false} SortedIsUnique(a: seq<Workspace>, b: seq<Workspace>)
    requires StrictlySorted(a) && StrictlySorted(b) && SameMembers(a, b)
    ensures a == b
  {
    if a == [] {
      var first := FirstOr(b, Workspace(0, "", Absent));
      assert first !in a;
    } else {
      assert a[0] in b && b[0] in a;
      var i :| 0 <= i < |b| && b[i] == a[0];
      var j :| 0 <= j < |a| && a[j] == b[0];
      assert a[0] == b[0];
      forall x ensures x in a[1..] <==> x in b[1..] {
        if x in a[1..] { assert x in b; }
        if x in b[1..] { assert x in a; }
      }
      SortedIsUnique(a[1..], b[1..]);
    }
  }

  // ---- Reservations ----

  lemma {:induction false} IndexMembers(rows: seq<Reservation>)
    ensures forall k :: k in Index(rows) ==> Index(rows)[k] in rows && Index(rows)[k].id == k
    ensures forall r :: r in rows ==> r.id in Index(rows)
    ensures UniqueReservations(rows) ==> forall r :: r in rows ==> Index(rows)[r.id] == r
  {
    if rows != [] {
      IndexMembers(rows[..|rows| - 1]);
      assert rows == rows[..|rows| - 1] + [rows[|rows| - 1]];
    }
  }

  lemma {:induction false} ValidateMembers(policy: Policy, rows: seq<RawReservation>)
    ensures Validate(policy, rows).Ok? <==> forall r :: r in rows ==> ValidateRow(policy, r).Ok?
    ensures Validate(policy, rows).Ok? ==>
              var valid := Validate(policy, rows).value;
              && |valid| == |rows|
              && forall i :: 0 <= i < |rows| ==>
                ValidateRow(policy, rows[i]) == Ok(valid[i]) && rows[i].id == HashText(valid[i].id)
  {
    if rows != [] {
      ValidateMembers(policy, rows[1..]);
      assert rows == [rows[0]] + rows[1..];
    }
  }

  lemma ValidatedAreUnique(policy: Policy, rows: seq<RawReservation>)
    requires UniqueRows(rows) && Validate(policy, rows).Ok?
    ensures UniqueReservations(Validate(policy, rows).value)
  {
    ValidateMembers(policy, rows);
  }

  lemma ValidatedMembers(policy: Policy, a: seq<RawReservation>, b: seq<RawReservation>)
    requires SameMembers(a, b)
    ensures Validate(policy, a).Ok? <==> Validate(policy, b).Ok?
    ensures Validate(policy, a).Ok? ==> SameMembers(Validate(policy, a).value, Validate(policy, b).value)
  {
    ValidateMembers(policy, a);
    ValidateMembers(policy, b);
    if Validate(policy, a).Ok? {
      ValidatedFrom(policy, a, b);
      ValidatedFrom(policy, b, a);
    }
  }

  lemma ValidatedFrom(policy: Policy, a: seq<RawReservation>, b: seq<RawReservation>)
    requires SameMembers(a, b) && Validate(policy, a).Ok? && Validate(policy, b).Ok?
    ensures forall x :: x in Validate(policy, a).value ==> x in Validate(policy, b).value
  {
    var va, vb := Validate(policy, a).value, Validate(policy, b).value;
    ValidateMembers(policy, a);
    ValidateMembers(policy, b);
    forall x | x in va ensures x in vb {
      var i :| 0 <= i < |va| && va[i] == x;
      assert a[i] in b;
      var j :| 0 <= j < |b| && b[j] == a[i];
      assert vb[j] == x;
    }
  }

  lemma IndexIsOrderless(a: seq<Reservation>, b: seq<Reservation>)
    requires UniqueReservations(a) && UniqueReservations(b) && SameMembers(a, b)
    ensures Index(a) == Index(b)
  {
    IndexMembers(a);
    IndexMembers(b);
    forall k ensures k in Index(a) <==> k in Index(b) {
      if k in Index(a) { assert Index(a)[k] in b; }
      if k in Index(b) { assert Index(b)[k] in a; }
    }
  }

  lemma {:induction false} NoOrphanIff(rows: seq<Reservation>, matched: set<Digest>)
    ensures FirstOrphan(rows, matched).None? <==> forall r :: r in rows ==> !Orphan(r, matched)
  {
    if rows != [] {
      NoOrphanIff(rows[1..], matched);
      assert rows == [rows[0]] + rows[1..];
    }
  }

  /** Both collections hold every id once; in whatever order they are read, the planner succeeds on both
      readings or on neither, and then plans the same assignments in the same order. */
  lemma PlanIsOrderless(policy: Policy, ws1: seq<Workspace>, ws2: seq<Workspace>, rows1: seq<RawReservation>,
                        rows2: seq<RawReservation>)
    requires UniqueIds(ws1) && UniqueIds(ws2) && SameMembers(ws1, ws2)
    requires UniqueRows(rows1) && UniqueRows(rows2) && SameMembers(rows1, rows2)
    ensures Plan(policy, ws1, rows1).Ok? <==> Plan(policy, ws2, rows2).Ok?
    ensures Plan(policy, ws1, rows1).Ok? ==> Plan(policy, ws1, rows1) == Plan(policy, ws2, rows2)
  {
    SortByIdSorts(ws1);
    SortByIdSorts(ws2);
    SortedIsUnique(SortById(ws1), SortById(ws2));
    ValidatedMembers(policy, rows1, rows2);
    if Validate(policy, rows1).Ok? {
      var v1, v2 := Validate(policy, rows1).value, Validate(policy, rows2).value;
      ValidatedAreUnique(policy, rows1);
      ValidatedAreUnique(policy, rows2);
      IndexIsOrderless(v1, v2);
      var scan := ScanNamed(policy, Index(v1), NOTHING_SCANNED, Filter(Named, SortById(ws1)));
      if scan.Ok? {
        NoOrphanIff(v1, scan.value.matched);
        NoOrphanIff(v2, scan.value.matched);
      }
    }
  }
}
