/** What a successful slug plan promises: fresh hashes, distinct slugs, and nothing left to plan afterwards. */
module SlugFixpoint {
  import opened Wrappers
  import opened Seqs
  import opened SignInSlug
  import opened SlugPlan
  import opened SlugOrder
  import opened SlugBackfill

  /** A successful plan taken apart. */
  datatype Parts = Parts(
    valid: seq<Reservation>,
    named: seq<Workspace>,
    unnamed: seq<Workspace>,
    scan: Scan,
    added: seq<Assignment>)

  ghost predicate PartsOf(policy: Policy, ws: seq<Workspace>, rows: seq<RawReservation>, plan: seq<Assignment>,
                          p: Parts)
  {
    var reservations := Index(p.valid);
    && Validate(policy, rows) == Ok(p.valid)
    && UniqueReservations(p.valid)
    && (forall w :: w in p.named <==> w in ws && Named(w))
    && (forall w :: w in p.unnamed <==> w in ws && !Named(w))
    && UniqueIds(p.named) && UniqueIds(p.unnamed)
    && ScanNamed(policy, reservations, NOTHING_SCANNED, p.named) == Ok(p.scan)
    && FirstOrphan(p.valid, p.scan.matched).None?
    && AssignUnnamed(policy, p.unnamed, p.scan.occupied.Keys, reservations.Keys) == Ok(p.added)
    && plan == Missing(reservations, p.named) + p.added
  }

  lemma {:induction false} FilterUnique(p: Workspace -> bool, ws: seq<Workspace>)
    requires UniqueIds(ws)
    ensures UniqueIds(Filter(p, ws))
  {
    if ws != [] {
      FilterUnique(p, ws[1..]);
      var rest := Filter(p, ws[1..]);
      forall j | 0 <= j < |rest| ensures rest[j].id != ws[0].id {
        assert rest[j] in ws[1..];
      }
    }
  }

  lemma TakeApart(policy: Policy, ws: seq<Workspace>, rows: seq<RawReservation>, plan: seq<Assignment>)
    returns (p: Parts)
    requires UniqueIds(ws) && UniqueRows(rows) && Plan(policy, ws, rows) == Ok(plan)
    ensures PartsOf(policy, ws, rows, plan, p)
  {
    var valid := Validate(policy, rows).value;
    var sorted := SortById(ws);
    SortByIdSorts(ws);
    var named, unnamed := Filter(Named, sorted), Filter(Unnamed, sorted);
    FilterUnique(Named, sorted);
    FilterUnique(Unnamed, sorted);
    var scan := ScanNamed(policy, Index(valid), NOTHING_SCANNED, named).value;
    ScanAssigns(policy, Index(valid), NOTHING_SCANNED, named);
    assert [] + Missing(Index(valid), named) == Missing(Index(valid), named);
    ValidatedAreUnique(policy, rows);
    p := Parts(valid, named, unnamed, scan,
               AssignUnnamed(policy, unnamed, scan.occupied.Keys, Index(valid).Keys).value);
  }

  function ReserveFor(w: Workspace): Assignment { Assignment(w.id, SlugOf(w), Sha256(SlugOf(w)), false) }

  lemma {:induction false} MissingMembers(reservations: map<Digest, Reservation>, ws: seq<Workspace>)
    ensures forall a :: a in Missing(reservations, ws) <==>
              exists w :: w in ws && Sha256(SlugOf(w)) !in reservations && a == ReserveFor(w)
  {
    if ws != [] {
      MissingMembers(reservations, ws[1..]);
      assert ws == [ws[0]] + ws[1..];
      assert ReserveFor(ws[0]) == Assignment(ws[0].id, SlugOf(ws[0]), Sha256(SlugOf(ws[0])), false);
    }
  }

  lemma {:induction false} MissingIsIndependent(reservations: map<Digest, Reservation>, ws: seq<Workspace>)
    requires UniqueIds(ws) && SlugsDistinct(ws)
    ensures Independent(Missing(reservations, ws))
  {
    if ws != [] {
      MissingIsIndependent(reservations, ws[1..]);
      MissingMembers(reservations, ws[1..]);
      var rest := Missing(reservations, ws[1..]);
      forall j | 0 <= j < |rest|
        ensures rest[j].workspaceId != ws[0].id && rest[j].reservationHash != Sha256(SlugOf(ws[0])) {
        assert rest[j] in rest;
        var w :| w in ws[1..] && rest[j] == ReserveFor(w);
        var i :| 0 <= i < |ws[1..]| && ws[1..][i] == w;
        assert ws[i + 1] == w;
      }
    }
  }

  lemma {:induction false} NoneMissing(reservations: map<Digest, Reservation>, ws: seq<Workspace>)
    requires forall w :: w in ws ==> Sha256(SlugOf(w)) in reservations
    ensures Missing(reservations, ws) == []
  {
    if ws != [] { NoneMissing(reservations, ws[1..]); }
  }

  /** The hash of a reservation that no row has. */
  lemma UnreservedHash(policy: Policy, rows: seq<RawReservation>, hash: Digest)
    requires Validate(policy, rows).Ok?
    ensures HasRow(rows, HashText(hash)) <==> hash in Index(Validate(policy, rows).value)
  {
    var valid := Validate(policy, rows).value;
    ValidateMembers(policy, rows);
    IndexMembers(valid);
    if HasRow(rows, HashText(hash)) {
      var r :| r in rows && r.id == HashText(hash);
      var i :| 0 <= i < |rows| && rows[i] == r;
      assert valid[i] in valid;
    }
    if hash in Index(valid) {
      var v := Index(valid)[hash];
      var i :| 0 <= i < |valid| && valid[i] == v;
      assert rows[i] in rows;
    }
  }

  lemma AddedIsIndependent(policy: Policy, p: Parts, ws: seq<Workspace>, rows: seq<RawReservation>,
                           plan: seq<Assignment>)
    requires PartsOf(policy, ws, rows, plan, p)
    ensures Independent(p.added)
  {
    AssignFits(policy, p.unnamed, p.scan.occupied.Keys, Index(p.valid).Keys, p.added);
    forall i, j | 0 <= i < j < |p.added|
      ensures p.added[i].workspaceId != p.added[j].workspaceId &&
              p.added[i].reservationHash != p.added[j].reservationHash
    {
      assert Fits(policy, p.unnamed[i], p.added[i], p.scan.occupied.Keys, Index(p.valid).Keys);
      assert Fits(policy, p.unnamed[j], p.added[j], p.scan.occupied.Keys, Index(p.valid).Keys);
    }
  }

  /** A slug in use is not given out again. */
  lemma UsedIsNotAdded(policy: Policy, p: Parts, ws: seq<Workspace>, rows: seq<RawReservation>, plan: seq<Assignment>,
                       w: Workspace, k: nat)
    requires PartsOf(policy, ws, rows, plan, p)
    requires w in p.named && k < |p.added|
    ensures p.added[k].reservationHash == Sha256(p.added[k].slug) && p.added[k].slug != SlugOf(w)
  {
    AssignFits(policy, p.unnamed, p.scan.occupied.Keys, Index(p.valid).Keys, p.added);
    assert Fits(policy, p.unnamed[k], p.added[k], p.scan.occupied.Keys, Index(p.valid).Keys);
    ScanCollects(policy, Index(p.valid), NOTHING_SCANNED, p.named);
    SlugsMembers(p.named, SlugOf(w));
  }

  lemma AddedIsUnnamed(policy: Policy, p: Parts, ws: seq<Workspace>, rows: seq<RawReservation>, plan: seq<Assignment>,
                       w: Workspace, k: nat)
    requires PartsOf(policy, ws, rows, plan, p) && UniqueIds(ws)
    requires w in p.named && k < |p.added|
    ensures p.added[k].workspaceId != w.id
  {
    AssignFits(policy, p.unnamed, p.scan.occupied.Keys, Index(p.valid).Keys, p.added);
    var v := p.unnamed[k];
    assert Fits(policy, v, p.added[k], p.scan.occupied.Keys, Index(p.valid).Keys);
    assert v in p.unnamed;
    if w.id == v.id { SameIdSame(ws, w, v); }
  }

  /** A new reservation for a named workspace and one for an unnamed workspace share nothing. */
  lemma HalvesAreIndependent(policy: Policy, p: Parts, ws: seq<Workspace>, rows: seq<RawReservation>,
                             plan: seq<Assignment>, a: Assignment, k: nat)
    requires PartsOf(policy, ws, rows, plan, p) && UniqueIds(ws)
    requires a in Missing(Index(p.valid), p.named) && k < |p.added|
    ensures a.workspaceId != p.added[k].workspaceId && a.reservationHash != p.added[k].reservationHash
  {
    MissingMembers(Index(p.valid), p.named);
    var w :| w in p.named && Sha256(SlugOf(w)) !in Index(p.valid) && a == ReserveFor(w);
    assert a.workspaceId == w.id && a.reservationHash == Sha256(SlugOf(w));
    UsedIsNotAdded(policy, p, ws, rows, plan, w, k);
    AddedIsUnnamed(policy, p, ws, rows, plan, w, k);
  }

  lemma SameIdSame(ws: seq<Workspace>, w: Workspace, v: Workspace)
    requires UniqueIds(ws) && w in ws && v in ws && w.id == v.id
    ensures w == v
  {}

  /** Every assignment of a plan has a workspace and a hash of its own, and no planned hash belongs to an
      active or retired reservation. */
  lemma PlanIsFresh(policy: Policy, ws: seq<Workspace>, rows: seq<RawReservation>, plan: seq<Assignment>)
    requires UniqueIds(ws) && UniqueRows(rows) && Plan(policy, ws, rows) == Ok(plan)
    ensures Independent(plan)
    ensures forall a :: a in plan ==> a.reservationHash == Sha256(a.slug) && !HasRow(rows, HashText(a.reservationHash))
  {
    var p := TakeApart(policy, ws, rows, plan);
    var reservations := Index(p.valid);
    var missing := Missing(reservations, p.named);
    ScanSettles(policy, reservations, NOTHING_SCANNED, p.named);
    MissingIsIndependent(reservations, p.named);
    MissingMembers(reservations, p.named);
    AddedIsIndependent(policy, p, ws, rows, plan);
    AssignFits(policy, p.unnamed, p.scan.occupied.Keys, reservations.Keys, p.added);
    forall i, k | 0 <= i < |missing| && 0 <= k < |p.added|
      ensures missing[i].workspaceId != p.added[k].workspaceId &&
              missing[i].reservationHash != p.added[k].reservationHash
    {
      HalvesAreIndependent(policy, p, ws, rows, plan, missing[i], k);
    }
    forall a | a in plan ensures a.reservationHash == Sha256(a.slug) && !HasRow(rows, HashText(a.reservationHash)) {
      UnreservedHash(policy, rows, a.reservationHash);
      if a !in missing {
        var k :| 0 <= k < |p.added| && p.added[k] == a;
        assert Fits(policy, p.unnamed[k], a, p.scan.occupied.Keys, reservations.Keys);
      }
    }
  }

  /** The plan writes a slug for exactly the unnamed workspaces. */
  lemma WrittenAreUnnamed(policy: Policy, ws: seq<Workspace>, rows: seq<RawReservation>, plan: seq<Assignment>)
    requires UniqueIds(ws) && UniqueRows(rows) && Plan(policy, ws, rows) == Ok(plan)
    ensures AllCanFill(ws, plan) <==> forall w :: w in ws ==> Named(w) || w.signInSlug == Absent
  {
    var p := TakeApart(policy, ws, rows, plan);
    var reservations := Index(p.valid);
    MissingMembers(reservations, p.named);
    AssignFits(policy, p.unnamed, p.scan.occupied.Keys, reservations.Keys, p.added);
    forall k | 0 <= k < |p.added| ensures CanFill(ws, p.added[k]) <==> p.unnamed[k].signInSlug == Absent {
      assert Fits(policy, p.unnamed[k], p.added[k], p.scan.occupied.Keys, reservations.Keys);
      assert p.unnamed[k] in p.unnamed;
      if p.unnamed[k].signInSlug == Absent { assert Fillable(p.unnamed[k], p.added[k]); }
      if CanFill(ws, p.added[k]) {
        var w :| w in ws && Fillable(w, p.added[k]);
        SameIdSame(ws, w, p.unnamed[k]);
      }
    }
    if AllCanFill(ws, plan) {
      forall w | w in ws && !Named(w) ensures w.signInSlug == Absent {
        assert w in p.unnamed;
        var k :| 0 <= k < |p.unnamed| && p.unnamed[k] == w;
        assert Fits(policy, w, p.added[k], p.scan.occupied.Keys, reservations.Keys);
        assert p.added[k] in plan;
      }
    } else {
      var a :| a in plan && a.writeWorkspaceSlug && !CanFill(ws, a);
      assert a in p.added;
      var k :| 0 <= k < |p.added| && p.added[k] == a;
      assert p.unnamed[k] in p.unnamed;
    }
  }

  /** Applying a successful plan goes through exactly when no unnamed workspace has a `signInSlug` field at
      all: a `null` or empty one is planned for, yet its write does not match. */
  lemma ApplySucceedsIff(policy: Policy, db: Database, plan: seq<Assignment>)
    requires UniqueIds(db.workspaces) && UniqueRows(db.rows) && Plan(policy, db.workspaces, db.rows) == Ok(plan)
    ensures WriteAll(db, plan).Ok? <==> forall w :: w in db.workspaces ==> Named(w) || w.signInSlug == Absent
    ensures WriteAll(db, plan).Err? ==> WriteAll(db, plan).error.ChangedDuringBackfill?
  {
    PlanIsFresh(policy, db.workspaces, db.rows, plan);
    WritesGoThroughIff(db, plan);
    WrittenAreUnnamed(policy, db.workspaces, db.rows, plan);
  }

  /** A lone workspace is offered its first candidate. */
  lemma LoneWorkspacePlans(policy: Policy, w: Workspace)
    requires !Named(w) && policy.candidates(w.name, w.id) != [] && policy.candidates(w.name, w.id)[0] != ""
    ensures Plan(policy, [w], []).Ok?
  {
    assert SortById([w]) == [w];
    assert Filter(Named, [w]) == [] && Filter(Unnamed, [w]) == [w];
    var slug := policy.candidates(w.name, w.id)[0];
    assert Free(slug, {}, {});
    assert FirstFree(policy.candidates(w.name, w.id), {}, {}) == Some(slug);
    assert AssignUnnamed(policy, [], {slug}, {Sha256(slug)}) == Ok([]);
    assert [w][1..] == [] && {} + {slug} == {slug} && {} + {Sha256(slug)} == {Sha256(slug)};
    assert AssignUnnamed(policy, [w], {}, {}).Ok?;
    assert NOTHING_SCANNED.occupied.Keys == {} && Index([]).Keys == {};
  }

  /** Under the slug rules in use the plan for one workspace whose `signInSlug` is null or empty cannot be applied. */
  lemma FalsyFieldFails(naming: Naming, w: Workspace)
    requires naming.Lawful() && !Named(w) && w.signInSlug != Absent
    ensures var plan := Plan(Policy(naming.Parse, naming.Candidates), [w], []);
            plan.Ok? && WriteAll(Database([w], []), plan.value).Err?
  {
    var policy := Policy(naming.Parse, naming.Candidates);
    CandidatesParse(naming, w.name, w.id);
    LoneWorkspacePlans(policy, w);
    assert w in [w];
    ApplySucceedsIff(policy, Database([w], []), Plan(policy, [w], []).value);
  }

  // ---- Planning again ----

  /** The state after the writes: every workspace named, and the owner of the reservation of its slug. */
  ghost predicate Owned(policy: Policy, reservations: map<Digest, Reservation>, w: Workspace) {
    && Named(w)
    && policy.parse(SlugOf(w)) == Some(SlugOf(w))
    && Sha256(SlugOf(w)) in reservations
    && Matching(reservations[Sha256(SlugOf(w))], w)
  }

  lemma OwnedAreDistinct(policy: Policy, reservations: map<Digest, Reservation>, ws: seq<Workspace>)
    requires UniqueIds(ws) && forall w :: w in ws ==> Owned(policy, reservations, w)
    ensures SlugsDistinct(ws)
  {
    forall i, j | 0 <= i < j < |ws| ensures SlugOf(ws[i]) != SlugOf(ws[j]) {
      assert Owned(policy, reservations, ws[i]) && Owned(policy, reservations, ws[j]);
    }
  }

  lemma AllNamed(ws: seq<Workspace>)
    requires forall w :: w in ws ==> Named(w)
    ensures Filter(Unnamed, ws) == []
  {
    var first := FirstOr(Filter(Unnamed, ws), Workspace(0, "", Present("any")));
    assert first !in Filter(Unnamed, ws);
  }

  /** Where every workspace owns its reservation and every active reservation has its workspace, there is
      nothing to plan. */
  lemma OwnedNeedNothing(policy: Policy, ws: seq<Workspace>, valid: seq<Reservation>)
    requires UniqueIds(ws) && UniqueReservations(valid)
    requires forall w :: w in ws ==> Owned(policy, Index(valid), w)
    requires forall r :: r in valid && r.Active? ==> exists w :: w in ws && r.id == Sha256(SlugOf(w))
    ensures PlanValid(policy, SortById(ws), valid) == Ok([])
  {
    var reservations, sorted := Index(valid), SortById(ws);
    SortByIdSorts(ws);
    AllNamed(sorted);
    var named := Filter(Named, sorted);
    FilterUnique(Named, sorted);
    OwnedAreDistinct(policy, reservations, named);
    SettledScans(policy, reservations, NOTHING_SCANNED, named);
    ScanAssigns(policy, reservations, NOTHING_SCANNED, named);
    ScanCollects(policy, reservations, NOTHING_SCANNED, named);
    NoneMissing(reservations, named);
    var scan := ScanNamed(policy, reservations, NOTHING_SCANNED, named).value;
    IndexMembers(valid);
    forall r | r in valid ensures !Orphan(r, scan.matched) {
      if r.Active? {
        var w :| w in ws && r.id == Sha256(SlugOf(w));
        assert w in named;
        HashesMembers(reservations, named, r.id);
      }
    }
    NoOrphanIff(valid, scan.matched);
  }

  lemma {:induction false} ValidateConcat(policy: Policy, a: seq<RawReservation>, b: seq<RawReservation>)
    requires Validate(policy, a).Ok? && Validate(policy, b).Ok?
    ensures Validate(policy, a + b) == Ok(Validate(policy, a).value + Validate(policy, b).value)
  {
    if a == [] {
      assert a + b == b && [] + Validate(policy, b).value == Validate(policy, b).value;
    } else {
      ValidateConcat(policy, a[1..], b);
      assert (a + b)[1..] == a[1..] + b;
      var first, rest := [ValidateRow(policy, a[0]).value], Validate(policy, a[1..]).value;
      assert (first + rest) + Validate(policy, b).value == first + (rest + Validate(policy, b).value);
    }
  }

  function NewReservation(a: Assignment): Reservation { Active(a.reservationHash, a.slug, a.workspaceId) }

  function NewReservations(plan: seq<Assignment>): (r: seq<Reservation>)
    ensures |r| == |plan| && forall i :: 0 <= i < |r| ==> r[i] == NewReservation(plan[i])
  {
    if plan == [] then [] else [NewReservation(plan[0])] + NewReservations(plan[1..])
  }

  lemma {:induction false} NewRowsAreValid(policy: Policy, plan: seq<Assignment>)
    requires forall a :: a in plan ==> policy.parse(a.slug) == Some(a.slug) && a.reservationHash == Sha256(a.slug)
    ensures Validate(policy, ActiveRows(plan)) == Ok(NewReservations(plan))
  {
    if plan != [] {
      assert plan[0] in plan;
      NewRowsAreValid(policy, plan[1..]);
      assert ActiveRows(plan)[1..] == ActiveRows(plan[1..]);
    }
  }

  lemma PlannedSlugsParse(policy: Policy, ws: seq<Workspace>, rows: seq<RawReservation>, plan: seq<Assignment>)
    requires policy.Lawful() && UniqueIds(ws) && UniqueRows(rows) && Plan(policy, ws, rows) == Ok(plan)
    ensures forall a :: a in plan ==> policy.parse(a.slug) == Some(a.slug)
  {
    var p := TakeApart(policy, ws, rows, plan);
    var reservations := Index(p.valid);
    ScanSettles(policy, reservations, NOTHING_SCANNED, p.named);
    MissingMembers(reservations, p.named);
    AssignFits(policy, p.unnamed, p.scan.occupied.Keys, reservations.Keys, p.added);
    forall a | a in plan ensures policy.parse(a.slug) == Some(a.slug) {
      if a !in Missing(reservations, p.named) {
        var k :| 0 <= k < |p.added| && p.added[k] == a;
        assert Fits(policy, p.unnamed[k], a, p.scan.occupied.Keys, reservations.Keys);
      }
    }
  }

  lemma AppendedAreUnique(rows: seq<RawReservation>, plan: seq<Assignment>)
    requires UniqueRows(rows) && Independent(plan) && Unreserved(rows, plan)
    ensures UniqueRows(rows + ActiveRows(plan))
  {
    var added := ActiveRows(plan);
    forall i, j | 0 <= i < |rows| && 0 <= j < |added| ensures rows[i].id != added[j].id {
      assert plan[j] in plan && rows[i] in rows;
      assert added[j].id == HashText(plan[j].reservationHash);
    }
  }

  /** The reservations after the writes. */
  lemma RowsAfter(policy: Policy, db: Database, plan: seq<Assignment>, valid: seq<Reservation>)
    returns (after: seq<Reservation>)
    requires policy.Lawful() && UniqueIds(db.workspaces) && UniqueRows(db.rows)
    requires Plan(policy, db.workspaces, db.rows) == Ok(plan) && Validate(policy, db.rows) == Ok(valid)
    ensures after == valid + NewReservations(plan)
    ensures Validate(policy, db.rows + ActiveRows(plan)) == Ok(after)
    ensures UniqueRows(db.rows + ActiveRows(plan)) && UniqueReservations(after)
    ensures forall r :: r in after ==> r.id in Index(after) && Index(after)[r.id] == r
  {
    PlanIsFresh(policy, db.workspaces, db.rows, plan);
    PlannedSlugsParse(policy, db.workspaces, db.rows, plan);
    NewRowsAreValid(policy, plan);
    ValidateConcat(policy, db.rows, ActiveRows(plan));
    after := valid + NewReservations(plan);
    AppendedAreUnique(db.rows, plan);
    ValidatedAreUnique(policy, db.rows + ActiveRows(plan));
    IndexMembers(after);
  }

  /** The workspace at one place after the writes, and the reservation it owns. */
  lemma WorkspaceAfter(policy: Policy, db: Database, plan: seq<Assignment>, p: Parts, after: seq<Reservation>,
                       w: Workspace)
    requires policy.Lawful() && UniqueIds(db.workspaces) && UniqueRows(db.rows)
    requires Plan(policy, db.workspaces, db.rows) == Ok(plan) && PartsOf(policy, db.workspaces, db.rows, plan, p)
    requires after == p.valid + NewReservations(plan)
    requires forall r :: r in after ==> r.id in Index(after) && Index(after)[r.id] == r
    requires w in db.workspaces && (Named(w) || w.signInSlug == Absent)
    ensures Owned(policy, Index(after), FillAll(w, plan))
    ensures Named(w) ==> FillAll(w, plan) == w
  {
    var reservations := Index(p.valid);
    PlanIsFresh(policy, db.workspaces, db.rows, plan);
    PlannedSlugsParse(policy, db.workspaces, db.rows, plan);
    FillAllKeeps(w, plan);
    if Named(w) {
      assert w in p.named;
      ScanSettles(policy, reservations, NOTHING_SCANNED, p.named);
      MissingMembers(reservations, p.named);
      IndexMembers(p.valid);
      if Sha256(SlugOf(w)) !in reservations {
        PlannedIsReserved(plan, after, p.valid, ReserveFor(w));
      } else {
        assert reservations[Sha256(SlugOf(w))] in after;
      }
    } else {
      assert w in p.unnamed;
      AssignFits(policy, p.unnamed, p.scan.occupied.Keys, reservations.Keys, p.added);
      var k :| 0 <= k < |p.unnamed| && p.unnamed[k] == w;
      assert Fits(policy, w, p.added[k], p.scan.occupied.Keys, reservations.Keys);
      var at := |plan| - |p.added| + k;
      assert plan[at] == p.added[k];
      FillAllAt(w, plan, at);
      PlannedIsReserved(plan, after, p.valid, plan[at]);
    }
  }

  lemma PlannedIsReserved(plan: seq<Assignment>, after: seq<Reservation>, valid: seq<Reservation>, a: Assignment)
    requires a in plan && after == valid + NewReservations(plan)
    ensures NewReservation(a) in after
  {
    var i :| 0 <= i < |plan| && plan[i] == a;
    assert NewReservations(plan)[i] == NewReservation(a);
  }

  lemma AddedIsWorn(policy: Policy, db: Database, plan: seq<Assignment>, p: Parts, k: nat)
    requires UniqueIds(db.workspaces) && UniqueRows(db.rows)
    requires Plan(policy, db.workspaces, db.rows) == Ok(plan) && PartsOf(policy, db.workspaces, db.rows, plan, p)
    requires k < |p.added| == |p.unnamed| && p.unnamed[k].signInSlug == Absent
    ensures FillAll(p.unnamed[k], plan).signInSlug == Present(p.added[k].slug)
  {
    AssignFits(policy, p.unnamed, p.scan.occupied.Keys, Index(p.valid).Keys, p.added);
    assert Fits(policy, p.unnamed[k], p.added[k], p.scan.occupied.Keys, Index(p.valid).Keys);
    PlanIsFresh(policy, db.workspaces, db.rows, plan);
    var at := |plan| - |p.added| + k;
    assert plan[at] == p.added[k];
    FillAllAt(p.unnamed[k], plan, at);
  }

  lemma MissingIsWorn(reservations: map<Digest, Reservation>, named: seq<Workspace>, plan: seq<Assignment>,
                      a: Assignment)
    returns (w: Workspace)
    requires a in Missing(reservations, named) && forall v :: v in named ==> Named(v)
    ensures w in named && SlugOf(FillAll(w, plan)) == a.slug
  {
    MissingMembers(reservations, named);
    w :| w in named && Sha256(SlugOf(w)) !in reservations && a == ReserveFor(w);
    FillAllKeeps(w, plan);
  }

  /** Every planned assignment is found in its own workspace afterwards. */
  lemma PlannedIsWorn(policy: Policy, db: Database, plan: seq<Assignment>, p: Parts, a: Assignment)
    returns (w: Workspace)
    requires UniqueIds(db.workspaces) && UniqueRows(db.rows)
    requires Plan(policy, db.workspaces, db.rows) == Ok(plan) && PartsOf(policy, db.workspaces, db.rows, plan, p)
    requires forall w :: w in db.workspaces ==> Named(w) || w.signInSlug == Absent
    requires a in plan
    ensures w in db.workspaces && SlugOf(FillAll(w, plan)) == a.slug
  {
    var missing := Missing(Index(p.valid), p.named);
    if a in missing {
      w := MissingIsWorn(Index(p.valid), p.named, plan, a);
    } else {
      var i :| 0 <= i < |plan| && plan[i] == a;
      var k := i - |missing|;
      assert k >= 0;
      AssignFits(policy, p.unnamed, p.scan.occupied.Keys, Index(p.valid).Keys, p.added);
      w := p.unnamed[k];
      assert w in p.unnamed;
      AddedIsWorn(policy, db, plan, p, k);
    }
  }

  /** After a successful apply: named workspaces and old reservations are untouched, all slugs are pairwise
      distinct, and planning again over the new state succeeds with nothing to assign. */
  lemma ReplanIsEmpty(policy: Policy, db: Database, plan: seq<Assignment>, after: Database)
    requires policy.Lawful() && UniqueIds(db.workspaces) && UniqueRows(db.rows)
    requires Plan(policy, db.workspaces, db.rows) == Ok(plan) && WriteAll(db, plan) == Ok(after)
    ensures Plan(policy, after.workspaces, after.rows) == Ok([])
    ensures SlugsDistinct(after.workspaces) && forall w :: w in after.workspaces ==> Named(w)
    ensures db.rows <= after.rows
    ensures |after.workspaces| == |db.workspaces|
    ensures forall i :: 0 <= i < |db.workspaces| && Named(db.workspaces[i]) ==> after.workspaces[i] == db.workspaces[i]
  {
    var p := TakeApart(policy, db.workspaces, db.rows, plan);
    ApplySucceedsIff(policy, db, plan);
    WritesLeave(db, plan);
    var valid := RowsAfter(policy, db, plan, p.valid);
    forall i | 0 <= i < |db.workspaces|
      ensures Owned(policy, Index(valid), after.workspaces[i]) && after.workspaces[i].id == db.workspaces[i].id
      ensures Named(db.workspaces[i]) ==> after.workspaces[i] == db.workspaces[i]
    {
      WorkspaceAfter(policy, db, plan, p, valid, db.workspaces[i]);
      FillAllKeeps(db.workspaces[i], plan);
    }
    OwnedAreDistinct(policy, Index(valid), after.workspaces);
    forall r | r in valid && r.Active? ensures exists w :: w in after.workspaces && r.id == Sha256(SlugOf(w)) {
      var i := ReservationHasWearer(policy, db, plan, p, r);
      assert after.workspaces[i] in after.workspaces;
    }
    OwnedNeedNothing(policy, after.workspaces, valid);
  }

  lemma MatchedHasWearer(policy: Policy, p: Parts, ws: seq<Workspace>, rows: seq<RawReservation>, plan: seq<Assignment>,
                         r: Reservation)
    returns (w: Workspace)
    requires PartsOf(policy, ws, rows, plan, p)
    requires r in p.valid && r.Active?
    ensures w in p.named && r.id == Sha256(SlugOf(w))
  {
    NoOrphanIff(p.valid, p.scan.matched);
    assert !Orphan(r, p.scan.matched);
    ScanCollects(policy, Index(p.valid), NOTHING_SCANNED, p.named);
    HashesMembers(Index(p.valid), p.named, r.id);
    w :| w in p.named && Sha256(SlugOf(w)) == r.id;
  }

  lemma NewHasWearer(policy: Policy, db: Database, plan: seq<Assignment>, p: Parts, r: Reservation)
    returns (w: Workspace)
    requires UniqueIds(db.workspaces) && UniqueRows(db.rows)
    requires Plan(policy, db.workspaces, db.rows) == Ok(plan) && PartsOf(policy, db.workspaces, db.rows, plan, p)
    requires forall w :: w in db.workspaces ==> Named(w) || w.signInSlug == Absent
    requires r in NewReservations(plan)
    ensures w in db.workspaces && r.id == Sha256(SlugOf(FillAll(w, plan)))
  {
    var k :| 0 <= k < |plan| && NewReservations(plan)[k] == r;
    PlanIsFresh(policy, db.workspaces, db.rows, plan);
    assert plan[k] in plan;
    w := PlannedIsWorn(policy, db, plan, p, plan[k]);
  }

  lemma ReservationHasWearer(policy: Policy, db: Database, plan: seq<Assignment>, p: Parts, r: Reservation)
    returns (i: nat)
    requires UniqueIds(db.workspaces) && UniqueRows(db.rows)
    requires Plan(policy, db.workspaces, db.rows) == Ok(plan) && PartsOf(policy, db.workspaces, db.rows, plan, p)
    requires forall w :: w in db.workspaces ==> Named(w) || w.signInSlug == Absent
    requires r in p.valid + NewReservations(plan) && r.Active?
    ensures i < |db.workspaces| && r.id == Sha256(SlugOf(FillAll(db.workspaces[i], plan)))
  {
    var w: Workspace;
    if r in p.valid {
      w := MatchedHasWearer(policy, p, db.workspaces, db.rows, plan, r);
      FillAllKeeps(w, plan);
    } else {
      w := NewHasWearer(policy, db, plan, p, r);
    }
    i :| 0 <= i < |db.workspaces| && db.workspaces[i] == w;
  }
}
