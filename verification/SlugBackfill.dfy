/**
 Applying a slug plan: when the writes go through, which state they leave, and that planning again over that
 state finds nothing left to do.
 */
module SlugBackfill {
  import opened Wrappers
  import opened Seqs
  import opened SlugPlan
  import opened SlugOrder

  // ---- What a successful scan has established ----

  /** Assignments for the named workspaces that have no reservation yet. */
  function Missing(reservations: map<Digest, Reservation>, ws: seq<Workspace>): seq<Assignment> {
    if ws == [] then []
    else
      var hash := Sha256(SlugOf(ws[0]));
      (if hash in reservations then [] else [Assignment(ws[0].id, SlugOf(ws[0]), hash, false)]) +
      Missing(reservations, ws[1..])
  }

  ghost predicate SlugsDistinct(ws: seq<Workspace>) {
    forall i, j :: 0 <= i < j < |ws| ==> SlugOf(ws[i]) != SlugOf(ws[j])
  }

  /** A named workspace the planner accepts. */
  ghost predicate Settled(policy: Policy, reservations: map<Digest, Reservation>, w: Workspace) {
    && policy.parse(SlugOf(w)) == Some(SlugOf(w))
    && (Sha256(SlugOf(w)) in reservations ==> Matching(reservations[Sha256(SlugOf(w))], w))
  }

  lemma {:induction false} ScanSettles(policy: Policy, reservations: map<Digest, Reservation>, scan: Scan,
                                       ws: seq<Workspace>)
    requires ScanNamed(policy, reservations, scan, ws).Ok?
    ensures forall w :: w in ws ==> Settled(policy, reservations, w) && SlugOf(w) !in scan.occupied
    ensures SlugsDistinct(ws)
    decreases |ws|
  {
    if ws != [] {
      var next := ScanOne(policy, reservations, scan, ws[0]).value;
      ScanSettles(policy, reservations, next, ws[1..]);
      assert ws == [ws[0]] + ws[1..];
      assert SlugOf(ws[0]) in next.occupied;
      forall j | 0 < j < |ws| ensures SlugOf(ws[0]) != SlugOf(ws[j]) { assert ws[j] in ws[1..]; }
    }
  }

  lemma {:induction false} ScanAssigns(policy: Policy, reservations: map<Digest, Reservation>, scan: Scan,
                                       ws: seq<Workspace>)
    requires ScanNamed(policy, reservations, scan, ws).Ok?
    ensures ScanNamed(policy, reservations, scan, ws).value.assignments == scan.assignments + Missing(reservations, ws)
    decreases |ws|
  {
    if ws != [] {
      var next := ScanOne(policy, reservations, scan, ws[0]).value;
      ScanAssigns(policy, reservations, next, ws[1..]);
      assert next.assignments + Missing(reservations, ws[1..]) == scan.assignments + Missing(reservations, ws);
    }
  }

  /** The slugs in use and the reservations matched, as the scan collects them. */
  function Slugs(ws: seq<Workspace>): set<string> {
    if ws == [] then {} else {SlugOf(ws[0])} + Slugs(ws[1..])
  }

  function Hashes(reservations: map<Digest, Reservation>, ws: seq<Workspace>): set<Digest> {
    if ws == [] then {}
    else (if Sha256(SlugOf(ws[0])) in reservations then {Sha256(SlugOf(ws[0]))} else {}) + Hashes(reservations, ws[1..])
  }

  lemma {:induction false} SlugsMembers(ws: seq<Workspace>, slug: string)
    ensures slug in Slugs(ws) <==> exists w :: w in ws && SlugOf(w) == slug
  {
    if ws != [] {
      SlugsMembers(ws[1..], slug);
      assert ws == [ws[0]] + ws[1..];
    }
  }

  lemma {:induction false} HashesMembers(reservations: map<Digest, Reservation>, ws: seq<Workspace>, hash: Digest)
    ensures hash in Hashes(reservations, ws) <==>
              hash in reservations && exists w :: w in ws && Sha256(SlugOf(w)) == hash
  {
    if ws != [] {
      HashesMembers(reservations, ws[1..], hash);
      assert ws == [ws[0]] + ws[1..];
    }
  }

  lemma {:induction false} ScanCollects(policy: Policy, reservations: map<Digest, Reservation>, scan: Scan,
                                        ws: seq<Workspace>)
    requires ScanNamed(policy, reservations, scan, ws).Ok?
    ensures ScanNamed(policy, reservations, scan, ws).value.occupied.Keys == scan.occupied.Keys + Slugs(ws)
    ensures ScanNamed(policy, reservations, scan, ws).value.matched == scan.matched + Hashes(reservations, ws)
    decreases |ws|
  {
    if ws != [] {
      ScanCollects(policy, reservations, ScanOne(policy, reservations, scan, ws[0]).value, ws[1..]);
    }
  }

  /** The converse: settled workspaces with distinct slugs are scanned without complaint. */
  lemma {:induction false} SettledScans(policy: Policy, reservations: map<Digest, Reservation>, scan: Scan,
                                        ws: seq<Workspace>)
    requires forall w :: w in ws ==> Settled(policy, reservations, w) && SlugOf(w) !in scan.occupied
    requires SlugsDistinct(ws)
    ensures ScanNamed(policy, reservations, scan, ws).Ok?
    decreases |ws|
  {
    if ws != [] {
      assert ws[0] in ws;
      var next := ScanOne(policy, reservations, scan, ws[0]).value;
      forall w | w in ws[1..] ensures SlugOf(w) !in next.occupied {
        var i :| 0 <= i < |ws[1..]| && ws[1..][i] == w;
        assert SlugOf(ws[0]) != SlugOf(ws[i + 1]);
      }
      SettledScans(policy, reservations, next, ws[1..]);
    }
  }

  predicate Offered(policy: Policy, w: Workspace, slug: string)
  {
    slug in policy.candidates(w.name, w.id)
  }

  /** Every assignment takes a candidate of its workspace that was free and is free no more. */
  ghost predicate Fits(policy: Policy, w: Workspace, a: Assignment, occupied: set<string>, reserved: set<Digest>)
  {
    && a == Assignment(w.id, a.slug, Sha256(a.slug), true)
    && a.slug != "" && Offered(policy, w, a.slug)
    && Free(a.slug, occupied, reserved)
  }

  lemma FirstFits(policy: Policy, w: Workspace, occupied: set<string>, reserved: set<Digest>, slug: string)
    requires slug != ""
    requires FirstFree(policy.candidates(w.name, w.id), occupied, reserved) == Some(slug)
    ensures Fits(policy, w, Assignment(w.id, slug, Sha256(slug), true), occupied, reserved)
  {
    FirstFreeIsFirst(policy.candidates(w.name, w.id), occupied, reserved);
  }

  lemma {:induction false} AssignFits(policy: Policy, ws: seq<Workspace>, occupied: set<string>, reserved: set<Digest>,
                                      added: seq<Assignment>)
    requires AssignUnnamed(policy, ws, occupied, reserved) == Ok(added)
    ensures |added| == |ws|
    ensures forall i :: 0 <= i < |ws| ==> Fits(policy, ws[i], added[i], occupied, reserved)
    ensures forall i, j :: 0 <= i < j < |ws| ==> added[i].slug != added[j].slug
    decreases |ws|
  {
    if ws != [] {
      var slug := FirstFree(policy.candidates(ws[0].name, ws[0].id), occupied, reserved).value;
      var rest := AssignUnnamed(policy, ws[1..], occupied + {slug}, reserved + {Sha256(slug)}).value;
      AssignFits(policy, ws[1..], occupied + {slug}, reserved + {Sha256(slug)}, rest);
      FirstFits(policy, ws[0], occupied, reserved, slug);
      assert added == [Assignment(ws[0].id, slug, Sha256(slug), true)] + rest;
      forall i | 0 <= i < |rest| ensures Fits(policy, ws[i + 1], rest[i], occupied, reserved) && rest[i].slug != slug {
        assert Fits(policy, ws[1..][i], rest[i], occupied + {slug}, reserved + {Sha256(slug)});
      }
    }
  }

  // ---- The writes ----

  datatype Database = Database(workspaces: seq<Workspace>, rows: seq<RawReservation>)

  datatype ApplyError = DuplicateKey(id: Digest) | ChangedDuringBackfill(workspace: nat)

  function ActiveRow(a: Assignment): RawReservation {
    RawReservation(HashText(a.reservationHash), Text(a.slug), ObjectId(a.workspaceId), ActiveState)
  }

  predicate HasRow(rows: seq<RawReservation>, id: RawId) { exists r :: r in rows && r.id == id }

  /** The filter of the workspace write: the id, and `signInSlug` does not exist. */
  predicate Fillable(w: Workspace, a: Assignment) { w.id == a.workspaceId && w.signInSlug == Absent }

  predicate CanFill(ws: seq<Workspace>, a: Assignment) { exists w :: w in ws && Fillable(w, a) }

  function FillOne(w: Workspace, a: Assignment): Workspace {
    if a.writeWorkspaceSlug && Fillable(w, a) then w.(signInSlug := Present(a.slug)) else w
  }

  function FillEach(ws: seq<Workspace>, a: Assignment): (r: seq<Workspace>)
    ensures |r| == |ws| && forall i :: 0 <= i < |ws| ==> r[i] == FillOne(ws[i], a)
  {
    if ws == [] then [] else [FillOne(ws[0], a)] + FillEach(ws[1..], a)
  }

  function Write(db: Database, a: Assignment): Result<Database, ApplyError> {
    if HasRow(db.rows, HashText(a.reservationHash)) then Err(DuplicateKey(a.reservationHash))
    else if a.writeWorkspaceSlug && !CanFill(db.workspaces, a) then Err(ChangedDuringBackfill(a.workspaceId))
    else Ok(Database(FillEach(db.workspaces, a), db.rows + [ActiveRow(a)]))
  }

  function WriteAll(db: Database, assignments: seq<Assignment>): Result<Database, ApplyError>
    decreases |assignments|
  {
    if assignments == [] then Ok(db)
    else match Write(db, assignments[0])
      case Err(e) => Err(e)
      case Ok(next) => WriteAll(next, assignments[1..])
  }

  /** The transaction: all writes or none. */
  class Backfill {
    var db: Database

    method Apply(assignments: seq<Assignment>) returns (r: Result<(), ApplyError>)
      modifies this
      ensures match WriteAll(old(db), assignments)
              case Ok(after) => r == Ok(()) && db == after
              case Err(e) => r == Err(e) && db == old(db)
    {
      var pending, i := db, 0;
      while i < |assignments|
        invariant 0 <= i <= |assignments|
        invariant db == old(db) && WriteAll(pending, assignments[i..]) == WriteAll(old(db), assignments)
      {
        match Write(pending, assignments[i])
        case Err(e) => return Err(e);
        case Ok(next) => pending := next;
        i := i + 1;
      }
      db := pending;
      return Ok(());
    }
  }

  ghost predicate Independent(assignments: seq<Assignment>) {
    forall i, j :: 0 <= i < j < |assignments| ==>
      && assignments[i].workspaceId != assignments[j].workspaceId
      && assignments[i].reservationHash != assignments[j].reservationHash
  }

  function FillAll(w: Workspace, assignments: seq<Assignment>): Workspace
    decreases |assignments|
  {
    if assignments == [] then w else FillAll(FillOne(w, assignments[0]), assignments[1..])
  }

  function ActiveRows(assignments: seq<Assignment>): (r: seq<RawReservation>)
    ensures |r| == |assignments| && forall i :: 0 <= i < |r| ==> r[i] == ActiveRow(assignments[i])
  {
    if assignments == [] then [] else [ActiveRow(assignments[0])] + ActiveRows(assignments[1..])
  }

  ghost predicate AllCanFill(ws: seq<Workspace>, assignments: seq<Assignment>) {
    forall a :: a in assignments && a.writeWorkspaceSlug ==> CanFill(ws, a)
  }

  /** Filling one workspace leaves the others as fillable as they were. */
  lemma FillLeavesOthers(ws: seq<Workspace>, a: Assignment, b: Assignment)
    requires a.workspaceId != b.workspaceId
    ensures CanFill(FillEach(ws, a), b) <==> CanFill(ws, b)
  {
    var after := FillEach(ws, a);
    if CanFill(ws, b) {
      var w :| w in ws && Fillable(w, b);
      var i :| 0 <= i < |ws| && ws[i] == w;
      assert after[i] == w;
    }
    if CanFill(after, b) {
      var w :| w in after && Fillable(w, b);
      var i :| 0 <= i < |after| && after[i] == w;
      assert ws[i] == w;
    }
  }

  lemma OneCanFill(ws: seq<Workspace>, a: Assignment, rest: seq<Assignment>)
    requires Independent([a] + rest)
    ensures AllCanFill(FillEach(ws, a), rest) <==> AllCanFill(ws, rest)
  {
    forall b | b in rest ensures CanFill(FillEach(ws, a), b) <==> CanFill(ws, b) {
      var i :| 0 <= i < |rest| && rest[i] == b;
      assert ([a] + rest)[0] == a && ([a] + rest)[i + 1] == b;
      FillLeavesOthers(ws, a, b);
    }
  }

  ghost predicate Unreserved(rows: seq<RawReservation>, assignments: seq<Assignment>) {
    forall a :: a in assignments ==> !HasRow(rows, HashText(a.reservationHash))
  }

  lemma UnreservedStays(rows: seq<RawReservation>, a: Assignment, rest: seq<Assignment>)
    requires Independent([a] + rest) && Unreserved(rows, [a] + rest)
    ensures Unreserved(rows + [ActiveRow(a)], rest)
  {
    var all := [a] + rest;
    forall b | b in rest ensures !HasRow(rows + [ActiveRow(a)], HashText(b.reservationHash)) {
      var i :| 0 <= i < |rest| && rest[i] == b;
      assert all[0] == a && all[i + 1] == b;
      assert b in all;
    }
  }

  /** The workspace that an assignment was to fill and could not. */
  predicate Unfilled(ws: seq<Workspace>, assignments: seq<Assignment>, id: nat) {
    exists a :: a in assignments && a.workspaceId == id && a.writeWorkspaceSlug && !CanFill(ws, a)
  }

  lemma UnfilledLater(ws: seq<Workspace>, a: Assignment, rest: seq<Assignment>, id: nat)
    requires Independent([a] + rest) && Unfilled(FillEach(ws, a), rest, id)
    ensures Unfilled(ws, [a] + rest, id)
  {
    var b :| b in rest && b.workspaceId == id && b.writeWorkspaceSlug && !CanFill(FillEach(ws, a), b);
    var i :| 0 <= i < |rest| && rest[i] == b;
    assert ([a] + rest)[0] == a && ([a] + rest)[i + 1] == b;
    FillLeavesOthers(ws, a, b);
    assert b in [a] + rest;
  }

  /** Independent writes of unreserved hashes all go through exactly when every workspace to be written
      still has no slug field; otherwise the error names one that has. */
  lemma {:induction false} WritesGoThroughIff(db: Database, assignments: seq<Assignment>)
    requires Independent(assignments) && Unreserved(db.rows, assignments)
    ensures WriteAll(db, assignments).Ok? <==> AllCanFill(db.workspaces, assignments)
    ensures WriteAll(db, assignments).Err? ==>
              var e := WriteAll(db, assignments).error;
              e.ChangedDuringBackfill? && Unfilled(db.workspaces, assignments, e.workspace)
    decreases |assignments|
  {
    if assignments != [] {
      var a, rest := assignments[0], assignments[1..];
      assert assignments == [a] + rest && a in assignments;
      if Write(db, a).Ok? {
        UnreservedStays(db.rows, a, rest);
        OneCanFill(db.workspaces, a, rest);
        WritesGoThroughIff(Write(db, a).value, rest);
        if WriteAll(db, assignments).Err? {
          UnfilledLater(db.workspaces, a, rest, WriteAll(db, assignments).error.workspace);
        }
      }
    }
  }

  lemma {:induction false} WritesAppend(db: Database, assignments: seq<Assignment>)
    requires WriteAll(db, assignments).Ok?
    ensures WriteAll(db, assignments).value.rows == db.rows + ActiveRows(assignments)
    decreases |assignments|
  {
    if assignments == [] {
      assert db.rows + [] == db.rows;
    } else {
      var next := Write(db, assignments[0]).value;
      WritesAppend(next, assignments[1..]);
      Assoc(db.rows, [ActiveRow(assignments[0])], ActiveRows(assignments[1..]));
    }
  }

  lemma {:induction false} WritesFill(db: Database, assignments: seq<Assignment>, i: nat)
    requires WriteAll(db, assignments).Ok? && i < |db.workspaces|
    ensures |WriteAll(db, assignments).value.workspaces| == |db.workspaces|
    ensures WriteAll(db, assignments).value.workspaces[i] == FillAll(db.workspaces[i], assignments)
    decreases |assignments|
  {
    if assignments != [] { WritesFill(Write(db, assignments[0]).value, assignments[1..], i); }
  }

  lemma {:induction false} WritesKeepLength(db: Database, assignments: seq<Assignment>)
    requires WriteAll(db, assignments).Ok?
    ensures |WriteAll(db, assignments).value.workspaces| == |db.workspaces|
    decreases |assignments|
  {
    if assignments != [] { WritesKeepLength(Write(db, assignments[0]).value, assignments[1..]); }
  }

  /** What writes that go through leave: the new reservations behind the old ones, and in each workspace
      what its own assignment says. */
  lemma WritesLeave(db: Database, assignments: seq<Assignment>)
    requires WriteAll(db, assignments).Ok?
    ensures var after := WriteAll(db, assignments).value;
            && after.rows == db.rows + ActiveRows(assignments)
            && |after.workspaces| == |db.workspaces|
            && forall i :: 0 <= i < |db.workspaces| ==> after.workspaces[i] == FillAll(db.workspaces[i], assignments)
  {
    WritesAppend(db, assignments);
    WritesKeepLength(db, assignments);
    forall i | 0 <= i < |db.workspaces|
      ensures WriteAll(db, assignments).value.workspaces[i] == FillAll(db.workspaces[i], assignments) {
      WritesFill(db, assignments, i);
    }
  }

  lemma {:induction false} FillAllAt(w: Workspace, assignments: seq<Assignment>, k: nat)
    requires k < |assignments| && Independent(assignments)
    requires assignments[k].writeWorkspaceSlug && Fillable(w, assignments[k])
    ensures FillAll(w, assignments) == w.(signInSlug := Present(assignments[k].slug))
    decreases |assignments|
  {
    if k == 0 {
      FillAllKeeps(w.(signInSlug := Present(assignments[0].slug)), assignments[1..]);
    } else {
      FillAllAt(w, assignments[1..], k - 1);
    }
  }

  lemma {:induction false} FillAllKeeps(w: Workspace, assignments: seq<Assignment>)
    ensures FillAll(w, assignments).id == w.id
    ensures w.signInSlug != Absent ==> FillAll(w, assignments) == w
    decreases |assignments|
  {
    if assignments != [] { FillAllKeeps(FillOne(w, assignments[0]), assignments[1..]); }
  }
}
