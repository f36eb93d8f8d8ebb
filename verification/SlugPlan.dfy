/**
 The sign-in slug planner: a complete, deterministic backfill is built before any write.  A reservation's id
 is the hash of its slug; existing and retired reservations both occupy their hash for good.
 */
module SlugPlan {
  import opened Wrappers
  import opened Seqs
  import opened SignInSlug

  /** How slugs are parsed, and which ones are tried for a workspace's name and id. */
  datatype Policy = Policy(parse: string -> Option<string>, candidates: (string, nat) -> seq<string>) {
    /** Every candidate parses to itself. */
    ghost predicate Lawful() {
      forall name: string, id: nat, c: string :: c in candidates(name, id) ==> parse(c) == Some(c)
    }
  }

  /** A 64-digit lower-case hash: SHA-256 of one slug, or of none.  SHA-256 is taken to be injective. */
  datatype Digest = Sha256(slug: string) | Unattained(tag: int)

  datatype RawId = HashText(digest: Digest) | NotAHash(tag: int)

  datatype RawText = NoText | Text(text: string) | NotText

  datatype RawOwner = NoOwner | ObjectId(id: nat) | NotObjectId

  datatype RawState = ActiveState | RetiredState | OtherState

  /** A stored reservation, as read without a schema. */
  datatype RawReservation = RawReservation(id: RawId, slug: RawText, workspaceId: RawOwner, state: RawState)

  datatype Reservation = Active(id: Digest, slug: string, workspaceId: nat) | Retired(id: Digest)

  /** `signInSlug` as stored; both `Null` and the empty text are falsy but present. */
  datatype SlugField = Absent | Null | Present(text: string)

  datatype Workspace = Workspace(id: nat, name: string, signInSlug: SlugField)

  datatype Assignment = Assignment(workspaceId: nat, slug: string, reservationHash: Digest, writeWorkspaceSlug: bool)

  datatype PlanError =
    | InvalidHashId
    | InvalidState(id: Digest)
    | RetainsLiveFields(id: Digest)
    | InvalidReservationSlug(id: Digest)
    | SlugHashMismatch(id: Digest)
    | InvalidOwner(id: Digest)
    | InvalidWorkspaceSlug(workspace: nat)
    | DuplicateSlug(slug: string, first: nat, second: nat)
    | ReservationConflict(slug: string)
    | OrphanReservation(id: Digest)
    | NoCandidate(workspace: nat)

  predicate Named(w: Workspace) { w.signInSlug.Present? && w.signInSlug.text != "" }

  predicate Unnamed(w: Workspace) { !Named(w) }

  function SlugOf(w: Workspace): string { if w.signInSlug.Present? then w.signInSlug.text else "" }

  function Prepend<T>(prefix: seq<T>, rest: Result<seq<T>, PlanError>): Result<seq<T>, PlanError> {
    match rest case Err(e) => Err(e) case Ok(items) => Ok(prefix + items)
  }

  lemma PrependTwice<T>(a: seq<T>, b: seq<T>, rest: Result<seq<T>, PlanError>)
    ensures Prepend([], rest) == rest
    ensures Prepend(a, Prepend(b, rest)) == Prepend(a + b, rest)
    ensures Prepend(a, Ok([])) == Ok(a)
  {
    assert a + [] == a;
    if rest.Ok? { assert a + (b + rest.value) == a + b + rest.value && [] + rest.value == rest.value; }
  }

  // ---- validateReservationRow ----

  function ValidateRow(policy: Policy, row: RawReservation): Result<Reservation, PlanError> {
    match row.id
    case NotAHash(_) => Err(InvalidHashId)
    case HashText(id) =>
      match row.state
      case OtherState => Err(InvalidState(id))
      case RetiredState =>
        if row.slug != NoText || row.workspaceId != NoOwner then Err(RetainsLiveFields(id))
        else Ok(Retired(id))
      case ActiveState =>
        if !row.slug.Text? || policy.parse(row.slug.text) != Some(row.slug.text) then Err(InvalidReservationSlug(id))
        else if Sha256(row.slug.text) != id then Err(SlugHashMismatch(id))
        else if !row.workspaceId.ObjectId? then Err(InvalidOwner(id))
        else Ok(Active(id, row.slug.text, row.workspaceId.id))
  }

  function Validate(policy: Policy, rows: seq<RawReservation>): Result<seq<Reservation>, PlanError> {
    if rows == [] then Ok([])
    else
      match ValidateRow(policy, rows[0])
      case Err(e) => Err(e)
      case Ok(r) => Prepend([r], Validate(policy, rows[1..]))
  }

  /** `new Map(rows.map(row => [row._id, row]))`: a later row replaces an earlier one. */
  function Index(rows: seq<Reservation>): map<Digest, Reservation> {
    if rows == [] then map[] else Index(rows[..|rows| - 1])[rows[|rows| - 1].id := rows[|rows| - 1]]
  }

  // ---- The three phases ----

  function Insert(w: Workspace, sorted: seq<Workspace>): seq<Workspace> {
    if sorted == [] || w.id <= sorted[0].id then [w] + sorted else [sorted[0]] + Insert(w, sorted[1..])
  }

  /** Stable, by id. */
  function SortById(ws: seq<Workspace>): seq<Workspace> {
    if ws == [] then [] else Insert(ws[0], SortById(ws[1..]))
  }

  datatype Scan = Scan(occupied: map<string, nat>, matched: set<Digest>, assignments: seq<Assignment>)

  const NOTHING_SCANNED := Scan(map[], {}, [])

  predicate Matching(r: Reservation, w: Workspace) { r.Active? && r.slug == SlugOf(w) && r.workspaceId == w.id }

  function ScanOne(policy: Policy, reservations: map<Digest, Reservation>, scan: Scan,
                   w: Workspace): Result<Scan, PlanError>
  {
    var slug := SlugOf(w);
    var hash := Sha256(slug);
    if policy.parse(slug) != Some(slug) then Err(InvalidWorkspaceSlug(w.id))
    else if slug in scan.occupied then Err(DuplicateSlug(slug, scan.occupied[slug], w.id))
    else if hash in reservations then
      if !Matching(reservations[hash], w) then Err(ReservationConflict(slug))
      else Ok(Scan(scan.occupied[slug := w.id], scan.matched + {hash}, scan.assignments))
    else Ok(Scan(scan.occupied[slug := w.id], scan.matched, scan.assignments + [Assignment(w.id, slug, hash, false)]))
  }

  function ScanNamed(policy: Policy, reservations: map<Digest, Reservation>, scan: Scan,
                     ws: seq<Workspace>): Result<Scan, PlanError>
    decreases |ws|
  {
    if ws == [] then Ok(scan)
    else match ScanOne(policy, reservations, scan, ws[0])
      case Err(e) => Err(e)
      case Ok(next) => ScanNamed(policy, reservations, next, ws[1..])
  }

  predicate Orphan(r: Reservation, matched: set<Digest>) { r.Active? && r.id !in matched }

  function FirstOrphan(rows: seq<Reservation>, matched: set<Digest>): Option<Digest> {
    if rows == [] then None
    else if Orphan(rows[0], matched) then Some(rows[0].id)
    else FirstOrphan(rows[1..], matched)
  }

  predicate Free(slug: string, occupied: set<string>, reserved: set<Digest>) {
    slug !in occupied && Sha256(slug) !in reserved
  }

  function FirstFree(candidates: seq<string>, occupied: set<string>, reserved: set<Digest>): Option<string> {
    if candidates == [] then None
    else if Free(candidates[0], occupied, reserved) then Some(candidates[0])
    else FirstFree(candidates[1..], occupied, reserved)
  }

  /** Candidates are tried in order, and none is passed over that was free. */
  lemma {:induction false} FirstFreeIsFirst(candidates: seq<string>, occupied: set<string>, reserved: set<Digest>)
    ensures match FirstFree(candidates, occupied, reserved)
            case Some(slug) => exists i ::
              && 0 <= i < |candidates| && candidates[i] == slug && Free(slug, occupied, reserved)
              && forall k :: 0 <= k < i ==> !Free(candidates[k], occupied, reserved)
            case None => forall k :: 0 <= k < |candidates| ==> !Free(candidates[k], occupied, reserved)
  {
    if candidates != [] && !Free(candidates[0], occupied, reserved) {
      FirstFreeIsFirst(candidates[1..], occupied, reserved);
      match FirstFree(candidates[1..], occupied, reserved)
      case None =>
      case Some(slug) =>
        var i :| && 0 <= i < |candidates| - 1 && candidates[1..][i] == slug
                 && forall k :: 0 <= k < i ==> !Free(candidates[1..][k], occupied, reserved);
        assert candidates[i + 1] == slug;
        forall k | 0 <= k < i + 1 ensures !Free(candidates[k], occupied, reserved) {
          if k > 0 { assert candidates[k] == candidates[1..][k - 1]; }
        }
    }
  }

  function AssignUnnamed(policy: Policy, ws: seq<Workspace>, occupied: set<string>, reserved: set<Digest>)
    : Result<seq<Assignment>, PlanError>
  {
    if ws == [] then Ok([])
    else match FirstFree(policy.candidates(ws[0].name, ws[0].id), occupied, reserved)
      case None => Err(NoCandidate(ws[0].id))
      case Some(slug) =>
        if slug == "" then Err(NoCandidate(ws[0].id))
        else Prepend([Assignment(ws[0].id, slug, Sha256(slug), true)],
                     AssignUnnamed(policy, ws[1..], occupied + {slug}, reserved + {Sha256(slug)}))
  }

  function PlanValid(policy: Policy, sorted: seq<Workspace>,
                     valid: seq<Reservation>): Result<seq<Assignment>, PlanError>
  {
    var reservations := Index(valid);
    match ScanNamed(policy, reservations, NOTHING_SCANNED, Filter(Named, sorted))
    case Err(e) => Err(e)
    case Ok(scan) =>
      match FirstOrphan(valid, scan.matched)
      case Some(id) => Err(OrphanReservation(id))
      case None =>
        match AssignUnnamed(policy, Filter(Unnamed, sorted), scan.occupied.Keys, reservations.Keys)
        case Err(e) => Err(e)
        case Ok(added) => Ok(scan.assignments + added)
  }

  function Plan(policy: Policy, workspaces: seq<Workspace>,
                rows: seq<RawReservation>): Result<seq<Assignment>, PlanError>
  {
    match Validate(policy, rows)
    case Err(e) => Err(e)
    case Ok(valid) => PlanValid(policy, SortById(workspaces), valid)
  }

  // ---- The planner ----

  method ValidateAll(policy: Policy, rows: seq<RawReservation>) returns (r: Result<seq<Reservation>, PlanError>)
    ensures r == Validate(policy, rows)
  {
    var valid: seq<Reservation>, i := [], 0;
    PrependTwice([], [], Validate(policy, rows));
    while i < |rows|
      invariant 0 <= i <= |rows|
      invariant Validate(policy, rows) == Prepend(valid, Validate(policy, rows[i..]))
    {
      assert rows[i..][1..] == rows[i + 1..];
      match ValidateRow(policy, rows[i])
      case Err(e) => return Err(e);
      case Ok(v) =>
        PrependTwice(valid, [v], Validate(policy, rows[i + 1..]));
        valid := valid + [v];
        i := i + 1;
    }
    PrependTwice(valid, [], Ok([]));
    return Ok(valid);
  }

  method ScanWorkspaces(policy: Policy, reservations: map<Digest, Reservation>, named: seq<Workspace>)
    returns (r: Result<Scan, PlanError>)
    ensures r == ScanNamed(policy, reservations, NOTHING_SCANNED, named)
  {
    var scan, i := NOTHING_SCANNED, 0;
    while i < |named|
      invariant 0 <= i <= |named|
      invariant ScanNamed(policy, reservations, NOTHING_SCANNED, named) ==
                  ScanNamed(policy, reservations, scan, named[i..])
    {
      match ScanOne(policy, reservations, scan, named[i])
      case Err(e) => return Err(e);
      case Ok(next) => scan := next;
      i := i + 1;
    }
    return Ok(scan);
  }

  method FindOrphan(rows: seq<Reservation>, matched: set<Digest>) returns (r: Option<Digest>)
    ensures r == FirstOrphan(rows, matched)
  {
    var i := 0;
    while i < |rows|
      invariant 0 <= i <= |rows|
      invariant FirstOrphan(rows, matched) == FirstOrphan(rows[i..], matched)
    {
      if Orphan(rows[i], matched) { return Some(rows[i].id); }
      i := i + 1;
    }
    return None;
  }

  method AssignCandidates(policy: Policy, unnamed: seq<Workspace>, occupied: set<string>, reserved: set<Digest>)
    returns (r: Result<seq<Assignment>, PlanError>)
    ensures r == AssignUnnamed(policy, unnamed, occupied, reserved)
  {
    var occupiedSlugs, hashes := occupied, reserved;
    var assignments: seq<Assignment>, i := [], 0;
    PrependTwice([], [], AssignUnnamed(policy, unnamed, occupied, reserved));
    while i < |unnamed|
      invariant 0 <= i <= |unnamed|
      invariant AssignUnnamed(policy, unnamed, occupied, reserved)
                  == Prepend(assignments, AssignUnnamed(policy, unnamed[i..], occupiedSlugs, hashes))
    {
      var w := unnamed[i];
      var slug := FirstFree(policy.candidates(w.name, w.id), occupiedSlugs, hashes);
      if slug.None? || slug.value == "" { return Err(NoCandidate(w.id)); }
      occupiedSlugs := occupiedSlugs + {slug.value};
      hashes := hashes + {Sha256(slug.value)};
      var assignment := Assignment(w.id, slug.value, Sha256(slug.value), true);
      assert unnamed[i..][1..] == unnamed[i + 1..];
      PrependTwice(assignments, [assignment], AssignUnnamed(policy, unnamed[i + 1..], occupiedSlugs, hashes));
      assignments := assignments + [assignment];
      i := i + 1;
    }
    PrependTwice(assignments, [], Ok([]));
    return Ok(assignments);
  }

  method PlanAssignments(policy: Policy, workspaces: seq<Workspace>, rows: seq<RawReservation>)
    returns (r: Result<seq<Assignment>, PlanError>)
    ensures r == Plan(policy, workspaces, rows)
  {
    var sorted := SortById(workspaces);
    var validated := ValidateAll(policy, rows);
    if validated.Err? { return Err(validated.error); }
    var reservations := Index(validated.value);
    var scanned := ScanWorkspaces(policy, reservations, Filter(Named, sorted));
    if scanned.Err? { return Err(scanned.error); }
    var orphan := FindOrphan(validated.value, scanned.value.matched);
    if orphan.Some? { return Err(OrphanReservation(orphan.value)); }
    var added := AssignCandidates(policy, Filter(Unnamed, sorted), scanned.value.occupied.Keys, reservations.Keys);
    if added.Err? { return Err(added.error); }
    return Ok(scanned.value.assignments + added.value);
  }

  /** The policy in use is lawful, so what is proved of lawful policies holds of it. */
  lemma SignInPolicyIsLawful(naming: Naming)
    requires naming.Lawful()
    ensures Policy(naming.Parse, naming.Candidates).Lawful()
  {
    forall name: string, id: nat, c: string | c in naming.Candidates(name, id) ensures naming.Parse(c) == Some(c) {
      CandidatesParse(naming, name, id);
    }
  }
}
