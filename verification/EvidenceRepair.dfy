/**
 The evidence repair over both collections: outdated readiness snapshots are removed first, then evidence
 without provenance is quarantined.  Nobody else writes meanwhile.
 */
module EvidenceRepair {
  import opened Wrappers
  import opened Seqs
  import opened KeysetScan
  import opened EvidenceProvenance

  const MAX_SAFE_INTEGER := 9007199254740991

  const BATCH_SIZE := 500

  datatype RawRevision = Whole(n: int) | NotWhole

  /** A job application; `rest` is everything the repair does not touch. */
  datatype Application = Application(readiness: Option<RawReadiness>, revision: Option<RawRevision>, rest: int)

  datatype Counts = Counts(
    legacyEvidence: nat, malformedEvidence: nat, quarantinedEvidence: nat, attestedEvidence: nat,
    currentReadiness: nat, legacyReadiness: nat, staleReadiness: nat, malformedReadiness: nat,
    invalidReadinessRevision: nat)

  datatype Mode = DryRun | Check | Apply

  datatype Outcome = CheckPassed | CheckFailed | NothingWritten | Refused | Repaired | VerificationFailed

  predicate AnyEvidence(e: Evidence) { true }

  predicate HasReadiness(a: Application) { a.readiness.Some? }

  predicate Undeclared(e: Evidence) { e.provenance.None? }

  function StateOf(a: Application, current: Current): ReadinessState
    requires HasReadiness(a)
  {
    ReadinessStateOf(a.readiness.value, current)
  }

  predicate SafeRevision(a: Application) {
    a.revision.None? || (a.revision.value.Whole? && 0 <= a.revision.value.n < MAX_SAFE_INTEGER)
  }

  predicate Outdated(a: Application, current: Current) {
    HasReadiness(a) && StateOf(a, current) in {LegacyReadiness, Stale}
  }

  /** `$inc` on a missing field starts from 0. */
  function NextRevision(a: Application): RawRevision {
    match a.revision
    case None => Whole(1)
    case Some(Whole(n)) => Whole(n + 1)
    case Some(NotWhole) => NotWhole
  }

  /** A revision is safe exactly when it can be raised: its successor is a positive integer that is still exact. */
  lemma SafeIffRaisable(a: Application)
    ensures SafeRevision(a) <==> NextRevision(a).Whole? && 1 <= NextRevision(a).n <= 0x1F_FFFF_FFFF_FFFF
  {}

  function RemoveOutdated(a: Application, current: Current): Application {
    if Outdated(a, current) then Application(None, Some(NextRevision(a)), a.rest) else a
  }

  function Quarantine(e: Evidence, at: int): Evidence {
    e.(provenance := Some(Declared(Some(1), "legacy-unverifiable", None, None, Some("pre-provenance-contract"),
                                   Some(ValidDate(at)))))
  }

  /** The quarantine update writes rows whose state is still legacy. */
  function QuarantineLegacy(e: Evidence, at: int): Evidence {
    if EvidenceStateOf(e) == Legacy then Quarantine(e, at) else e
  }

  // ---- Counting ----

  function CountEvidence(rows: seq<Keyed<Evidence>>, state: EvidenceState): nat {
    if rows == [] then 0
    else (if EvidenceStateOf(rows[0].doc) == state then 1 else 0) + CountEvidence(rows[1..], state)
  }

  predicate InState(a: Application, state: ReadinessState, current: Current) {
    HasReadiness(a) && StateOf(a, current) == state
  }

  function CountReadiness(rows: seq<Keyed<Application>>, state: ReadinessState, current: Current): nat {
    if rows == [] then 0
    else (if InState(rows[0].doc, state, current) then 1 else 0) + CountReadiness(rows[1..], state, current)
  }

  predicate UnsafeSnapshot(a: Application) { HasReadiness(a) && !SafeRevision(a) }

  function CountUnsafe(rows: seq<Keyed<Application>>): nat {
    if rows == [] then 0
    else (if UnsafeSnapshot(rows[0].doc) then 1 else 0) + CountUnsafe(rows[1..])
  }

  function CountAll(evidence: seq<Keyed<Evidence>>, applications: seq<Keyed<Application>>, current: Current): Counts {
    Counts(
      CountEvidence(evidence, Legacy), CountEvidence(evidence, Malformed),
      CountEvidence(evidence, Quarantined), CountEvidence(evidence, Attested),
      CountReadiness(applications, UpToDate, current), CountReadiness(applications, LegacyReadiness, current),
      CountReadiness(applications, Stale, current), CountReadiness(applications, MalformedReadiness, current),
      CountUnsafe(applications))
  }

  predicate InvariantCounts(c: Counts) {
    && c.legacyEvidence == 0 && c.malformedEvidence == 0
    && c.legacyReadiness == 0 && c.staleReadiness == 0 && c.malformedReadiness == 0
    && c.invalidReadinessRevision == 0
  }

  predicate RefusedCounts(c: Counts) {
    c.malformedEvidence != 0 || c.malformedReadiness != 0 || c.invalidReadinessRevision != 0
  }

  ghost predicate NoEvidenceIn(rows: seq<Keyed<Evidence>>, state: EvidenceState) {
    forall r :: r in rows ==> EvidenceStateOf(r.doc) != state
  }

  ghost predicate NoReadinessIn(rows: seq<Keyed<Application>>, state: ReadinessState, current: Current) {
    forall r :: r in rows ==> !InState(r.doc, state, current)
  }

  ghost predicate AllSafe(rows: seq<Keyed<Application>>) {
    forall r :: r in rows && HasReadiness(r.doc) ==> SafeRevision(r.doc)
  }

  lemma {:induction false} CountEvidenceZero(rows: seq<Keyed<Evidence>>, state: EvidenceState)
    ensures CountEvidence(rows, state) == 0 <==> NoEvidenceIn(rows, state)
  {
    if rows != [] {
      CountEvidenceZero(rows[1..], state);
      assert rows == [rows[0]] + rows[1..];
    }
  }

  lemma {:induction false} CountReadinessZero(rows: seq<Keyed<Application>>, state: ReadinessState, current: Current)
    ensures CountReadiness(rows, state, current) == 0 <==> NoReadinessIn(rows, state, current)
  {
    if rows != [] {
      CountReadinessZero(rows[1..], state, current);
      assert rows == [rows[0]] + rows[1..];
    }
  }

  lemma {:induction false} CountUnsafeZero(rows: seq<Keyed<Application>>)
    ensures CountUnsafe(rows) == 0 <==> AllSafe(rows)
  {
    if rows != [] {
      CountUnsafeZero(rows[1..]);
      assert rows == [rows[0]] + rows[1..];
    }
  }

  /** Every row is attested or quarantined, every snapshot is current, every revision is safe. */
  ghost predicate Invariant(evidence: seq<Keyed<Evidence>>, applications: seq<Keyed<Application>>, current: Current) {
    && (forall r :: r in evidence ==> EvidenceStateOf(r.doc) in {Attested, Quarantined})
    && (forall r :: r in applications && HasReadiness(r.doc) ==>
          StateOf(r.doc, current) == UpToDate && SafeRevision(r.doc))
  }

  /** No malformed row and no unsafe revision. */
  ghost predicate Repairable(evidence: seq<Keyed<Evidence>>, applications: seq<Keyed<Application>>, current: Current) {
    && (forall r :: r in evidence ==> EvidenceStateOf(r.doc) != Malformed)
    && (forall r :: r in applications && HasReadiness(r.doc) ==>
          StateOf(r.doc, current) != MalformedReadiness && SafeRevision(r.doc))
  }

  lemma CountsDecide(evidence: seq<Keyed<Evidence>>, applications: seq<Keyed<Application>>, current: Current)
    ensures InvariantCounts(CountAll(evidence, applications, current)) <==> Invariant(evidence, applications, current)
    ensures RefusedCounts(CountAll(evidence, applications, current)) <==> !Repairable(evidence, applications, current)
  {
    CountEvidenceZero(evidence, Legacy);
    CountEvidenceZero(evidence, Malformed);
    CountReadinessZero(applications, LegacyReadiness, current);
    CountReadinessZero(applications, Stale, current);
    CountReadinessZero(applications, MalformedReadiness, current);
    CountUnsafeZero(applications);
    assert forall r :: r in applications && HasReadiness(r.doc) ==> InState(r.doc, StateOf(r.doc, current), current);
  }

  // ---- The passes ----

  lemma {:induction false} SelectsAll(rows: seq<Keyed<Evidence>>)
    ensures Selected(rows, AnyEvidence) == rows
  {
    if rows != [] { SelectsAll(rows[1..]); }
  }

  /** Rows without readiness are not read, and count for nothing. */
  lemma {:induction false} SelectedCounts(rows: seq<Keyed<Application>>, state: ReadinessState, current: Current)
    ensures CountReadiness(Selected(rows, HasReadiness), state, current) == CountReadiness(rows, state, current)
    ensures CountUnsafe(Selected(rows, HasReadiness)) == CountUnsafe(rows)
  {
    if rows != [] {
      SelectedCounts(rows[1..], state, current);
      var rest := Selected(rows[1..], HasReadiness);
      if HasReadiness(rows[0].doc) { assert ([rows[0]] + rest)[1..] == rest; }
    }
  }

  ghost predicate SnapshotsRemoved(was: seq<Keyed<Application>>, now: seq<Keyed<Application>>, current: Current) {
    && |now| == |was|
    && forall i :: 0 <= i < |was| ==> now[i] == Keyed(was[i].id, RemoveOutdated(was[i].doc, current))
  }

  ghost predicate LegacyQuarantined(was: seq<Keyed<Evidence>>, now: seq<Keyed<Evidence>>, at: int) {
    && |now| == |was|
    && forall i :: 0 <= i < |was| ==> now[i] == Keyed(was[i].id, QuarantineLegacy(was[i].doc, at))
  }

  /** The snapshot names current executions only. */
  ghost predicate KeepsSnapshot(s: RawReadiness, current: Current) {
    WellFormedSnapshot(s) && NamesCurrent(s, current)
  }

  /** What becomes of one application: without a snapshot, or with a current one, nothing; otherwise it loses the
      snapshot and its revision goes up by one. */
  ghost predicate Becomes(was: Application, now: Application, current: Current) {
    if was.readiness.None? || KeepsSnapshot(was.readiness.value, current) then now == was
    else
      && now.readiness.None? && now.rest == was.rest
      && (was.revision.None? ==> now.revision == Some(Whole(1)))
      && (was.revision.Some? ==>
            && was.revision.value.Whole? && 0 <= was.revision.value.n < 0x1F_FFFF_FFFF_FFFF
            && now.revision == Some(Whole(was.revision.value.n + 1)))
  }

  /** What becomes of one evidence row: one without provenance is quarantined with the reason and date of it. */
  predicate BecomesDeclared(was: Evidence, now: Evidence, at: int) {
    && now.scoringEpoch == was.scoringEpoch
    && now.provenance ==
         if was.provenance.Some? then was.provenance
         else Some(Declared(Some(1), "legacy-unverifiable", None, None, Some("pre-provenance-contract"),
                            Some(ValidDate(at))))
  }

  ghost predicate RewrittenExactly(was: seq<Keyed<Application>>, now: seq<Keyed<Application>>, current: Current) {
    |now| == |was| && forall i :: 0 <= i < |was| ==> now[i].id == was[i].id && Becomes(was[i].doc, now[i].doc, current)
  }

  ghost predicate DeclaredExactly(was: seq<Keyed<Evidence>>, now: seq<Keyed<Evidence>>, at: int) {
    |now| == |was| && forall i :: 0 <= i < |was| ==>
      now[i].id == was[i].id && BecomesDeclared(was[i].doc, now[i].doc, at)
  }

  lemma RemovesAllButCurrent(a: Application, current: Current)
    requires HasReadiness(a) ==> StateOf(a, current) != MalformedReadiness && SafeRevision(a)
    ensures Becomes(a, RemoveOutdated(a, current), current)
  {
    if HasReadiness(a) { ReadinessStateIff(a.readiness.value, current); }
  }

  /** Over a repairable state exactly the snapshots that name something else than current executions are removed,
      and exactly the rows without provenance quarantined. */
  lemma RepairRewritesExactly(evidence: seq<Keyed<Evidence>>, applications: seq<Keyed<Application>>, current: Current,
                              evidence': seq<Keyed<Evidence>>, applications': seq<Keyed<Application>>, at: int)
    requires Repairable(evidence, applications, current)
    requires LegacyQuarantined(evidence, evidence', at) && SnapshotsRemoved(applications, applications', current)
    ensures RewrittenExactly(applications, applications', current) && DeclaredExactly(evidence, evidence', at)
  {
    forall i | 0 <= i < |applications|
      ensures applications'[i].id == applications[i].id && Becomes(applications[i].doc, applications'[i].doc, current)
    {
      assert applications[i] in applications;
      RemovesAllButCurrent(applications[i].doc, current);
    }
    forall i | 0 <= i < |evidence| ensures BecomesDeclared(evidence[i].doc, evidence'[i].doc, at) {
      EvidenceStateIff(evidence[i].doc);
    }
  }

  lemma QuarantinedState(e: Evidence, at: int)
    ensures EvidenceStateOf(QuarantineLegacy(e, at)) ==
              if EvidenceStateOf(e) == Legacy then Quarantined else EvidenceStateOf(e)
  {}

  /** The quarantined count goes up by exactly the former legacy count; the other states keep theirs. */
  lemma {:induction false} QuarantineCounts(was: seq<Keyed<Evidence>>, now: seq<Keyed<Evidence>>, at: int)
    requires LegacyQuarantined(was, now, at)
    ensures CountEvidence(now, Quarantined) == CountEvidence(was, Quarantined) + CountEvidence(was, Legacy)
    ensures CountEvidence(now, Legacy) == 0
    ensures CountEvidence(now, Attested) == CountEvidence(was, Attested)
    ensures CountEvidence(now, Malformed) == CountEvidence(was, Malformed)
  {
    if was != [] {
      QuarantineCounts(was[1..], now[1..], at);
      QuarantinedState(was[0].doc, at);
    }
  }

  /** The repaired state meets the invariant. */
  lemma RepairRestoresInvariant(evidence: seq<Keyed<Evidence>>, applications: seq<Keyed<Application>>, current: Current,
                                evidence': seq<Keyed<Evidence>>, applications': seq<Keyed<Application>>, at: int)
    requires Repairable(evidence, applications, current)
    requires LegacyQuarantined(evidence, evidence', at) && SnapshotsRemoved(applications, applications', current)
    ensures Invariant(evidence', applications', current)
  {
    forall r | r in evidence' ensures EvidenceStateOf(r.doc) in {Attested, Quarantined} {
      var i :| 0 <= i < |evidence'| && evidence'[i] == r;
      QuarantinedState(evidence[i].doc, at);
      assert evidence[i] in evidence;
    }
    forall r | r in applications' && HasReadiness(r.doc)
      ensures StateOf(r.doc, current) == UpToDate && SafeRevision(r.doc) {
      var i :| 0 <= i < |applications'| && applications'[i] == r;
      assert applications[i] in applications;
    }
  }

  // ---- One pass over rows that were read ----

  datatype EvidenceTally = EvidenceTally(legacy: nat, malformed: nat, quarantined: nat, attested: nat)

  function EvidenceTallyOf(rows: seq<Keyed<Evidence>>): EvidenceTally {
    EvidenceTally(CountEvidence(rows, Legacy), CountEvidence(rows, Malformed), CountEvidence(rows, Quarantined),
                  CountEvidence(rows, Attested))
  }

  lemma {:induction false} EvidenceSnoc(front: seq<Keyed<Evidence>>, row: Keyed<Evidence>, state: EvidenceState)
    ensures CountEvidence(front + [row], state)
              == CountEvidence(front, state) + if EvidenceStateOf(row.doc) == state then 1 else 0
  {
    if front == [] {
      assert front + [row] == [row] && [row][1..] == [];
    } else {
      EvidenceSnoc(front[1..], row, state);
      assert (front + [row])[1..] == front[1..] + [row];
    }
  }

  function AddEvidence(t: EvidenceTally, state: EvidenceState): EvidenceTally {
    match state
    case Legacy => t.(legacy := t.legacy + 1)
    case Malformed => t.(malformed := t.malformed + 1)
    case Quarantined => t.(quarantined := t.quarantined + 1)
    case Attested => t.(attested := t.attested + 1)
  }

  method TallyEvidence(rows: seq<Keyed<Evidence>>) returns (t: EvidenceTally)
    ensures t == EvidenceTallyOf(rows)
  {
    t := EvidenceTally(0, 0, 0, 0);
    var i := 0;
    while i < |rows|
      invariant 0 <= i <= |rows| && t == EvidenceTallyOf(rows[..i])
    {
      TakeSnoc(rows, i);
      EvidenceSnoc(rows[..i], rows[i], Legacy);
      EvidenceSnoc(rows[..i], rows[i], Malformed);
      EvidenceSnoc(rows[..i], rows[i], Quarantined);
      EvidenceSnoc(rows[..i], rows[i], Attested);
      t := AddEvidence(t, EvidenceStateOf(rows[i].doc));
      i := i + 1;
    }
    TakeAll(rows);
  }

  datatype ReadinessTally = ReadinessTally(upToDate: nat, legacy: nat, stale: nat, malformed: nat, unsafe: nat)

  function ReadinessTallyOf(rows: seq<Keyed<Application>>, current: Current): ReadinessTally {
    ReadinessTally(
      CountReadiness(rows, UpToDate, current), CountReadiness(rows, LegacyReadiness, current),
      CountReadiness(rows, Stale, current), CountReadiness(rows, MalformedReadiness, current), CountUnsafe(rows))
  }

  function AddReadiness(t: ReadinessTally, a: Application, current: Current): ReadinessTally
    requires HasReadiness(a)
  {
    var counted := match StateOf(a, current)
      case UpToDate => t.(upToDate := t.upToDate + 1)
      case LegacyReadiness => t.(legacy := t.legacy + 1)
      case Stale => t.(stale := t.stale + 1)
      case MalformedReadiness => t.(malformed := t.malformed + 1);
    if SafeRevision(a) then counted else counted.(unsafe := counted.unsafe + 1)
  }

  lemma ReadinessSnoc(front: seq<Keyed<Application>>, row: Keyed<Application>, current: Current)
    requires HasReadiness(row.doc)
    ensures ReadinessTallyOf(front + [row], current) == AddReadiness(ReadinessTallyOf(front, current), row.doc, current)
  {
    CountSnoc(front, row, UpToDate, current);
    CountSnoc(front, row, LegacyReadiness, current);
    CountSnoc(front, row, Stale, current);
    CountSnoc(front, row, MalformedReadiness, current);
  }

  lemma {:induction false} CountSnoc(front: seq<Keyed<Application>>, row: Keyed<Application>, state: ReadinessState,
                                     current: Current)
    ensures CountReadiness(front + [row], state, current)
              == CountReadiness(front, state, current) + if InState(row.doc, state, current) then 1 else 0
    ensures CountUnsafe(front + [row]) == CountUnsafe(front) + if UnsafeSnapshot(row.doc) then 1 else 0
  {
    if front == [] {
      assert front + [row] == [row] && [row][1..] == [];
    } else {
      CountSnoc(front[1..], row, state, current);
      assert (front + [row])[1..] == front[1..] + [row];
    }
  }

  method TallyReadiness(rows: seq<Keyed<Application>>, current: Current) returns (t: ReadinessTally)
    requires forall r :: r in rows ==> HasReadiness(r.doc)
    ensures t == ReadinessTallyOf(rows, current)
  {
    t := ReadinessTally(0, 0, 0, 0, 0);
    var i := 0;
    while i < |rows|
      invariant 0 <= i <= |rows| && t == ReadinessTallyOf(rows[..i], current)
    {
      assert rows[i] in rows;
      TakeSnoc(rows, i);
      ReadinessSnoc(rows[..i], rows[i], current);
      t := AddReadiness(t, rows[i].doc, current);
      i := i + 1;
    }
    TakeAll(rows);
  }

  class Repair {
    const evidence: Collection<Evidence>
    const applications: Collection<Application>
    const current: Current

    constructor (evidence: Collection<Evidence>, applications: Collection<Application>, current: Current)
      ensures this.evidence == evidence && this.applications == applications && this.current == current
    {
      this.evidence := evidence;
      this.applications := applications;
      this.current := current;
    }

    ghost predicate Valid()
      reads evidence, applications
    {
      Sorted(evidence.rows) && Sorted(applications.rows)
    }

    /** inspectPhysicalState: two scans that write nothing. */
    method Inspect() returns (counts: Counts)
      requires Valid()
      modifies evidence, applications
      ensures evidence.rows == old(evidence.rows) && applications.rows == old(applications.rows)
      ensures counts == CountAll(evidence.rows, applications.rows, current)
    {
      var rows := evidence.ScanBatches(AnyEvidence, e => e, BATCH_SIZE);
      SelectsAll(old(evidence.rows));
      assert evidence.rows == old(evidence.rows);
      var tally := TallyEvidence(rows);
      var readiness := InspectReadiness();
      counts := Counts(tally.legacy, tally.malformed, tally.quarantined, tally.attested,
                       readiness.upToDate, readiness.legacy, readiness.stale, readiness.malformed, readiness.unsafe);
    }

    method InspectReadiness() returns (tally: ReadinessTally)
      requires Valid()
      modifies applications
      ensures applications.rows == old(applications.rows)
      ensures tally == ReadinessTallyOf(applications.rows, current)
    {
      var rows := applications.ScanBatches(HasReadiness, a => a, BATCH_SIZE);
      assert applications.rows == old(applications.rows);
      forall x: Keyed<Application> | x in rows ensures HasReadiness(x.doc) {
        SelectedMembers(applications.rows, HasReadiness, x);
      }
      tally := TallyReadiness(rows, current);
      SelectedCounts(applications.rows, UpToDate, current);
      SelectedCounts(applications.rows, LegacyReadiness, current);
      SelectedCounts(applications.rows, Stale, current);
      SelectedCounts(applications.rows, MalformedReadiness, current);
    }

    method RemoveSnapshots()
      requires Valid()
      modifies applications
      ensures Sorted(applications.rows)
      ensures SnapshotsRemoved(old(applications.rows), applications.rows, current)
    {
      var removed := applications.ScanBatches(HasReadiness, a => RemoveOutdated(a, current), BATCH_SIZE);
    }

    method QuarantineRows(now: int)
      requires Valid()
      modifies evidence
      ensures Sorted(evidence.rows)
      ensures LegacyQuarantined(old(evidence.rows), evidence.rows, now)
    {
      var quarantined := evidence.ScanBatches(Undeclared, e => QuarantineLegacy(e, now), BATCH_SIZE);
    }

    /** The two passes over a repairable state restore the invariant. */
    method Rewrite(now: int)
      requires Valid() && Repairable(evidence.rows, applications.rows, current)
      modifies evidence, applications
      ensures Valid()
      ensures SnapshotsRemoved(old(applications.rows), applications.rows, current)
      ensures LegacyQuarantined(old(evidence.rows), evidence.rows, now)
      ensures Invariant(evidence.rows, applications.rows, current)
    {
      RemoveSnapshots();
      QuarantineRows(now);
      RepairRestoresInvariant(old(evidence.rows), old(applications.rows), current, evidence.rows, applications.rows,
                              now);
    }

    /** A refused apply changes nothing.  Otherwise the invariant holds afterwards; attested and quarantined
        rows and current snapshots are unchanged, the revision goes up by one on exactly the rows whose
        snapshot was removed, and the quarantined count by exactly the former legacy count. */
    method Run(mode: Mode, now: int) returns (outcome: Outcome)
      requires Valid()
      modifies evidence, applications
      ensures outcome in {CheckPassed, CheckFailed} <==> mode == Check
      ensures outcome == NothingWritten <==> mode == DryRun
      ensures mode == Check ==> (outcome == CheckPassed <==> Invariant(evidence.rows, applications.rows, current))
      ensures mode == Apply ==>
                outcome == if Repairable(old(evidence.rows), old(applications.rows), current) then Repaired else Refused
      ensures outcome != Repaired ==> evidence.rows == old(evidence.rows) && applications.rows == old(applications.rows)
      ensures outcome == Repaired ==>
                && Invariant(evidence.rows, applications.rows, current)
                && SnapshotsRemoved(old(applications.rows), applications.rows, current)
                && LegacyQuarantined(old(evidence.rows), evidence.rows, now)
                && CountEvidence(evidence.rows, Quarantined)
                     == CountEvidence(old(evidence.rows), Quarantined) + CountEvidence(old(evidence.rows), Legacy)
      ensures outcome == Repaired ==>
                && RewrittenExactly(old(applications.rows), applications.rows, current)
                && DeclaredExactly(old(evidence.rows), evidence.rows, now)
    {
      var before := Inspect();
      CountsDecide(evidence.rows, applications.rows, current);
      match mode
      case Check => return if InvariantCounts(before) then CheckPassed else CheckFailed;
      case DryRun => return NothingWritten;
      case Apply =>
        if RefusedCounts(before) { return Refused; }
        Rewrite(now);
        QuarantineCounts(old(evidence.rows), evidence.rows, now);
        RepairRewritesExactly(old(evidence.rows), old(applications.rows), current, evidence.rows, applications.rows,
                              now);
        var after := Inspect();
        CountsDecide(evidence.rows, applications.rows, current);
        outcome := if InvariantCounts(after) then Repaired else VerificationFailed;
    }
  }
}
