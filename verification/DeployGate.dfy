/**
 The read-only deploy gate: it reconciles source configs with the heads of their audit histories and
 with the shared counters, and counts postings still reachable for a revoked source.
 */
module DeployGate {
  import opened Wrappers
  import opened Seqs
  import L = Lineage
  import opened SourceControl
  import opened AuditHistory

  datatype LastControl = LastControl(
    operationId: string,
    action: string,
    actor: string,
    reason: string,
    at: int,
    revision: int)

  datatype Source = Source(
    id: string,
    enabled: bool,
    health: Health,
    controlRevision: Option<int>,
    lastControl: Option<LastControl>)

  /** The shared counters as stored; `None` is a missing field. */
  datatype Counters = Counters(controlWriteSeq: Option<int>, ingestWriteSeq: Option<int>, retainedPostings: Option<int>)

  const MAX_SAFE_INTEGER := 0x1F_FFFF_FFFF_FFFF

  /** What the gate reads: the topology and index findings, and the collections. */
  datatype Deployment = Deployment(
    transactionCapable: bool,
    requiredIndexesPresent: bool,
    auditHasTtlIndex: bool,
    operationAuditHasTtlIndex: bool,
    postings: seq<Posting>,
    meta: Option<Counters>,
    audits: seq<AuditRow>,
    sources: seq<Source>)

  function RevisionOf(c: Source): int { match c.controlRevision case Some(r) => r case None => 0 }

  function ControlAction(c: Source): Option<string> {
    if c.lastControl.Some? then Some(c.lastControl.value.action) else None
  }

  /** `new Map(heads)`: a later head of the same id would win. */
  function FindHead(heads: seq<Head>, id: string): (r: Option<Head>)
    ensures r.Some? ==> r.value in heads && r.value.id == id
    ensures r.None? ==> forall h :: h in heads ==> h.id != id
  {
    if heads == [] then None
    else if heads[|heads| - 1].id == id then Some(heads[|heads| - 1])
    else FindHead(heads[..|heads| - 1], id)
  }

  predicate IsControlled(c: Source, heads: seq<Head>) {
    || c.lastControl.Some? || RevisionOf(c) > 0 || c.health == Revoked
    || exists h :: h in heads && h.id == c.id
  }

  function Controlled(sources: seq<Source>, heads: seq<Head>): seq<Source> {
    Filter((c: Source) => IsControlled(c, heads), sources)
  }

  // ---- Reconciling one source ----

  datatype Tally = Tally(missingAudit: nat, missingTransitions: nat, drift: nat)

  function Add(a: Tally, b: Tally): Tally {
    Tally(a.missingAudit + b.missingAudit, a.missingTransitions + b.missingTransitions, a.drift + b.drift)
  }

  predicate AuditMissing(c: Source, head: Option<Head>) {
    || c.lastControl.None? || c.lastControl.value.operationId == ""
    || head.None?
    || head.value.latest.operationId != c.lastControl.value.operationId
    || head.value.latest.transition.revision != Some(RevisionOf(c))
  }

  predicate RecordDisagrees(last: LastControl, latest: AuditRow) {
    || latest.transition.action != last.action
    || latest.actor != last.actor || latest.reason != last.reason || latest.occurredAt != last.at
    || latest.transition.to != Some(if last.action == "revoke" then REVOKED_STATE else RESTORED_STATE)
  }

  function Count(head: Option<Head>): nat { match head case Some(h) => h.count case None => 0 }

  predicate TransitionsMissing(c: Source, head: Option<Head>) {
    || Count(head) != RevisionOf(c)
    || (match head case Some(h) => h.maxRevision case None => Some(0)) != Some(RevisionOf(c))
    || (RevisionOf(c) > 0 && (head.None? || head.value.latest.transition.previousRevision != Some(RevisionOf(c) - 1)))
  }

  function Abs(n: int): nat { if n < 0 then -n else n }

  function One(b: bool): nat { if b then 1 else 0 }

  function TallyOf(c: Source, head: Option<Head>): Tally {
    var missing := AuditMissing(c, head);
    Tally(
      One(missing),
      if TransitionsMissing(c, head)
      then var gap := Abs(RevisionOf(c) - Count(head)); if gap > 1 then gap else 1
      else 0,
      One(!missing && RecordDisagrees(c.lastControl.value, head.value.latest))
      + One(head.Some? && head.value.latest.transition.action != ExpectedAction(RevisionOf(c)))
      + One(c.lastControl.Some? && c.lastControl.value.revision != RevisionOf(c))
      + One(ControlAction(c) == Some("revoke") && (c.enabled || c.health != Revoked))
      + One(c.health == Revoked && ControlAction(c) != Some("revoke")))
  }

  function SumTallies(ts: seq<Tally>): Tally {
    if ts == [] then Tally(0, 0, 0) else Add(ts[0], SumTallies(ts[1..]))
  }

  function Tallies(controlled: seq<Source>, heads: seq<Head>): (r: seq<Tally>)
    ensures |r| == |controlled|
    ensures forall i :: 0 <= i < |r| ==> r[i] == TallyOf(controlled[i], FindHead(heads, controlled[i].id))
  {
    if controlled == [] then []
    else [TallyOf(controlled[0], FindHead(heads, controlled[0].id))] + Tallies(controlled[1..], heads)
  }

  function TallyAll(controlled: seq<Source>, heads: seq<Head>): Tally { SumTallies(Tallies(controlled, heads)) }

  predicate LooksRevoked(c: Source) { c.health == Revoked || ControlAction(c) == Some("revoke") }

  /** The sources collected as revoked, from config health or last control, and from the latest audit. */
  function RevokedBySource(controlled: seq<Source>): set<string> {
    set c | c in controlled && LooksRevoked(c) :: c.id
  }

  function RevokedByHead(heads: seq<Head>): set<string> {
    set h | h in heads && h.latest.transition.action == "revoke" :: h.id
  }

  method Reconcile(controlled: seq<Source>, heads: seq<Head>) returns (tally: Tally, revoked: set<string>)
    ensures tally == TallyAll(controlled, heads)
    ensures revoked == RevokedBySource(controlled) + RevokedByHead(heads)
  {
    tally, revoked := ReconcileSources(controlled, heads);
    for i := 0 to |heads|
      invariant revoked == RevokedBySource(controlled) + RevokedByHead(heads[..i])
    {
      if heads[i].latest.transition.action == "revoke" { revoked := revoked + {heads[i].id}; }
      RevokedByHeadSnoc(heads[..i], heads[i]);
      TakeSnoc(heads, i);
    }
    TakeAll(heads);
  }

  method ReconcileSources(controlled: seq<Source>, heads: seq<Head>) returns (tally: Tally, revoked: set<string>)
    ensures tally == TallyAll(controlled, heads)
    ensures revoked == RevokedBySource(controlled)
  {
    tally, revoked := Tally(0, 0, 0), {};
    for i := 0 to |controlled|
      invariant tally == TallyAll(controlled[..i], heads)
      invariant revoked == RevokedBySource(controlled[..i])
    {
      var c := controlled[i];
      var head := FindHead(heads, c.id);
      var t := TallyOf(c, head);
      tally := Add(tally, t);
      if LooksRevoked(c) { revoked := revoked + {c.id}; }
      TakeSnoc(controlled, i);
      TallySnoc(controlled[..i], c, heads);
      RevokedBySourceSnoc(controlled[..i], c);
    }
    TakeAll(controlled);
  }

  lemma {:induction false} SumSnoc(ts: seq<Tally>, t: Tally)
    ensures SumTallies(ts + [t]) == Add(SumTallies(ts), t)
  {
    if ts == [] {
      assert ts + [t] == [t] && [t][1..] == [];
    } else {
      SumSnoc(ts[1..], t);
      assert (ts + [t])[1..] == ts[1..] + [t];
    }
  }

  lemma {:induction false} TalliesSnoc(cs: seq<Source>, c: Source, heads: seq<Head>, t: Tally)
    requires TallyOf(c, FindHead(heads, c.id)) == t
    ensures Tallies(cs + [c], heads) == Tallies(cs, heads) + [t]
  {
    if cs == [] {
      assert cs + [c] == [c] && [c][1..] == [];
    } else {
      TalliesSnoc(cs[1..], c, heads, t);
      assert (cs + [c])[1..] == cs[1..] + [c] && (cs + [c])[0] == cs[0];
    }
  }

  lemma TallySnoc(cs: seq<Source>, c: Source, heads: seq<Head>)
    ensures TallyAll(cs + [c], heads) == Add(TallyAll(cs, heads), TallyOf(c, FindHead(heads, c.id)))
  {
    TalliesSnoc(cs, c, heads, TallyOf(c, FindHead(heads, c.id)));
    SumSnoc(Tallies(cs, heads), TallyOf(c, FindHead(heads, c.id)));
  }

  lemma RevokedBySourceSnoc(cs: seq<Source>, c: Source)
    ensures RevokedBySource(cs + [c]) == RevokedBySource(cs) + if LooksRevoked(c) then {c.id} else {}
  {
    assert LooksRevoked(c) ==> c in cs + [c];
  }

  lemma RevokedByHeadSnoc(hs: seq<Head>, h: Head)
    ensures RevokedByHead(hs + [h]) == RevokedByHead(hs) + if h.latest.transition.action == "revoke" then {h.id} else {}
  {
    assert h in hs + [h];
  }

  // ---- The verdict ----

  datatype LineageCheck = IdsCheck | ProvenanceCheck | CoverageCheck

  predicate Fails(check: LineageCheck, row: L.Row) {
    match check
    case IdsCheck => !L.WellFormedIds(row)
    case ProvenanceCheck => L.InvalidProvenance(row)
    case CoverageCheck => L.CoverageGap(row)
  }

  function CountFailing(check: LineageCheck, postings: seq<Posting>): (n: nat)
    ensures n == 0 <==> forall p :: p in postings ==> !Fails(check, p.row)
  {
    var failing := Filter((p: Posting) => Fails(check, p.row), postings);
    assert failing != [] ==> failing[0] in failing;
    |failing|
  }

  /** Postings a revoked source restricts that are still reachable. */
  function AccessibleFor(id: string, postings: seq<Posting>): nat {
    |Filter((p: Posting) => L.Restricted(p.row, id) && Accessible(p), postings)|
  }

  predicate SequenceConsistent(meta: Option<Counters>, audits: nat) {
    meta.Some? && meta.value.controlWriteSeq == Some(audits)
  }

  predicate AdmissionConsistent(meta: Option<Counters>, retained: nat) {
    && meta.Some?
    && meta.value.ingestWriteSeq.Some? && 0 <= meta.value.ingestWriteSeq.value < MAX_SAFE_INTEGER
    && meta.value.retainedPostings == Some(retained) && retained <= MAX_SAFE_INTEGER
  }

  function HeadsOfAudits(d: Deployment): seq<Head> { HeadsOf(Groups(d.audits)) }

  function ControlledOf(d: Deployment): seq<Source> { Controlled(d.sources, HeadsOfAudits(d)) }

  function RevokedOf(d: Deployment): set<string> {
    RevokedBySource(ControlledOf(d)) + RevokedByHead(HeadsOfAudits(d))
  }

  predicate InfrastructureSafe(d: Deployment) {
    d.transactionCapable && d.requiredIndexesPresent && !d.auditHasTtlIndex && !d.operationAuditHasTtlIndex
  }

  /** The postings are within bound and well formed, and the shared counters match what is stored. */
  ghost predicate CollectionsPass(d: Deployment) {
    && InfrastructureSafe(d)
    && |d.postings| <= MAX_POSTINGS
    && (forall p :: p in d.postings ==> !L.NeedsRepair(p.row))
    && SequenceConsistent(d.meta, |d.audits|) && AdmissionConsistent(d.meta, |d.postings|)
  }

  /** The audit histories are valid and reconcile with the sources. */
  ghost predicate ControlPasses(d: Deployment) {
    && TallyAll(ControlledOf(d), HeadsOfAudits(d)) == Tally(0, 0, 0)
    && InvalidAcross(Groups(d.audits)) == 0
    && (forall h :: h in HeadsOfAudits(d) ==> exists c :: c in ControlledOf(d) && c.id == h.id)
    && NoneReachable(RevokedOf(d), d.postings)
  }

  /** What it takes to pass the gate. */
  ghost predicate Passes(d: Deployment) { CollectionsPass(d) && ControlPasses(d) }

  ghost predicate NoneReachable(revoked: set<string>, postings: seq<Posting>) {
    forall id, p :: id in revoked && p in postings && L.Restricted(p.row, id) ==> !Accessible(p)
  }

  method CountAccessible(revoked: set<string>, postings: seq<Posting>) returns (n: nat)
    ensures n == 0 <==> NoneReachable(revoked, postings)
  {
    n := 0;
    var remaining := revoked;
    while remaining != {}
      invariant remaining <= revoked
      invariant n == 0 <==> NoneReachable(revoked - remaining, postings)
    {
      var id :| id in remaining;
      var found := AccessibleFor(id, postings);
      NoneAccessible(id, postings);
      assert revoked - (remaining - {id}) == revoked - remaining + {id};
      n, remaining := n + found, remaining - {id};
    }
    assert revoked - remaining == revoked;
  }

  lemma NoneAccessible(id: string, postings: seq<Posting>)
    ensures AccessibleFor(id, postings) == 0 <==> NoneReachable({id}, postings)
  {
    var found := Filter((p: Posting) => L.Restricted(p.row, id) && Accessible(p), postings);
    if found != [] {
      assert found[0] in found;
    } else {
      forall p | p in postings && L.Restricted(p.row, id) ensures !Accessible(p) {
        assert p !in found;
      }
    }
  }

  predicate HasSource(h: Head, controlled: seq<Source>) { exists c :: c in controlled && c.id == h.id }

  predicate NoOrphans(heads: seq<Head>, controlled: seq<Source>) { forall h :: h in heads ==> HasSource(h, controlled) }

  lemma OrphansSnoc(heads: seq<Head>, h: Head, controlled: seq<Source>)
    ensures NoOrphans(heads + [h], controlled) <==> NoOrphans(heads, controlled) && HasSource(h, controlled)
  {
    assert h in heads + [h];
  }

  method OrphanAudits(heads: seq<Head>, controlled: seq<Source>) returns (n: nat)
    ensures n == 0 <==> NoOrphans(heads, controlled)
  {
    n := 0;
    for i := 0 to |heads|
      invariant n == 0 <==> NoOrphans(heads[..i], controlled)
    {
      if !HasSource(heads[i], controlled) { n := n + 1; }
      TakeSnoc(heads, i);
      OrphansSnoc(heads[..i], heads[i], controlled);
    }
    TakeAll(heads);
  }

  method CheckCollections(d: Deployment) returns (pass: bool)
    ensures pass <==> CollectionsPass(d)
  {
    var missingLineage := CountFailing(IdsCheck, d.postings);
    var invalidProvenance := CountFailing(ProvenanceCheck, d.postings);
    var coverageGaps := CountFailing(CoverageCheck, d.postings);
    pass := InfrastructureSafe(d) && |d.postings| <= MAX_POSTINGS
      && missingLineage == 0 && invalidProvenance == 0 && coverageGaps == 0
      && SequenceConsistent(d.meta, |d.audits|) && AdmissionConsistent(d.meta, |d.postings|);
  }

  method CheckControl(d: Deployment) returns (pass: bool)
    ensures pass <==> ControlPasses(d)
  {
    var heads, invalid := ScanAudits(d.audits);
    var controlled := Controlled(d.sources, heads);
    var orphans := OrphanAudits(heads, controlled);
    var tally, revoked := Reconcile(controlled, heads);
    var accessible := CountAccessible(revoked, d.postings);
    pass := tally == Tally(0, 0, 0) && invalid == 0 && orphans == 0 && accessible == 0;
  }

  /** The gate: it throws unless every finding is clean. */
  method Gate(d: Deployment) returns (pass: bool)
    ensures pass <==> Passes(d)
  {
    var collections := CheckCollections(d);
    var control := CheckControl(d);
    pass := collections && control;
  }

  // ---- What a passing gate means ----

  lemma {:induction false} SumZero(ts: seq<Tally>, t: Tally)
    requires SumTallies(ts) == Tally(0, 0, 0) && t in ts
    ensures t == Tally(0, 0, 0)
  {
    if t != ts[0] { SumZero(ts[1..], t); }
  }

  lemma TallyZero(controlled: seq<Source>, heads: seq<Head>, c: Source)
    requires TallyAll(controlled, heads) == Tally(0, 0, 0) && c in controlled
    ensures TallyOf(c, FindHead(heads, c.id)) == Tally(0, 0, 0)
  {
    var k :| 0 <= k < |controlled| && controlled[k] == c;
    var t := Tallies(controlled, heads)[k];
    assert t in Tallies(controlled, heads);
    SumZero(Tallies(controlled, heads), t);
  }

  /** A reconciled source has its history head; revision parity, last control, latest audit and health agree. */
  lemma ReconciledSource(c: Source, head: Option<Head>)
    requires TallyOf(c, head) == Tally(0, 0, 0)
    ensures head.Some? && head.value.count == RevisionOf(c)
    ensures c.health == Revoked <==> Odd(RevisionOf(c))
    ensures ControlAction(c) == Some("revoke") <==> Odd(RevisionOf(c))
    ensures head.value.latest.transition.action == "revoke" <==> Odd(RevisionOf(c))
    ensures Odd(RevisionOf(c)) ==> !c.enabled
  {}

  /** Sources are identified uniquely, and the audit cursor is sorted by source. */
  ghost predicate WellRead(d: Deployment) {
    && Contiguous(d.audits)
    && forall i, j :: 0 <= i < j < |d.sources| ==> d.sources[i].id != d.sources[j].id
  }

  ghost predicate DistinctIds(heads: seq<Head>) {
    forall i, j :: 0 <= i < j < |heads| ==> heads[i].id != heads[j].id
  }

  /** One head per source. */
  lemma {:induction false} HeadsDistinct(groups: seq<seq<AuditRow>>)
    requires forall i, j :: 0 <= i < j < |groups| ==> SourceOf(groups[i]) != SourceOf(groups[j])
    ensures DistinctIds(HeadsOf(groups))
    ensures forall h :: h in HeadsOf(groups) ==> exists i :: 0 <= i < |groups| && SourceOf(groups[i]) == Named(h.id)
  {
    if groups != [] {
      var front := groups[..|groups| - 1];
      HeadsDistinct(front);
      forall h | h in HeadsOf(front)
        ensures exists i :: 0 <= i < |groups| - 1 && SourceOf(groups[i]) == Named(h.id)
      {
        var i :| 0 <= i < |front| && SourceOf(front[i]) == Named(h.id);
        assert SourceOf(groups[i]) == Named(h.id);
      }
      var last := HeadOf(groups[|groups| - 1]);
      if last != [] {
        assert SourceOf(groups[|groups| - 1]) == Named(last[0].id);
      }
    }
  }

  lemma {:induction false} FindHeadUnique(heads: seq<Head>, h: Head)
    requires DistinctIds(heads) && h in heads
    ensures FindHead(heads, h.id) == Some(h)
  {
    var found := FindHead(heads, h.id).value;
    var i :| 0 <= i < |heads| && heads[i] == h;
    var j :| 0 <= j < |heads| && heads[j] == found;
    assert i == j by { assert heads[i].id == heads[j].id; }
  }

  /** Config health, last control and latest audit name the same sources revoked: those of odd revision. */
  lemma SourceAgrees(d: Deployment, c: Source)
    requires Passes(d) && WellRead(d) && c in d.sources
    ensures c.health == Revoked <==> Odd(RevisionOf(c))
    ensures ControlAction(c) == Some("revoke") <==> Odd(RevisionOf(c))
    ensures c.id in RevokedByHead(HeadsOfAudits(d)) <==> Odd(RevisionOf(c))
    ensures Odd(RevisionOf(c)) ==> c in ControlledOf(d)
  {
    var heads, controlled := HeadsOfAudits(d), ControlledOf(d);
    GroupsAreGroupBy(d.audits);
    HeadsDistinct(Groups(d.audits));
    if c in controlled {
      TallyZero(controlled, heads, c);
      ReconciledSource(c, FindHead(heads, c.id));
      if c.id in RevokedByHead(heads) {
        var h :| h in heads && h.latest.transition.action == "revoke" && h.id == c.id;
        FindHeadUnique(heads, h);
      }
    } else {
      assert !IsControlled(c, heads);
    }
  }

  /** The three ways of collecting revoked sources give one set, the sources with odd revision. */
  lemma RevokedSetsAgree(d: Deployment)
    requires Passes(d) && WellRead(d)
    ensures var odd := set c | c in d.sources && Odd(RevisionOf(c)) :: c.id;
            && odd == (set c | c in d.sources && c.health == Revoked :: c.id)
            && odd == (set c | c in d.sources && ControlAction(c) == Some("revoke") :: c.id)
            && odd == RevokedByHead(HeadsOfAudits(d))
            && odd == RevokedOf(d)
  {
    var odd := set c | c in d.sources && Odd(RevisionOf(c)) :: c.id;
    forall c | c in d.sources
      ensures (c.health == Revoked <==> Odd(RevisionOf(c))) &&
              (ControlAction(c) == Some("revoke") <==> Odd(RevisionOf(c)))
      ensures c.id in RevokedByHead(HeadsOfAudits(d)) <==> c.id in odd
      ensures Odd(RevisionOf(c)) <==> c.id in odd
      ensures Odd(RevisionOf(c)) ==> c in ControlledOf(d)
    {
      SourceAgrees(d, c);
      if c.id in odd {
        var b :| b in d.sources && Odd(RevisionOf(b)) && b.id == c.id;
        SameSource(d, b, c);
      }
    }
    forall id | id in RevokedByHead(HeadsOfAudits(d)) ensures id in odd {
      var h :| h in HeadsOfAudits(d) && h.id == id;
      var c :| c in ControlledOf(d) && c.id == h.id;
      assert c in d.sources;
    }
  }

  lemma SameSource(d: Deployment, b: Source, c: Source)
    requires WellRead(d) && b in d.sources && c in d.sources && b.id == c.id
    ensures b == c
  {
    var i :| 0 <= i < |d.sources| && d.sources[i] == b;
    var j :| 0 <= j < |d.sources| && d.sources[j] == c;
    assert i == j by { assert d.sources[i].id == d.sources[j].id; }
  }

  // ---- The revisions add up to the sequence ----

  function SumOf(pairs: seq<(string, int)>): int {
    if pairs == [] then 0 else pairs[0].1 + SumOf(pairs[1..])
  }

  lemma {:induction false} SumConcat(a: seq<(string, int)>, b: seq<(string, int)>)
    ensures SumOf(a + b) == SumOf(a) + SumOf(b)
  {
    if a == [] {
      assert a + b == b;
    } else {
      SumConcat(a[1..], b);
      assert (a + b)[1..] == a[1..] + b;
    }
  }

  lemma TakeOut(b: seq<(string, int)>, i: nat) returns (rest: seq<(string, int)>)
    requires NoRepeats(b) && i < |b|
    ensures NoRepeats(rest) && SumOf(b) == b[i].1 + SumOf(rest)
    ensures forall x :: x in rest <==> x in b && x != b[i]
  {
    var front, back := b[..i], b[i + 1..];
    rest := front + back;
    assert b == front + ([b[i]] + back);
    SumConcat(front, [b[i]] + back);
    SumConcat(front, back);
    assert ([b[i]] + back)[1..] == back;
  }

  /** Two lists without repeats that hold the same pairs have the same sum. */
  lemma {:induction false} SameSum(a: seq<(string, int)>, b: seq<(string, int)>)
    requires NoRepeats(a) && NoRepeats(b) && (forall x :: x in a <==> x in b)
    ensures SumOf(a) == SumOf(b)
  {
    if a == [] {
      var first := FirstOr(b, ("", 0));
    } else {
      assert a[0] in b;
      var i :| 0 <= i < |b| && b[i] == a[0];
      var rest := TakeOut(b, i);
      forall x ensures x in a[1..] <==> x in rest { HeadApart(a, x); }
      SameSum(a[1..], rest);
    }
  }

  lemma HeadApart(a: seq<(string, int)>, x: (string, int))
    requires NoRepeats(a) && a != []
    ensures x in a[1..] <==> x in a && x != a[0]
  {
    assert a == [a[0]] + a[1..];
  }

  function RevisionPair(c: Source): (string, int) { (c.id, RevisionOf(c)) }

  function CountPair(h: Head): (string, int) { (h.id, h.count) }

  lemma {:induction false} ControlledDistinct(sources: seq<Source>, heads: seq<Head>)
    requires forall i, j :: 0 <= i < j < |sources| ==> sources[i].id != sources[j].id
    ensures NoRepeats(Map(RevisionPair, Controlled(sources, heads)))
  {
    if sources != [] {
      ControlledDistinct(sources[1..], heads);
      var rest := Controlled(sources[1..], heads);
      if IsControlled(sources[0], heads) {
        assert Controlled(sources, heads) == [sources[0]] + rest;
        forall k | 0 <= k < |rest| ensures rest[k].id != sources[0].id {
          assert rest[k] in sources[1..];
        }
      } else {
        assert Controlled(sources, heads) == rest;
      }
    }
  }

  lemma OneHeadCounts(g: seq<AuditRow>)
    requires g != [] && InvalidIn(g) == 0
    ensures SumOf(Map(CountPair, HeadOf(g))) == |g|
  {
    var head := HeadOf(g)[0];
    assert HeadOf(g) == [head];
    assert Map(CountPair, [head]) == [CountPair(head)];
    assert [CountPair(head)][1..] == [];
  }

  /** With no invalid row every group has a head, and the heads count every row. */
  lemma {:induction false} HeadCountsAddUp(groups: seq<seq<AuditRow>>)
    requires InvalidAcross(groups) == 0 && forall i :: 0 <= i < |groups| ==> groups[i] != []
    ensures SumOf(Map(CountPair, HeadsOf(groups))) == |Flatten(groups)|
  {
    if groups != [] {
      var front, g := groups[..|groups| - 1], groups[|groups| - 1];
      HeadCountsAddUp(front);
      OneHeadCounts(g);
      FlattenSnoc(front, g, groups);
      MapConcat(CountPair, HeadsOf(front), HeadOf(g));
      SumConcat(Map(CountPair, HeadsOf(front)), Map(CountPair, HeadOf(g)));
    }
  }

  lemma FlattenSnoc(front: seq<seq<AuditRow>>, g: seq<AuditRow>, groups: seq<seq<AuditRow>>)
    requires groups != [] && front == groups[..|groups| - 1] && g == groups[|groups| - 1]
    ensures Flatten(groups) == Flatten(front) + g
  {
    assert groups == front + [g];
    FlattenConcat(front, [g]);
    assert [g][1..] == [] && g + [] == g;
  }

  /** A controlled source and its head, found from either side, show the same number. */
  lemma HeadOfControlled(d: Deployment, c: Source)
    requires Passes(d) && c in ControlledOf(d)
    ensures var head := FindHead(HeadsOfAudits(d), c.id); head.Some? && head.value.count == RevisionOf(c)
  {
    TallyZero(ControlledOf(d), HeadsOfAudits(d), c);
    ReconciledSource(c, FindHead(HeadsOfAudits(d), c.id));
  }

  lemma ControlledOfHead(d: Deployment, h: Head) returns (c: Source)
    requires Passes(d) && WellRead(d) && h in HeadsOfAudits(d)
    ensures c in ControlledOf(d) && c.id == h.id && RevisionOf(c) == h.count
  {
    c :| c in ControlledOf(d) && c.id == h.id;
    HeadOfControlled(d, c);
    GroupsAreGroupBy(d.audits);
    HeadsDistinct(Groups(d.audits));
    FindHeadUnique(HeadsOfAudits(d), h);
  }

  lemma InMap<S, T>(f: S -> T, s: seq<S>, x: S)
    requires x in s
    ensures f(x) in Map(f, s)
  {
    var i :| 0 <= i < |s| && s[i] == x;
    assert Map(f, s)[i] == f(x);
  }

  lemma PairsAgree(d: Deployment)
    requires Passes(d) && WellRead(d)
    ensures forall x :: x in Map(RevisionPair, ControlledOf(d)) <==> x in Map(CountPair, HeadsOfAudits(d))
  {
    var heads, controlled := HeadsOfAudits(d), ControlledOf(d);
    var revisions, counts := Map(RevisionPair, controlled), Map(CountPair, heads);
    forall x | x in revisions ensures x in counts {
      var i :| 0 <= i < |revisions| && revisions[i] == x;
      HeadOfControlled(d, controlled[i]);
      InMap(CountPair, heads, FindHead(heads, controlled[i].id).value);
    }
    forall x | x in counts ensures x in revisions {
      var j :| 0 <= j < |counts| && counts[j] == x;
      var c := ControlledOfHead(d, heads[j]);
      InMap(RevisionPair, controlled, c);
    }
  }

  /** The revisions of all controlled sources add up to the shared control sequence. */
  lemma RevisionsSumToSequence(d: Deployment)
    requires Passes(d) && WellRead(d)
    ensures d.meta.Some? && d.meta.value.controlWriteSeq == Some(SumOf(Map(RevisionPair, ControlledOf(d))))
  {
    var heads := HeadsOfAudits(d);
    PairsAgree(d);
    ControlledDistinct(d.sources, heads);
    GroupsAreGroupBy(d.audits);
    HeadsDistinct(Groups(d.audits));
    SameSum(Map(RevisionPair, ControlledOf(d)), Map(CountPair, heads));
    HeadCountsAddUp(Groups(d.audits));
    GroupsFlatten(d.audits);
  }

  /** The rows behind a head: all those of its source, and valid. */
  lemma GroupOfHead(rows: seq<AuditRow>, h: Head) returns (group: seq<AuditRow>)
    requires Contiguous(rows) && InvalidAcross(Groups(rows)) == 0 && h in HeadsOf(Groups(rows))
    ensures group == Of(Named(h.id), rows) && HeadOf(group) == [h] && InvalidIn(group) == 0
  {
    var groups := Groups(rows);
    GroupsAreGroupBy(rows);
    HeadHasGroup(groups, h);
    var i :| 0 <= i < |groups| && HeadOf(groups[i]) == [h];
    InvalidNowhere(groups, i);
    group := groups[i];
  }

  /** The history behind a head is a run of the control machine. */
  lemma HeadIsRun(d: Deployment, h: Head)
    requires ControlPasses(d) && WellRead(d) && h in HeadsOfAudits(d)
    ensures var history := Map(TransitionOf, Of(Named(h.id), d.audits)); Accepts(history) && |history| == h.count
  {
    var group := GroupOfHead(d.audits, h);
    ValidIffAccepted(Map(TransitionOf, group));
  }

  /** Every controlled source's recorded history is a run of the control machine, as long as its
      revision; and no posting that a source of odd revision restricts is reachable. */
  lemma PassingHistoriesAreRuns(d: Deployment, c: Source)
    requires Passes(d) && WellRead(d) && c in ControlledOf(d)
    ensures var history := Map(TransitionOf, Of(Named(c.id), d.audits)); Accepts(history) && |history| == RevisionOf(c)
    ensures Odd(RevisionOf(c)) ==> NoneReachable({c.id}, d.postings)
  {
    HeadOfControlled(d, c);
    HeadIsRun(d, FindHead(HeadsOfAudits(d), c.id).value);
    SourceAgrees(d, c);
  }

  lemma {:induction false} HeadHasGroup(groups: seq<seq<AuditRow>>, h: Head)
    requires h in HeadsOf(groups)
    ensures exists i :: 0 <= i < |groups| && HeadOf(groups[i]) == [h]
  {
    var n := |groups| - 1;
    if h in HeadsOf(groups[..n]) {
      HeadHasGroup(groups[..n], h);
      var i :| 0 <= i < n && HeadOf(groups[..n][i]) == [h];
      assert HeadOf(groups[i]) == [h];
    } else {
      assert HeadOf(groups[n]) == [h];
    }
  }

  lemma {:induction false} InvalidNowhere(groups: seq<seq<AuditRow>>, i: nat)
    requires InvalidAcross(groups) == 0 && i < |groups|
    ensures InvalidIn(groups[i]) == 0
  {
    if i < |groups| - 1 { InvalidNowhere(groups[..|groups| - 1], i); }
  }

  // ---- A deployment the gate passes ----

  const FIRST_REVOKE := Transition("revoke", Some(0), Some(1), Some(State(true, Active)), Some(REVOKED_STATE))

  const REVOKE_ROW := AuditRow(Named("a"), "op", "admin", "policy", 0, FIRST_REVOKE)

  const REVOKED_SOURCE :=
    Source("a", false, Revoked, Some(1), Some(LastControl("op", "revoke", "admin", "policy", 0, 1)))

  const REVOKED_HEAD := Head("a", REVOKE_ROW, 1, Some(1))

  lemma SingleGroup(row: AuditRow)
    ensures Groups([row]) == [[row]]
    ensures HeadsOf([[row]]) == HeadOf([row]) && InvalidAcross([[row]]) == InvalidIn([row])
  {
    assert [row][..0] == [] && [[row]][..0] == [];
    assert HeadsOf([]) + HeadOf([row]) == HeadOf([row]);
  }

  lemma SingleHead(row: AuditRow)
    requires ControllableSource(row.source)
    ensures HeadOf([row]) == [Head(row.source.id, row, 1, row.transition.revision)]
    ensures InvalidIn([row]) == if TransitionIsValid(row.transition, 1, None) then 0 else 1
  {
    assert [] + [row] == [row];
    MaxSnoc([], row);
    TransitionsSnoc([], row, []);
    InvalidSnoc([], row.transition);
  }

  lemma SingleTally(c: Source, h: Head)
    requires c.id == h.id && c.lastControl.Some?
    ensures Controlled([c], [h]) == [c]
    ensures TallyAll([c], [h]) == TallyOf(c, Some(h))
  {
    assert FindHead([h], c.id) == Some(h);
    TallySnoc([], c, [h]);
    assert [] + [c] == [c];
  }

  lemma FirstRevokeIsValid()
    ensures TransitionIsValid(FIRST_REVOKE, 1, None) && ControllableSource(REVOKE_ROW.source)
  {}

  lemma RevokeReconciles()
    ensures TallyOf(REVOKED_SOURCE, Some(REVOKED_HEAD)) == Tally(0, 0, 0)
  {}

  /** The conditions of the gate can be met, with a revoked source under control. */
  lemma RevokedSourceCanPass() returns (d: Deployment)
    ensures Passes(d) && WellRead(d) && REVOKED_SOURCE in d.sources
  {
    d := Deployment(true, true, false, false, [], Some(Counters(Some(1), Some(0), Some(0))), [REVOKE_ROW],
                    [REVOKED_SOURCE]);
    SingleGroup(REVOKE_ROW);
    FirstRevokeIsValid();
    SingleHead(REVOKE_ROW);
    SingleTally(REVOKED_SOURCE, REVOKED_HEAD);
    RevokeReconciles();
  }
}
