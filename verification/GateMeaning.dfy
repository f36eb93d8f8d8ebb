/**
 The deploy gate said outright: it passes exactly the deployments whose audit rows are, source by source, runs of the
 control machine that the configs repeat, and whose postings and counters agree with them.
 */
module GateMeaning {
  import opened Wrappers
  import opened Seqs
  import L = Lineage
  import opened SourceControl
  import opened AuditHistory
  import opened DeployGate
  import Ledger

  /** Closed as source-revoked, never to be purged. */
  predicate Withheld(p: Posting) {
    p.status == "closed" && p.closedReason == Some("source-revoked") && p.purgeAt == None
  }

  function RowsOf(d: Deployment, id: string): seq<AuditRow> { Of(Named(id), d.audits) }

  /** A source without audit rows has never been controlled; otherwise its config repeats the last of them. */
  predicate Repeats(c: Source, rows: seq<AuditRow>) {
    if rows == [] then c.lastControl == None && RevisionOf(c) <= 0 && c.health != Revoked
    else
      var last := rows[|rows| - 1];
      && c.controlRevision == Some(|rows|) && last.operationId != ""
      && c.lastControl == Some(LastControl(last.operationId, last.transition.action, last.actor, last.reason,
                                           last.occurredAt, |rows|))
      && if |rows| % 2 == 1 then !c.enabled && c.health == Revoked else c.health != Revoked
  }

  /** The audit rows of a source are a run that its config repeats; a run of odd length withholds its postings. */
  ghost predicate SourceSound(d: Deployment, c: Source) {
    var rows := RowsOf(d, c.id);
    && Accepts(Map(TransitionOf, rows)) && Repeats(c, rows)
    && (|rows| % 2 == 1 ==> forall p :: p in d.postings && L.Restricted(p.row, c.id) ==> Withheld(p))
  }

  /** The id of a source: up to 100 lower-case letters, digits, colons, underscores and hyphens, the first of them a
      letter or a digit. */
  predicate SourceName(id: string) {
    && 1 <= |id| <= 100 && ('a' <= id[0] <= 'z' || '0' <= id[0] <= '9')
    && forall i :: 0 <= i < |id| ==>
         'a' <= id[i] <= 'z' || '0' <= id[i] <= '9' || id[i] == ':' || id[i] == '_' || id[i] == '-'
  }

  /** The sentinel of unknown lineage is none. */
  lemma SourceNameIff(id: string)
    ensures ControllableSource(Named(id)) <==> SourceName(id)
  {}

  /** A row is about a source that there is. */
  predicate RowSound(d: Deployment, row: AuditRow) {
    && row.source.Named? && SourceName(row.source.id)
    && exists c :: c in d.sources && c.id == row.source.id
  }

  ghost predicate CountersSound(d: Deployment) {
    && d.meta.Some? && d.meta.value.controlWriteSeq == Some(|d.audits|)
    && d.meta.value.retainedPostings == Some(|d.postings|) && |d.postings| <= 25_000
    && d.meta.value.ingestWriteSeq.Some? && 0 <= d.meta.value.ingestWriteSeq.value < 0x1F_FFFF_FFFF_FFFF
  }

  ghost predicate PostingsSound(d: Deployment) {
    forall p :: p in d.postings ==>
      L.WellFormedIds(p.row) && !L.InvalidProvenance(p.row) && !L.CoverageGap(p.row)
  }

  ghost predicate Sound(d: Deployment) {
    && d.transactionCapable && d.requiredIndexesPresent && !d.auditHasTtlIndex && !d.operationAuditHasTtlIndex
    && CountersSound(d) && PostingsSound(d)
    && (forall row :: row in d.audits ==> RowSound(d, row))
    && (forall c :: c in d.sources ==> SourceSound(d, c))
  }

  // ---- One source and its head ----

  predicate Reconciles(c: Source, h: Head) {
    var r, latest := RevisionOf(c), h.latest;
    && h.count == r && h.maxRevision == Some(r) && latest.transition.revision == Some(r)
    && (r > 0 ==> latest.transition.previousRevision == Some(r - 1))
    && latest.operationId != ""
    && c.lastControl ==
         Some(LastControl(latest.operationId, latest.transition.action, latest.actor, latest.reason, latest.occurredAt,
                          r))
    && latest.transition.action == (if Odd(r) then "revoke" else "restore")
    && latest.transition.to == Some(if Odd(r) then State(false, Revoked) else State(false, Quarantined))
    && if Odd(r) then !c.enabled && c.health == Revoked else c.health != Revoked
  }

  /** The tally of a source is clean exactly when its head and its config say the same. */
  lemma TallyZeroIff(c: Source, head: Option<Head>)
    ensures TallyOf(c, head) == Tally(0, 0, 0) <==> head.Some? && Reconciles(c, head.value)
  {}

  lemma {:induction false} AcceptedMax(rows: seq<AuditRow>)
    requires Accepts(Map(TransitionOf, rows)) && rows != []
    ensures MaxRevision(rows) == Some(|rows|)
    ensures rows[|rows| - 1].transition.previousRevision == Some(|rows| - 1)
  {
    var front, history := rows[..|rows| - 1], Map(TransitionOf, rows);
    assert history[..|rows| - 1] == Map(TransitionOf, front);
    Ledger.AcceptedRows(history, |rows| - 1);
    if front != [] { AcceptedMax(front); }
  }

  lemma OddIsRevoke(n: nat)
    ensures Odd(n) <==> n % 2 == 1
  {}

  lemma {:induction false} LastAccepted(history: seq<Transition>)
    requires Accepts(history) && history != []
    ensures var t := history[|history| - 1];
            && t.action == (if Odd(|history|) then "revoke" else "restore")
            && t.to == Some(if Odd(|history|) then State(false, Revoked) else State(false, Quarantined))
            && t.revision == Some(|history|)
  {
    ValidIffAccepted(history);
    Ledger.AcceptedRows(history, |history| - 1);
    OddIsRevoke(|history|);
  }

  lemma SameClauses(c: Source, last: AuditRow, n: nat)
    requires n > 0 && last.transition.revision == Some(n) && last.transition.previousRevision == Some(n - 1)
    requires last.transition.action == (if Odd(n) then "revoke" else "restore")
    requires last.transition.to == Some(if Odd(n) then State(false, Revoked) else State(false, Quarantined))
    ensures Reconciles(c, Head(c.id, last, n, Some(n))) <==>
              && c.controlRevision == Some(n) && last.operationId != ""
              && c.lastControl == Some(LastControl(last.operationId, last.transition.action, last.actor, last.reason,
                                                   last.occurredAt, n))
              && if Odd(n) then !c.enabled && c.health == Revoked else c.health != Revoked
  {}

  /** The head of an accepted history reconciles with a config exactly when the config repeats its last row. */
  lemma {:induction false} RepeatsIffReconciles(c: Source, rows: seq<AuditRow>)
    requires Accepts(Map(TransitionOf, rows)) && rows != []
    ensures Repeats(c, rows) <==> Reconciles(c, Head(c.id, rows[|rows| - 1], |rows|, MaxRevision(rows)))
  {
    var last := rows[|rows| - 1];
    assert Map(TransitionOf, rows)[|rows| - 1] == last.transition;
    AcceptedMax(rows);
    LastAccepted(Map(TransitionOf, rows));
    SameClauses(c, last, |rows|);
    OddIsRevoke(|rows|);
  }

  // ---- The heads of a cursor sorted by source ----

  /** A row's source has a group of its own, all its rows. */
  lemma GroupOfRow(rows: seq<AuditRow>, row: AuditRow) returns (i: nat)
    requires Contiguous(rows) && row in rows
    ensures i < |Groups(rows)| && Groups(rows)[i] == Of(row.source, rows)
  {
    GroupsFlatten(rows);
    GroupsAreGroupBy(rows);
    i := Ledger.InSome(Groups(rows), row);
  }

  lemma HeadIsFound(rows: seq<AuditRow>, id: string)
    requires Contiguous(rows) && Of(Named(id), rows) != [] && ControllableSource(Named(id))
    ensures var g := Of(Named(id), rows);
            FindHead(HeadsOf(Groups(rows)), id) == Some(Head(id, g[|g| - 1], |g|, MaxRevision(g)))
  {
    var g := Of(Named(id), rows);
    assert g[0] in g;
    var i := GroupOfRow(rows, g[0]);
    assert HeadOf(Groups(rows)[i]) == [Head(id, g[|g| - 1], |g|, MaxRevision(g))];
    Ledger.HeadsHave(Groups(rows), i);
    GroupsAreGroupBy(rows);
    HeadsDistinct(Groups(rows));
    FindHeadUnique(HeadsOf(Groups(rows)), Head(id, g[|g| - 1], |g|, MaxRevision(g)));
  }

  lemma HeadNames(g: seq<AuditRow>, h: Head)
    requires g != [] && HeadOf(g) == [h]
    ensures SourceOf(g) == Named(h.id) && ControllableSource(Named(h.id))
  {}

  lemma HeadHasRow(rows: seq<AuditRow>, h: Head)
    requires Contiguous(rows) && h in HeadsOf(Groups(rows))
    ensures Of(Named(h.id), rows) != [] && Of(Named(h.id), rows)[0] in rows
    ensures ControllableSource(Named(h.id))
  {
    var groups := Groups(rows);
    GroupsAreGroupBy(rows);
    HeadHasGroup(groups, h);
    var i :| 0 <= i < |groups| && HeadOf(groups[i]) == [h];
    HeadNames(groups[i], h);
    assert groups[i][0] in groups[i];
  }

  // ---- What passes is sound ----

  lemma UncontrolledHasNoRows(d: Deployment, c: Source)
    requires ControlPasses(d) && WellRead(d) && !IsControlled(c, HeadsOfAudits(d))
    ensures RowsOf(d, c.id) == []
  {
    var rows := RowsOf(d, c.id);
    if rows != [] {
      assert rows[0] in rows;
      var h := Ledger.HeadOfRow(d.audits, rows[0]);
    }
  }

  lemma PassingSource(d: Deployment, c: Source)
    requires Passes(d) && WellRead(d) && c in d.sources
    ensures Accepts(Map(TransitionOf, RowsOf(d, c.id))) && Repeats(c, RowsOf(d, c.id))
  {
    var heads, rows := HeadsOfAudits(d), RowsOf(d, c.id);
    if IsControlled(c, heads) {
      TallyZero(ControlledOf(d), heads, c);
      TallyZeroIff(c, FindHead(heads, c.id));
      var h := FindHead(heads, c.id).value;
      PassingHistoriesAreRuns(d, c);
      HeadHasRow(d.audits, h);
      HeadIsFound(d.audits, c.id);
      RepeatsIffReconciles(c, rows);
    } else {
      UncontrolledHasNoRows(d, c);
      assert Map(TransitionOf, rows) == [];
    }
  }

  lemma PassingRow(d: Deployment, row: AuditRow)
    requires Passes(d) && WellRead(d) && row in d.audits
    ensures RowSound(d, row)
  {
    var c := Ledger.RowIsControlled(d, row);
    var h := Ledger.HeadOfRow(d.audits, row);
    HeadHasRow(d.audits, h);
    SourceNameIff(h.id);
    assert c in d.sources && c.id == row.source.id;
  }

  lemma PassingIsRevoked(d: Deployment, c: Source)
    requires Passes(d) && WellRead(d) && c in d.sources && |RowsOf(d, c.id)| % 2 == 1
    ensures c.id in RevokedOf(d)
  {
    PassingSource(d, c);
    OddIsRevoke(|RowsOf(d, c.id)|);
    assert Odd(RevisionOf(c));
    RevokedSetsAgree(d);
  }

  lemma PassingWithholds(d: Deployment, c: Source, p: Posting)
    requires Passes(d) && WellRead(d) && c in d.sources && |RowsOf(d, c.id)| % 2 == 1
    requires p in d.postings && L.Restricted(p.row, c.id)
    ensures Withheld(p)
  {
    PassingIsRevoked(d, c);
    assert !Accessible(p);
  }

  lemma PassingIsSound(d: Deployment)
    requires Passes(d) && WellRead(d)
    ensures Sound(d)
  {
    forall row | row in d.audits ensures RowSound(d, row) { PassingRow(d, row); }
    forall c | c in d.sources ensures SourceSound(d, c) {
      PassingSource(d, c);
      forall p | p in d.postings && L.Restricted(p.row, c.id) && |RowsOf(d, c.id)| % 2 == 1 ensures Withheld(p) {
        PassingWithholds(d, c, p);
      }
    }
  }

  // ---- What is sound passes ----

  lemma {:induction false} AllValid(groups: seq<seq<AuditRow>>)
    requires forall i :: 0 <= i < |groups| ==> InvalidIn(groups[i]) == 0
    ensures InvalidAcross(groups) == 0
  {
    if groups != [] { AllValid(groups[..|groups| - 1]); }
  }

  lemma SoundHistories(d: Deployment)
    requires Sound(d) && WellRead(d)
    ensures InvalidAcross(Groups(d.audits)) == 0
  {
    var groups := Groups(d.audits);
    GroupsAreGroupBy(d.audits);
    forall i | 0 <= i < |groups| ensures InvalidIn(groups[i]) == 0 {
      assert groups[i][0] in groups[i];
      assert RowSound(d, groups[i][0]);
      SourceNameIff(groups[i][0].source.id);
      var c :| c in d.sources && c.id == groups[i][0].source.id;
      assert SourceSound(d, c);
      ValidIffAccepted(Map(TransitionOf, groups[i]));
    }
    AllValid(groups);
  }

  /** A source has a head exactly when it has rows, and then the head of its rows. */
  lemma SoundHead(d: Deployment, c: Source)
    requires Sound(d) && WellRead(d) && c in d.sources
    ensures var head := FindHead(HeadsOfAudits(d), c.id);
            && (head.Some? <==> RowsOf(d, c.id) != []) && (head.Some? <==> IsControlled(c, HeadsOfAudits(d)))
            && (head.Some? ==> Reconciles(c, head.value))
  {
    var rows := RowsOf(d, c.id);
    assert SourceSound(d, c);
    if rows != [] {
      assert rows[0] in rows && RowSound(d, rows[0]);
      SourceNameIff(c.id);
      HeadIsFound(d.audits, c.id);
      RepeatsIffReconciles(c, rows);
    } else if FindHead(HeadsOfAudits(d), c.id).Some? {
      HeadHasRow(d.audits, FindHead(HeadsOfAudits(d), c.id).value);
    }
  }

  lemma {:induction false} SumOfZeros(ts: seq<Tally>)
    requires forall t :: t in ts ==> t == Tally(0, 0, 0)
    ensures SumTallies(ts) == Tally(0, 0, 0)
  {
    if ts != [] {
      assert ts[0] in ts;
      assert forall t :: t in ts[1..] ==> t in ts;
      SumOfZeros(ts[1..]);
    }
  }

  lemma SoundTallies(d: Deployment)
    requires Sound(d) && WellRead(d)
    ensures TallyAll(ControlledOf(d), HeadsOfAudits(d)) == Tally(0, 0, 0)
  {
    var controlled, heads := ControlledOf(d), HeadsOfAudits(d);
    forall t | t in Tallies(controlled, heads) ensures t == Tally(0, 0, 0) {
      var i :| 0 <= i < |controlled| && Tallies(controlled, heads)[i] == t;
      assert controlled[i] in controlled;
      SoundHead(d, controlled[i]);
      TallyZeroIff(controlled[i], FindHead(heads, controlled[i].id));
    }
    SumOfZeros(Tallies(controlled, heads));
  }

  lemma SoundHeadHasSource(d: Deployment, h: Head) returns (c: Source)
    requires Sound(d) && WellRead(d) && h in HeadsOfAudits(d)
    ensures c in ControlledOf(d) && c.id == h.id && FindHead(HeadsOfAudits(d), c.id) == Some(h)
  {
    HeadHasRow(d.audits, h);
    var row := Of(Named(h.id), d.audits)[0];
    assert RowSound(d, row) && row in Of(Named(h.id), d.audits);
    c :| c in d.sources && c.id == row.source.id;
    GroupsAreGroupBy(d.audits);
    HeadsDistinct(Groups(d.audits));
    FindHeadUnique(HeadsOfAudits(d), h);
  }

  lemma SoundWithholds(d: Deployment, id: string)
    requires Sound(d) && WellRead(d) && id in RevokedOf(d)
    ensures NoneReachable({id}, d.postings)
  {
    var c: Source;
    if id in RevokedBySource(ControlledOf(d)) {
      c :| c in ControlledOf(d) && LooksRevoked(c) && c.id == id;
    } else {
      var h :| h in HeadsOfAudits(d) && h.latest.transition.action == "revoke" && h.id == id;
      c := SoundHeadHasSource(d, h);
    }
    SoundHead(d, c);
    assert SourceSound(d, c);
    assert |RowsOf(d, id)| % 2 == 1;
  }

  lemma SoundPasses(d: Deployment)
    requires Sound(d) && WellRead(d)
    ensures Passes(d)
  {
    SoundHistories(d);
    SoundTallies(d);
    forall h | h in HeadsOfAudits(d) ensures exists c :: c in ControlledOf(d) && c.id == h.id {
      var c := SoundHeadHasSource(d, h);
    }
    forall id, p | id in RevokedOf(d) && p in d.postings && L.Restricted(p.row, id) ensures !Accessible(p) {
      SoundWithholds(d, id);
    }
  }

  /** The gate passes a deployment exactly when it is sound. */
  lemma GateIff(d: Deployment)
    requires WellRead(d)
    ensures Passes(d) <==> Sound(d)
  {
    if Passes(d) { PassingIsSound(d); }
    if Sound(d) { SoundPasses(d); }
  }
}
