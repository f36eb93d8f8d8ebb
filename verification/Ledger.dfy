/**
 The audit ledger and the deploy gate beside the transactions: what a commit writes, that in every run the
 ledger says what the configs say, and that what passes the gate is where such a run may begin.
 */
module Ledger {
  import opened Wrappers
  import opened Seqs
  import L = Lineage
  import opened SourceControl
  import opened Interleaving
  import opened Safety
  import H = AuditHistory
  import G = DeployGate

  // ---- What a commit writes ----

  /** Closed as source-revoked at `now`, with no purge date, and otherwise as it was. */
  predicate ClosedAt(before: Posting, after: Posting, now: int) {
    && after.row == before.row
    && after.status == "closed" && after.closedReason == Some("source-revoked")
    && after.closedAt == Some(now) && after.purgeAt == None
  }

  /** A revoke disables its source at revision 1. */
  lemma RevokeDisables(s: Store, target: string, now: int)
    requires RevokeOutcome(s, target, now).Ok?
    ensures
      var t := RevokeOutcome(s, target, now).value.store;
      && t.configs.Keys == s.configs.Keys && target in s.configs
      && (forall id :: id in s.configs && id != target ==> t.configs[id] == s.configs[id])
      && s.configs[target].revision == 0 && s.configs[target].enabled
      && t.configs[target] == Config(1, s.configs[target].writeSeq, false, Revoked)
  {}

  lemma RevokeAudits(s: Store, target: string, now: int)
    requires RevokeOutcome(s, target, now).Ok?
    ensures (target, 1) !in s.audits
    ensures RevokeOutcome(s, target, now).value.store.audits ==
              s.audits[(target, 1) := Audit("smoke:" + target + ":revoke", "revoke", now)]
  {}

  /** It records what it has done in a row of its own, and changes no other. */
  lemma RevokeRecords(s: Store, target: string, now: int)
    requires RevokeOutcome(s, target, now).Ok?
    ensures
      var t := RevokeOutcome(s, target, now).value.store;
      && t.audits.Keys == s.audits.Keys + {(target, 1)} && (target, 1) !in s.audits
      && (forall k :: k in s.audits ==> t.audits[k] == s.audits[k])
      && t.audits[(target, 1)].action == "revoke"
      && t.audits[(target, 1)].operationId == "smoke:" + target + ":revoke"
      && t.audits[(target, 1)].occurredAt == now
    ensures
      var t := RevokeOutcome(s, target, now).value.store;
      target in t.configs && t.audits[(target, 1)].action == H.ExpectedAction(t.configs[target].revision)
  {
    RevokeAudits(s, target, now);
    RevokeDisables(s, target, now);
  }

  /** It closes exactly the postings it restricts, each dated now, and reports how many. */
  lemma RevokeRestricts(s: Store, target: string, now: int)
    requires RevokeOutcome(s, target, now).Ok?
    ensures
      var t := RevokeOutcome(s, target, now).value.store;
      && t.postings.Keys == s.postings.Keys
      && (forall id :: id in s.postings ==>
            if L.Restricted(s.postings[id].row, target) then ClosedAt(s.postings[id], t.postings[id], now)
            else t.postings[id] == s.postings[id])
      && RevokeOutcome(s, target, now).value.affected ==
           |set id | id in s.postings && L.Restricted(s.postings[id].row, target)|
  {}

  /** It advances the control sequence by one and counts the postings. */
  lemma RevokeCounts(s: Store, target: string, now: int)
    requires RevokeOutcome(s, target, now).Ok?
    ensures
      var t := RevokeOutcome(s, target, now).value.store;
      && s.meta.Some? && s.meta.value.lineageVersion == 1 && s.meta.value.controlWriteSeq == |s.audits|
      && |s.postings| <= 25_000
      && t.meta == Some(Meta(1, |s.audits| + 1, s.meta.value.ingestWriteSeq, |s.postings|))
  {}

  /** An insert adds its posting as it is and advances the two write sequences and the retained count. */
  lemma InsertWrites(s: Store, target: string, id: string, posting: Posting)
    requires InsertOutcome(s, target, id, posting).Ok?
    ensures
      var t := InsertOutcome(s, target, id, posting).value.store;
      && t.audits == s.audits && (forall k :: k in s.audits ==> k.0 != target)
      && t.configs.Keys == s.configs.Keys && target in s.configs
      && (forall c :: c in s.configs && c != target ==> t.configs[c] == s.configs[c])
      && s.configs[target].revision == 0 && s.configs[target].enabled
      && t.configs[target] == Config(0, s.configs[target].writeSeq + 1, true, s.configs[target].health)
    ensures
      var t := InsertOutcome(s, target, id, posting).value.store;
      && id !in s.postings && t.postings.Keys == s.postings.Keys + {id} && t.postings[id] == posting
      && (forall k :: k in s.postings ==> t.postings[k] == s.postings[k])
    ensures
      var t := InsertOutcome(s, target, id, posting).value.store;
      && s.meta.Some? && s.meta.value.lineageVersion == 1
      && s.meta.value.retainedPostings < 25_000
      && t.meta == Some(Meta(1, s.meta.value.controlWriteSeq, s.meta.value.ingestWriteSeq + 1,
                             s.meta.value.retainedPostings + 1))
  {}

  // ---- The ledger over every run ----

  predicate RowFits(s: Store, k: (string, int)) {
    k in s.audits ==>
      && k.0 in s.configs && 1 <= k.1 <= s.configs[k.0].revision
      && s.audits[k].action == H.ExpectedAction(k.1)
  }

  predicate ConfigFits(s: Store, source: string) {
    source in s.configs ==> (s.configs[source].health == Revoked <==> H.Odd(s.configs[source].revision))
  }

  /** The ledger of a source holds one row for each of its revisions, naming the action of that revision; and a
      source is revoked exactly at an odd revision. */
  ghost predicate LedgerAgrees(s: Store) {
    && (forall k :: RowFits(s, k))
    && (forall source :: ConfigFits(s, source))
    && (forall source, r: int :: source in s.configs && 1 <= r <= s.configs[source].revision ==>
          (source, r) in s.audits)
  }

  /** Config health and latest audit name the same revoked sources. */
  lemma LatestNamesRevoked(s: Store, source: string)
    requires LedgerAgrees(s) && source in s.configs
    ensures IsRevoked(s, source) <==>
              var latest := (source, s.configs[source].revision);
              latest in s.audits && s.audits[latest].action == "revoke"
  {
    var latest := (source, s.configs[source].revision);
    assert ConfigFits(s, source) && RowFits(s, latest);
  }

  lemma RevokeKeepsLedger(s: Store, target: string, now: int)
    requires LedgerAgrees(s) && RevokeOutcome(s, target, now).Ok?
    ensures LedgerAgrees(RevokeOutcome(s, target, now).value.store)
  {
    var t := RevokeOutcome(s, target, now).value.store;
    RevokeRecords(s, target, now);
    forall k ensures RowFits(t, k) { assert RowFits(s, k); }
    forall source ensures ConfigFits(t, source) { assert ConfigFits(s, source); }
  }

  lemma InsertKeepsLedger(s: Store, target: string, id: string, posting: Posting)
    requires LedgerAgrees(s) && InsertOutcome(s, target, id, posting).Ok?
    ensures LedgerAgrees(InsertOutcome(s, target, id, posting).value.store)
  {
    var t := InsertOutcome(s, target, id, posting).value.store;
    InsertWrites(s, target, id, posting);
    forall k ensures RowFits(t, k) { assert RowFits(s, k); }
    forall source ensures ConfigFits(t, source) { assert ConfigFits(s, source); }
  }

  lemma {:induction false} SerialKeepsLedger(init: Store, history: seq<Commit>, n: nat)
    requires LedgerAgrees(init) && AllSucceed(init, history) && n <= |history|
    ensures LedgerAgrees(Serial(init, history[..n]))
  {
    if n > 0 {
      SerialKeepsLedger(init, history, n - 1);
      SerialNext(init, history, n - 1);
      match history[n - 1].op
      case Revoke(target) => RevokeKeepsLedger(Serial(init, history[..n - 1]), target, history[n - 1].now);
      case Insert(target, id, posting) => InsertKeepsLedger(Serial(init, history[..n - 1]), target, id, posting);
    }
  }

  /** From a seed whose ledger agrees with its configs every reachable store has such a ledger. */
  lemma ReachableLedger(init: Store, actions: seq<Action>)
    requires LedgerAgrees(init)
    ensures LedgerAgrees(Run(Init(init), actions).store)
  {
    var history := Run(Init(init), actions).history;
    Serializable(init, actions);
    SerialKeepsLedger(init, history, |history|);
    assert history[..|history|] == history;
  }

  lemma CommitKeepsAudits(op: Op, s: Store, now: int, k: (string, int))
    requires Outcome(op, s, now).Ok? && k in s.audits
    ensures var t := Outcome(op, s, now).value.store; k in t.audits && t.audits[k] == s.audits[k]
  {
    match op
    case Revoke(target) => RevokeRecords(s, target, now);
    case Insert(target, id, posting) => InsertWrites(s, target, id, posting);
  }

  predicate HasAudit(s: Store, k: (string, int), a: Audit) { k in s.audits && s.audits[k] == a }

  lemma {:induction false} AuditsPersist(init: Store, history: seq<Commit>, i: nat, j: nat, k: (string, int), a: Audit)
    requires i <= j <= |history| && AllSucceed(init, history) && HasAudit(Serial(init, history[..i]), k, a)
    ensures HasAudit(Serial(init, history[..j]), k, a)
    decreases j - i
  {
    if i < j {
      SerialNext(init, history, i);
      CommitKeepsAudits(history[i].op, Serial(init, history[..i]), history[i].now, k);
      AuditsPersist(init, history, i + 1, j, k, a);
    }
  }

  /** In every run the ledger ends with a row for each revoke that committed, dated when it did. */
  lemma RevokesAreRecorded(init: Store, actions: seq<Action>, i: nat)
    requires var h := Run(Init(init), actions).history; i < |h| && h[i].op.Revoke?
    ensures
      var s := Run(Init(init), actions);
      var c := s.history[i];
      HasAudit(s.store, (c.op.target, 1), Audit("smoke:" + c.op.target + ":revoke", "revoke", c.now))
  {
    var s := Run(Init(init), actions);
    var h, c := s.history, s.history[i];
    Serializable(init, actions);
    SerialNext(init, h, i);
    RevokeRecords(Serial(init, h[..i]), c.op.target, c.now);
    AuditsPersist(init, h, i + 1, |h|, (c.op.target, 1), Audit("smoke:" + c.op.target + ":revoke", "revoke", c.now));
    assert h[..|h|] == h;
  }

  // ---- Which transactions are refused ----

  /** No row carries the operation id of a revoke of `target`. */
  predicate OperationIdFree(s: Store, target: string) {
    forall k :: k in s.audits ==> s.audits[k].operationId != "smoke:" + target + ":revoke"
  }

  predicate InService(s: Store, target: string) {
    target in s.configs && s.configs[target].revision == 0 && s.configs[target].enabled
  }

  lemma NoRowsInService(s: Store, target: string)
    requires LedgerAgrees(s) && InService(s, target)
    ensures (target, 1) !in s.audits && forall k :: k in s.audits ==> k.0 != target
  {
    assert RowFits(s, (target, 1));
    forall k | k in s.audits ensures k.0 != target { assert RowFits(s, k); }
  }

  lemma TakenIff(s: Store, target: string)
    ensures AuditTaken(s, target) <==> (target, 1) in s.audits || !OperationIdFree(s, target)
  {}

  /** Where counters and ledger are sound, a revoke goes through exactly for a source in service whose operation id
      no row carries; the sequence, the fence and the corpus refuse none. */
  lemma RevokeGoesThroughIff(s: Store, target: string, now: int)
    requires Consistent(s) && LedgerAgrees(s)
    ensures RevokeOutcome(s, target, now).Ok? <==> InService(s, target) && OperationIdFree(s, target)
    ensures RevokeOutcome(s, target, now).Err? ==>
              RevokeOutcome(s, target, now).error == if InService(s, target) then DuplicateKey else AuthorityMissed
  {
    TakenIff(s, target);
    if InService(s, target) {
      NoRowsInService(s, target);
    }
  }

  /** An insert goes through exactly for a source in service, a new id and a corpus below its limit. */
  lemma InsertGoesThroughIff(s: Store, target: string, id: string, posting: Posting)
    requires Consistent(s) && LedgerAgrees(s)
    ensures InsertOutcome(s, target, id, posting).Ok? <==>
              InService(s, target) && id !in s.postings && |s.postings| < 25_000
    ensures InsertOutcome(s, target, id, posting).Err? ==>
              InsertOutcome(s, target, id, posting).error ==
                if !InService(s, target) then AuthorityMissed
                else if id in s.postings then DuplicateKey
                else CapacityRejected
  {
    if InService(s, target) { NoRowsInService(s, target); }
  }

  lemma PrefixIsSound(init: Store, actions: seq<Action>, n: nat)
    requires Consistent(init) && LedgerAgrees(init) && OwnSubmissions(actions)
    requires n <= |Run(Init(init), actions).history|
    ensures var s := Serial(init, Run(Init(init), actions).history[..n]); Consistent(s) && LedgerAgrees(s)
  {
    var history := Run(Init(init), actions).history;
    Serializable(init, actions);
    RunKeepsOwn(init, actions);
    forall i | 0 <= i < n
      ensures Outcome(history[..n][i].op, Serial(init, history[..n][..i]), history[..n][i].now).Ok?
    {
      assert history[..n][..i] == history[..i];
    }
    forall c | c in history[..n] ensures c in history {}
    SerialKeepsConsistent(init, history[..n]);
    SerialKeepsLedger(init, history, n);
  }

  /** In every run, however it is interleaved, a transaction is refused for its source, its key or the limit alone:
      none finds the sequence drifted, a fence moved or the corpus too large. */
  lemma RefusalsInRuns(init: Store, actions: seq<Action>, pid: nat)
    requires Consistent(init) && LedgerAgrees(init) && OwnSubmissions(actions)
    requires var s := Run(Init(init), actions); pid in s.processes && s.processes[pid].Rejected?
    ensures var s := Run(Init(init), actions);
            var p := s.processes[pid];
            && p.seen <= |s.history|
            && var seen := Serial(init, s.history[..p.seen]);
            match p.op
            case Revoke(target) =>
              p.error == if InService(seen, target) then DuplicateKey else AuthorityMissed
            case Insert(target, id, posting) =>
              p.error == if !InService(seen, target) then AuthorityMissed
                         else if id in seen.postings then DuplicateKey
                         else CapacityRejected
  {
    var s := Run(Init(init), actions);
    var p := s.processes[pid];
    Serializable(init, actions);
    PrefixIsSound(init, actions, p.seen);
    var seen := Serial(init, s.history[..p.seen]);
    match p.op
    case Revoke(target) => RevokeGoesThroughIff(seen, target, p.now);
    case Insert(target, id, posting) => InsertGoesThroughIff(seen, target, id, posting);
  }

  // ---- What passes the gate ----

  predicate SourceShows(c: G.Source, config: Config) {
    config.revision == G.RevisionOf(c) && config.enabled == c.enabled && config.health == c.health
  }

  predicate RowShows(row: H.AuditRow, k: (string, int), a: Audit) {
    && row.source == H.Named(k.0) && row.transition.revision == Some(k.1)
    && row.operationId == a.operationId && row.transition.action == a.action && row.occurredAt == a.occurredAt
  }

  predicate RowShown(d: G.Deployment, s: Store, keys: seq<(string, int)>, i: nat)
    requires i < |keys| == |d.audits|
  {
    keys[i] in s.audits && RowShows(d.audits[i], keys[i], s.audits[keys[i]])
  }

  predicate PostingShown(d: G.Deployment, s: Store, ids: seq<string>, i: nat)
    requires i < |ids| == |d.postings|
  {
    ids[i] in s.postings && s.postings[ids[i]] == d.postings[i]
  }

  /** The gate has read every audit row once, `keys[i]` being the key of row `i`. */
  ghost predicate ShowsAudits(d: G.Deployment, s: Store, keys: seq<(string, int)>) {
    && |keys| == |d.audits| == |s.audits| && (forall k :: k in s.audits ==> k in keys)
    && forall i :: 0 <= i < |keys| ==> RowShown(d, s, keys, i)
  }

  ghost predicate ShowsPostings(d: G.Deployment, s: Store, ids: seq<string>) {
    && |ids| == |d.postings| == |s.postings| && (forall id :: id in s.postings ==> id in ids)
    && forall i :: 0 <= i < |ids| ==> PostingShown(d, s, ids, i)
  }

  predicate HasSource(d: G.Deployment, id: string) { exists c :: c in d.sources && c.id == id }

  ghost predicate ShowsSources(d: G.Deployment, s: Store) {
    && (forall c :: c in d.sources ==> c.id in s.configs && SourceShows(c, s.configs[c.id]))
    && (forall id :: id in s.configs ==> HasSource(d, id))
  }

  ghost predicate ShowsMeta(d: G.Deployment, s: Store) {
    d.meta.Some? ==>
      && s.meta.Some? && s.meta.value.lineageVersion == 1
      && d.meta.value == G.Counters(Some(s.meta.value.controlWriteSeq), Some(s.meta.value.ingestWriteSeq),
                                    Some(s.meta.value.retainedPostings))
  }

  /** The gate has read the store. */
  ghost predicate Shows(d: G.Deployment, s: Store, ids: seq<string>, keys: seq<(string, int)>) {
    ShowsAudits(d, s, keys) && ShowsPostings(d, s, ids) && ShowsSources(d, s) && ShowsMeta(d, s)
  }

  ghost predicate NoNegativeRevision(d: G.Deployment) { forall c :: c in d.sources ==> G.RevisionOf(c) >= 0 }

  /** In a history the machine accepts, row `i` is of revision `i + 1` and names its action. */
  lemma {:induction false} AcceptedRows(history: seq<H.Transition>, i: nat)
    requires H.Accepts(history) && i < |history|
    ensures history[i].revision == Some(i + 1) && history[i].action == H.ExpectedAction(i + 1)
  {
    var n := |history| - 1;
    if i < n { AcceptedRows(history[..n], i); } else { H.ValidIffAccepted(history); }
  }

  /** Behind a passing gate the rows of a controlled source are those of its revisions. */
  lemma RowOfRevision(d: G.Deployment, c: G.Source, r: int)
    requires G.Passes(d) && G.WellRead(d) && c in G.ControlledOf(d) && 1 <= r <= G.RevisionOf(c)
    ensures exists i ::
              0 <= i < |d.audits| && d.audits[i].source == H.Named(c.id) && d.audits[i].transition.revision == Some(r)
  {
    var rows := H.Of(H.Named(c.id), d.audits);
    G.PassingHistoriesAreRuns(d, c);
    AcceptedRows(Map(H.TransitionOf, rows), r - 1);
    assert rows[r - 1] in rows;
    var i :| 0 <= i < |d.audits| && d.audits[i] == rows[r - 1];
  }

  /** Behind a passing gate every row is one of a controlled source, and names the action of its revision. */
  lemma RowIsControlled(d: G.Deployment, row: H.AuditRow) returns (c: G.Source)
    requires G.Passes(d) && G.WellRead(d) && row in d.audits
    ensures c in G.ControlledOf(d) && row.source == H.Named(c.id)
    ensures row.transition.revision.Some? && 1 <= row.transition.revision.value <= G.RevisionOf(c)
    ensures row.transition.action == H.ExpectedAction(row.transition.revision.value)
  {
    var h := HeadOfRow(d.audits, row);
    c := G.ControlledOfHead(d, h);
    G.PassingHistoriesAreRuns(d, c);
    AcceptedRow(H.Of(H.Named(c.id), d.audits), row);
  }

  lemma {:induction false} AcceptedRow(rows: seq<H.AuditRow>, row: H.AuditRow)
    requires H.Accepts(Map(H.TransitionOf, rows)) && row in rows
    ensures row.transition.revision.Some? && 1 <= row.transition.revision.value <= |rows|
    ensures row.transition.action == H.ExpectedAction(row.transition.revision.value)
  {
    var i :| 0 <= i < |rows| && rows[i] == row;
    AcceptedRows(Map(H.TransitionOf, rows), i);
  }

  /** With no invalid row every row has the head of its source. */
  lemma HeadOfRow(rows: seq<H.AuditRow>, row: H.AuditRow) returns (h: H.Head)
    requires H.InvalidAcross(H.Groups(rows)) == 0 && H.Contiguous(rows) && row in rows
    ensures h in H.HeadsOf(H.Groups(rows)) && row.source == H.Named(h.id)
  {
    var groups := H.Groups(rows);
    H.GroupsFlatten(rows);
    H.GroupsAreGroupBy(rows);
    var i := InSome(groups, row);
    G.InvalidNowhere(groups, i);
    assert H.HeadOf(groups[i]) != [];
    HeadsHave(groups, i);
    h := H.HeadOf(groups[i])[0];
  }

  lemma {:induction false} InSome<T>(groups: seq<seq<T>>, x: T) returns (i: nat)
    requires x in Flatten(groups)
    ensures i < |groups| && x in groups[i]
  {
    if x in groups[0] { i := 0; } else { i := InSome(groups[1..], x); i := i + 1; }
  }

  lemma {:induction false} HeadsHave(groups: seq<seq<H.AuditRow>>, i: nat)
    requires i < |groups|
    ensures forall h :: h in H.HeadOf(groups[i]) ==> h in H.HeadsOf(groups)
  {
    if i < |groups| - 1 { HeadsHave(groups[..|groups| - 1], i); }
  }

  lemma PassingRowFits(d: G.Deployment, s: Store, keys: seq<(string, int)>, k: (string, int))
    requires G.Passes(d) && G.WellRead(d) && ShowsAudits(d, s, keys) && ShowsSources(d, s)
    ensures RowFits(s, k)
  {
    if k in s.audits {
      var i :| 0 <= i < |keys| && keys[i] == k;
      assert RowShown(d, s, keys, i);
      var c := RowIsControlled(d, d.audits[i]);
      assert c in d.sources;
    }
  }

  lemma PassingConfigFits(d: G.Deployment, s: Store, source: string)
    requires G.Passes(d) && G.WellRead(d) && ShowsSources(d, s)
    ensures ConfigFits(s, source)
    ensures IsRevoked(s, source) ==> !s.configs[source].enabled && source in G.RevokedOf(d)
  {
    if source in s.configs {
      assert HasSource(d, source);
      var c :| c in d.sources && c.id == source;
      G.SourceAgrees(d, c);
      if c.health == Revoked {
        G.TallyZero(G.ControlledOf(d), G.HeadsOfAudits(d), c);
        G.ReconciledSource(c, G.FindHead(G.HeadsOfAudits(d), c.id));
        G.RevokedSetsAgree(d);
      }
    }
  }

  lemma PassingHasRow(d: G.Deployment, s: Store, keys: seq<(string, int)>, source: string, r: int)
    requires G.Passes(d) && G.WellRead(d) && ShowsAudits(d, s, keys) && ShowsSources(d, s)
    requires source in s.configs && 1 <= r <= s.configs[source].revision
    ensures (source, r) in s.audits
  {
    assert HasSource(d, source);
    var c :| c in d.sources && c.id == source;
    assert G.IsControlled(c, G.HeadsOfAudits(d));
    RowOfRevision(d, c, r);
    var i :| 0 <= i < |d.audits| && d.audits[i].source == H.Named(c.id) && d.audits[i].transition.revision == Some(r);
    assert RowShown(d, s, keys, i);
  }

  /** A store that passes the gate has a ledger that agrees with its configs. */
  lemma PassingLedgerAgrees(d: G.Deployment, s: Store, keys: seq<(string, int)>)
    requires G.Passes(d) && G.WellRead(d) && ShowsAudits(d, s, keys) && ShowsSources(d, s)
    ensures LedgerAgrees(s)
  {
    forall k ensures RowFits(s, k) { PassingRowFits(d, s, keys, k); }
    forall source ensures ConfigFits(s, source) { PassingConfigFits(d, s, source); }
    forall source, r: int | source in s.configs && 1 <= r <= s.configs[source].revision
      ensures (source, r) in s.audits {
      PassingHasRow(d, s, keys, source, r);
    }
  }

  function Revisions(source: string, n: nat): set<(string, int)> {
    if n == 0 then {} else Revisions(source, n - 1) + {(source, n)}
  }

  lemma {:induction false} RevisionsCount(source: string, n: nat)
    ensures |Revisions(source, n)| == n
    ensures forall k :: k in Revisions(source, n) <==> k.0 == source && 1 <= k.1 <= n
  {
    if n > 0 { RevisionsCount(source, n - 1); }
  }

  /** Where the ledger agrees, a source's revision counts its rows, unless it is negative. */
  lemma LedgerCounts(s: Store, source: string)
    requires LedgerAgrees(s) && source in s.configs
    ensures s.configs[source].revision == |AuditsOf(s.audits, source)| <==> s.configs[source].revision >= 0
  {
    var n := s.configs[source].revision;
    if n >= 0 {
      RevisionsCount(source, n);
      forall k ensures k in AuditsOf(s.audits, source) <==> k in Revisions(source, n) {
        assert RowFits(s, k);
      }
      assert AuditsOf(s.audits, source) == Revisions(source, n);
    }
  }

  lemma PassingRestricts(d: G.Deployment, s: Store, ids: seq<string>)
    requires G.Passes(d) && G.WellRead(d) && ShowsPostings(d, s, ids) && ShowsSources(d, s)
    ensures RestrictionsHold(s)
  {
    forall source, id | IsRevoked(s, source) && id in s.postings && L.Restricted(s.postings[id].row, source)
      ensures !Accessible(s.postings[id])
    {
      PassingConfigFits(d, s, source);
      var i :| 0 <= i < |ids| && ids[i] == id;
      assert PostingShown(d, s, ids, i) && d.postings[i] in d.postings;
    }
  }

  lemma PassingCounters(d: G.Deployment, s: Store, ids: seq<string>, keys: seq<(string, int)>)
    requires G.Passes(d) && ShowsAudits(d, s, keys) && ShowsPostings(d, s, ids) && ShowsMeta(d, s)
    ensures MetaReady(s) && s.meta.value.controlWriteSeq == |s.audits|
    ensures s.meta.value.retainedPostings == |s.postings| <= 25_000
    ensures 0 <= s.meta.value.ingestWriteSeq < 0x1F_FFFF_FFFF_FFFF
  {}

  /** The store behind a passing gate meets the invariant of the transactions, its counters included, exactly when
      no source has a negative revision, which the gate does not look for. */
  lemma PassingStoreIsConsistentIff(d: G.Deployment, s: Store, ids: seq<string>, keys: seq<(string, int)>)
    requires G.Passes(d) && G.WellRead(d) && Shows(d, s, ids, keys)
    ensures MetaReady(s) && s.meta.value.controlWriteSeq == |s.audits|
    ensures s.meta.value.retainedPostings == |s.postings| <= 25_000
    ensures Consistent(s) <==> NoNegativeRevision(d)
  {
    PassingCounters(d, s, ids, keys);
    PassingLedgerAgrees(d, s, keys);
    PassingRestricts(d, s, ids);
    forall source ensures RevokedIsDisabled(s, source) { PassingConfigFits(d, s, source); }
    RevisionsCountIff(d, s);
    OnlyRevisionsRemain(s);
  }

  predicate Counted(s: Store, source: string) {
    source in s.configs ==> s.configs[source].revision == |AuditsOf(s.audits, source)|
  }

  predicate RevokedIsDisabled(s: Store, source: string) { IsRevoked(s, source) ==> !s.configs[source].enabled }

  lemma OnlyRevisionsRemain(s: Store)
    requires MetaReady(s) && s.meta.value.controlWriteSeq == |s.audits|
    requires s.meta.value.retainedPostings == |s.postings| <= 25_000
    requires RestrictionsHold(s) && forall source :: RevokedIsDisabled(s, source)
    ensures Consistent(s) <==> forall source :: Counted(s, source)
  {
    if forall source :: Counted(s, source) {
      forall source | source in s.configs ensures s.configs[source].revision == |AuditsOf(s.audits, source)| {
        assert Counted(s, source);
      }
      forall source | IsRevoked(s, source) ensures !s.configs[source].enabled { assert RevokedIsDisabled(s, source); }
    }
  }

  lemma RevisionsCountIff(d: G.Deployment, s: Store)
    requires LedgerAgrees(s) && ShowsSources(d, s)
    ensures (forall source :: Counted(s, source)) <==> NoNegativeRevision(d)
  {
    forall source | source in s.configs ensures Counted(s, source) <==> s.configs[source].revision >= 0 {
      LedgerCounts(s, source);
    }
    if forall source :: Counted(s, source) {
      forall c | c in d.sources ensures G.RevisionOf(c) >= 0 { assert Counted(s, c.id) && c.id in s.configs; }
    }
    if NoNegativeRevision(d) {
      forall source ensures Counted(s, source) {
        if source in s.configs { assert HasSource(d, source); }
      }
    }
  }

  /** A source of negative revision that nothing else controls is not looked at. */
  lemma NegativeRevisionPasses() returns (d: G.Deployment)
    ensures G.Passes(d) && G.WellRead(d) && !NoNegativeRevision(d)
  {
    var c := G.Source("a", true, Active, Some(-1), None);
    d := G.Deployment(true, true, false, false, [], Some(G.Counters(Some(0), Some(0), Some(0))), [], [c]);
    assert H.Groups([]) == [] && H.HeadsOf([]) == [];
    assert G.Controlled([c], []) == [];
    assert c in d.sources;
  }

  /** From a store that passes the gate every run keeps the invariant and the ledger. */
  lemma RunsFromAPassingGate(d: G.Deployment, s: Store, ids: seq<string>, keys: seq<(string, int)>,
                             actions: seq<Action>)
    requires G.Passes(d) && G.WellRead(d) && Shows(d, s, ids, keys) && NoNegativeRevision(d) && OwnSubmissions(actions)
    ensures Consistent(Run(Init(s), actions).store) && LedgerAgrees(Run(Init(s), actions).store)
  {
    PassingStoreIsConsistentIff(d, s, ids, keys);
    PassingLedgerAgrees(d, s, keys);
    ReachableConsistent(s, actions);
    ReachableLedger(s, actions);
  }
}
