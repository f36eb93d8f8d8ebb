/**
 The jobs source-control transactions: `revoke` and `fencedInsert`, each a fixed sequence of
 database operations against one snapshot.

 An attempt reads its snapshot overlaid with its own writes, so its state is the snapshot and the
 write set.  `Step` performs the next operation of the callback; `Outcome` says what the whole
 callback means for the store.
 */
module SourceControl {
  import opened Wrappers
  import L = Lineage

  const MAX_POSTINGS := 25_000

  datatype Health = Active | Degraded | Quarantined | Dead | Revoked

  datatype Config = Config(revision: int, writeSeq: int, enabled: bool, health: Health)

  datatype Posting = Posting(
    row: L.Row,
    status: string,
    closedReason: Option<string>,
    closedAt: Option<int>,
    purgeAt: Option<int>)

  datatype Audit = Audit(operationId: string, action: string, occurredAt: int)

  datatype Meta = Meta(lineageVersion: int, controlWriteSeq: int, ingestWriteSeq: int, retainedPostings: int)

  /** Committed documents.  Configs and postings are keyed by their unique ids, audits by their
      unique (source id, revision); `meta` is the one shared control document. */
  datatype Store = Store(
    configs: map<string, Config>,
    postings: map<string, Posting>,
    audits: map<(string, int), Audit>,
    meta: Option<Meta>)

  /** Whole documents a transaction has written so far. */
  datatype Writes = Writes(
    configs: map<string, Config>,
    postings: map<string, Posting>,
    audits: map<(string, int), Audit>,
    meta: Option<Meta>)

  const NO_WRITES := Writes(map[], map[], map[], None)

  function Overlay(s: Store, w: Writes): Store {
    Store(s.configs + w.configs, s.postings + w.postings, s.audits + w.audits,
          if w.meta.Some? then w.meta else s.meta)
  }

  datatype Op =
    | Revoke(target: string)
    | Insert(target: string, id: string, posting: Posting)

  datatype Error =
    | SequenceDrift
    | FenceMissed
    | AuthorityMissed
    | CorpusTooLarge
    | CapacityRejected
    | DuplicateKey

  // ---- Predicates the callbacks test ----

  function OperationId(target: string): string { "smoke:" + target + ":revoke" }

  predicate MetaReady(s: Store) { s.meta.Some? && s.meta.value.lineageVersion == 1 }

  predicate Authorized(s: Store, target: string) {
    target in s.configs && s.configs[target].revision == 0 && s.configs[target].enabled
  }

  predicate Audited(s: Store, target: string) {
    exists k :: k in s.audits && k.0 == target
  }

  predicate AuditTaken(s: Store, target: string) {
    || (target, 1) in s.audits
    || exists k :: k in s.audits && s.audits[k].operationId == OperationId(target)
  }

  function Close(p: Posting, now: int): Posting {
    p.(status := "closed", closedReason := Some("source-revoked"), closedAt := Some(now), purgeAt := None)
  }

  /** The gate's test for a restricted posting that is still reachable. */
  predicate Accessible(p: Posting) {
    p.status != "closed" || p.closedReason != Some("source-revoked") || p.purgeAt.Some?
  }

  // ---- One attempt of a transaction callback ----

  datatype Attempt = Attempt(
    snapshot: Store,
    writes: Writes,
    now: int,
    pc: nat,
    auditTotal: int,
    seen: Meta,
    drift: nat,
    malformed: nat,
    affected: nat,
    error: Option<Error>)

  function Start(s: Store, now: int): Attempt {
    Attempt(s, NO_WRITES, now, 0, 0, Meta(0, 0, 0, 0), 0, 0, 0, None)
  }

  function View(a: Attempt): Store { Overlay(a.snapshot, a.writes) }

  function Length(op: Op): nat { if op.Revoke? then 9 else 6 }

  function Fail(a: Attempt, e: Error): Attempt { a.(error := Some(e)) }

  function Next(a: Attempt): Attempt { a.(pc := a.pc + 1) }

  function WriteMeta(a: Attempt, m: Meta): Attempt { Next(a).(writes := a.writes.(meta := Some(m))) }

  function WriteConfig(a: Attempt, id: string, c: Config): Attempt {
    Next(a).(writes := a.writes.(configs := a.writes.configs[id := c]))
  }

  /** The three filters a revoke passes to `countDocuments` and `updateMany`. */
  datatype Pass = ListedPass | DriftPass | FallbackPass

  predicate Selects(pass: Pass, row: L.Row, target: string) {
    match pass
    case ListedPass => L.Listed(row, target)
    case DriftPass => L.ProvenanceDrift(row, target)
    case FallbackPass => L.MalformedFallback(row, target)
  }

  function Matched(postings: map<string, Posting>, pass: Pass, target: string): set<string> {
    set id | id in postings && Selects(pass, postings[id].row, target)
  }

  /** `updateMany(filter, restriction)`. */
  function CloseMany(a: Attempt, pass: Pass, target: string): Attempt {
    var postings := View(a).postings;
    var ids := Matched(postings, pass, target);
    Next(a).(writes := a.writes.(postings := a.writes.postings + map id | id in ids :: Close(postings[id], a.now)),
             affected := a.affected + |ids|)
  }

  /** The second and third passes run only when their earlier count was positive. */
  function CloseIfAny(a: Attempt, count: nat, pass: Pass, target: string): Attempt {
    if count > 0 then CloseMany(a, pass, target) else Next(a)
  }

  predicate ControlFence(s: Store, sequence: int) { MetaReady(s) && s.meta.value.controlWriteSeq == sequence }

  predicate IngestFence(s: Store, sequence: int) { MetaReady(s) && s.meta.value.ingestWriteSeq == sequence }

  function ReadSequence(a: Attempt): Attempt {
    var total := |View(a).audits|;
    if !ControlFence(View(a), total) then Fail(a, SequenceDrift) else Next(a).(auditTotal := total)
  }

  function FenceControl(a: Attempt): Attempt {
    var s := View(a);
    if !ControlFence(s, a.auditTotal) then Fail(a, FenceMissed)
    else WriteMeta(a, s.meta.value.(controlWriteSeq := s.meta.value.controlWriteSeq + 1))
  }

  function Transition(target: string, a: Attempt): Attempt {
    var s := View(a);
    if !Authorized(s, target) then Fail(a, AuthorityMissed)
    else WriteConfig(a, target, s.configs[target].(revision := 1, enabled := false, health := Revoked))
  }

  function Retain(a: Attempt): Attempt {
    var s := View(a);
    var retained := |s.postings|;
    if retained > MAX_POSTINGS then Fail(a, CorpusTooLarge)
    else if !ControlFence(s, a.auditTotal + 1) then Fail(a, FenceMissed)
    else WriteMeta(a, s.meta.value.(retainedPostings := retained))
  }

  function CountPasses(target: string, a: Attempt): Attempt {
    Next(a).(drift := |Matched(View(a).postings, DriftPass, target)|,
             malformed := |Matched(View(a).postings, FallbackPass, target)|)
  }

  function Record(target: string, a: Attempt): Attempt {
    if AuditTaken(View(a), target) then Fail(a, DuplicateKey)
    else
      var row := Audit(OperationId(target), "revoke", a.now);
      Next(a).(writes := a.writes.(audits := a.writes.audits[(target, 1) := row]))
  }

  /** Counting and closing what the target restricts, then the audit row. */
  function RevokePasses(target: string, a: Attempt): Attempt {
    match a.pc
    case 4 => CountPasses(target, a)
    case 5 => CloseMany(a, ListedPass, target)
    case 6 => CloseIfAny(a, a.drift, DriftPass, target)
    case 7 => CloseIfAny(a, a.malformed, FallbackPass, target)
    case _ => Record(target, a)
  }

  function RevokeStep(target: string, a: Attempt): Attempt {
    match a.pc
    case 0 => ReadSequence(a)
    case 1 => FenceControl(a)
    case 2 => Transition(target, a)
    case 3 => Retain(a)
    case _ => RevokePasses(target, a)
  }

  function ReadMeta(a: Attempt): Attempt {
    if !MetaReady(View(a)) then Fail(a, FenceMissed) else Next(a).(seen := View(a).meta.value)
  }

  function FenceIngest(a: Attempt): Attempt {
    var s := View(a);
    if !IngestFence(s, a.seen.ingestWriteSeq) then Fail(a, FenceMissed)
    else WriteMeta(a, s.meta.value.(ingestWriteSeq := s.meta.value.ingestWriteSeq + 1))
  }

  function FenceSource(target: string, a: Attempt): Attempt {
    var s := View(a);
    if !Authorized(s, target) then Fail(a, AuthorityMissed)
    else WriteConfig(a, target, s.configs[target].(writeSeq := s.configs[target].writeSeq + 1))
  }

  function CheckHead(target: string, a: Attempt): Attempt {
    if Audited(View(a), target) then Fail(a, AuthorityMissed) else Next(a)
  }

  function AddPosting(id: string, posting: Posting, a: Attempt): Attempt {
    if id in View(a).postings then Fail(a, DuplicateKey)
    else Next(a).(writes := a.writes.(postings := a.writes.postings[id := posting]))
  }

  function Admit(a: Attempt): Attempt {
    var s := View(a);
    if a.seen.retainedPostings + 1 > MAX_POSTINGS then Fail(a, CapacityRejected)
    else if !IngestFence(s, a.seen.ingestWriteSeq + 1) || s.meta.value.retainedPostings != a.seen.retainedPostings
    then Fail(a, FenceMissed)
    else WriteMeta(a, s.meta.value.(retainedPostings := s.meta.value.retainedPostings + 1))
  }

  function InsertStep(target: string, id: string, posting: Posting, a: Attempt): Attempt {
    match a.pc
    case 0 => ReadMeta(a)
    case 1 => FenceIngest(a)
    case 2 => FenceSource(target, a)
    case 3 => CheckHead(target, a)
    case 4 => AddPosting(id, posting, a)
    case _ => Admit(a)
  }

  /** The next operation of the callback; nothing more happens once it has failed or finished. */
  function Step(op: Op, a: Attempt): Attempt {
    if a.error.Some? || a.pc >= Length(op) then a
    else match op
      case Revoke(target) => RevokeStep(target, a)
      case Insert(target, id, posting) => InsertStep(target, id, posting, a)
  }

  function Steps(op: Op, a: Attempt, n: nat): Attempt {
    if n == 0 then a else Step(op, Steps(op, a, n - 1))
  }

  // ---- What a whole callback means ----

  datatype Effect = Effect(store: Store, affected: nat)

  /** The postings the gate holds restricted for `target`. */
  function Under(postings: map<string, Posting>, target: string): set<string> {
    set id | id in postings && L.Restricted(postings[id].row, target)
  }

  function CloseIds(postings: map<string, Posting>, ids: set<string>, now: int): map<string, Posting> {
    map id | id in postings :: if id in ids then Close(postings[id], now) else postings[id]
  }

  /** Every posting the gate would count for `target` is closed, and nothing else about postings changes. */
  function RevokeOutcome(s: Store, target: string, now: int): Result<Effect, Error> {
    if !MetaReady(s) || s.meta.value.controlWriteSeq != |s.audits| then Err(SequenceDrift)
    else if !Authorized(s, target) then Err(AuthorityMissed)
    else if |s.postings| > MAX_POSTINGS then Err(CorpusTooLarge)
    else if AuditTaken(s, target) then Err(DuplicateKey)
    else Ok(Effect(
      Store(
        s.configs[target := s.configs[target].(revision := 1, enabled := false, health := Revoked)],
        CloseIds(s.postings, Under(s.postings, target), now),
        s.audits[(target, 1) := Audit(OperationId(target), "revoke", now)],
        Some(s.meta.value.(controlWriteSeq := s.meta.value.controlWriteSeq + 1, retainedPostings := |s.postings|))),
      |Under(s.postings, target)|))
  }

  function InsertOutcome(s: Store, target: string, id: string, posting: Posting): Result<Effect, Error> {
    if !MetaReady(s) then Err(FenceMissed)
    else if !Authorized(s, target) || Audited(s, target) then Err(AuthorityMissed)
    else if id in s.postings then Err(DuplicateKey)
    else if s.meta.value.retainedPostings + 1 > MAX_POSTINGS then Err(CapacityRejected)
    else Ok(Effect(
      Store(
        s.configs[target := s.configs[target].(writeSeq := s.configs[target].writeSeq + 1)],
        s.postings[id := posting],
        s.audits,
        Some(s.meta.value.(ingestWriteSeq := s.meta.value.ingestWriteSeq + 1,
                           retainedPostings := s.meta.value.retainedPostings + 1))),
      0))
  }

  function Outcome(op: Op, s: Store, now: int): Result<Effect, Error> {
    match op
    case Revoke(target) => RevokeOutcome(s, target, now)
    case Insert(target, id, posting) => InsertOutcome(s, target, id, posting)
  }

  // ---- The three passes add up to the gate's filter ----

  lemma OverlayAssociates<K, V>(s: map<K, V>, w: map<K, V>, m: map<K, V>)
    ensures (s + w) + m == s + (w + m)
  {}

  lemma OverlayCloses(postings: map<string, Posting>, ids: set<string>, now: int)
    requires ids <= postings.Keys
    ensures postings + (map id | id in ids :: Close(postings[id], now)) == CloseIds(postings, ids, now)
  {}

  lemma CloseIdsTwice(postings: map<string, Posting>, done: set<string>, ids: set<string>, now: int)
    ensures CloseIds(CloseIds(postings, done, now), ids, now) == CloseIds(postings, done + ids, now)
  {}

  /** Closing changes no lineage, so later filters select what they selected before. */
  lemma ClosingKeepsMatches(postings: map<string, Posting>, done: set<string>, now: int, pass: Pass, target: string)
    ensures Matched(CloseIds(postings, done, now), pass, target) == Matched(postings, pass, target)
  {
    var closed := CloseIds(postings, done, now);
    assert forall id :: id in postings ==> closed[id].row == postings[id].row;
  }

  lemma ClosePass(a: Attempt, pass: Pass, target: string, postings: map<string, Posting>, done: set<string>)
    requires View(a).postings == CloseIds(postings, done, a.now)
    ensures var b := CloseMany(a, pass, target);
            var ids := Matched(postings, pass, target);
            && View(b).postings == CloseIds(postings, done + ids, a.now)
            && b.affected == a.affected + |ids|
  {
    var v, ids := View(a).postings, Matched(postings, pass, target);
    ClosingKeepsMatches(postings, done, a.now, pass, target);
    OverlayAssociates(a.snapshot.postings, a.writes.postings, map id | id in ids :: Close(v[id], a.now));
    OverlayCloses(v, ids, a.now);
    CloseIdsTwice(postings, done, ids, a.now);
  }

  lemma PassesDisjoint(postings: map<string, Posting>, target: string)
    ensures var l := Matched(postings, ListedPass, target);
            var d := Matched(postings, DriftPass, target);
            var f := Matched(postings, FallbackPass, target);
            && Under(postings, target) == l + d + f
            && |Under(postings, target)| == |l| + |d| + |f|
  {
    var l, d := Matched(postings, ListedPass, target), Matched(postings, DriftPass, target);
    var f := Matched(postings, FallbackPass, target);
    forall id | id in postings
      ensures !(id in l && id in d) && !(id in l && id in f) && !(id in d && id in f)
      ensures id in Under(postings, target) <==> id in l || id in d || id in f
    {
      L.PassesPartitionRestricted(postings[id].row, target);
    }
    assert Under(postings, target) == l + d + f;
    assert |l + d| == |l| + |d|;
    assert |(l + d) + f| == |l + d| + |f|;
  }

  lemma CloseIfAnyPass(a: Attempt, count: nat, pass: Pass, target: string, postings: map<string, Posting>,
                       done: set<string>)
    requires View(a).postings == CloseIds(postings, done, a.now)
    requires count == |Matched(postings, pass, target)|
    ensures var b := CloseIfAny(a, count, pass, target);
            var ids := Matched(postings, pass, target);
            && View(b).postings == CloseIds(postings, done + ids, a.now)
            && b.affected == a.affected + |ids|
  {
    if count > 0 {
      ClosePass(a, pass, target, postings, done);
    } else {
      assert done + Matched(postings, pass, target) == done;
    }
  }

  lemma FirstPass(target: string, a: Attempt, postings: map<string, Posting>)
    requires View(a).postings == postings
    ensures
      var b := CloseMany(a, ListedPass, target);
      var listed := Matched(postings, ListedPass, target);
      && View(b).postings == CloseIds(postings, listed, a.now) && b.affected == a.affected + |listed|
      && b.now == a.now && b.drift == a.drift && b.malformed == a.malformed
  {
    var listed := Matched(postings, ListedPass, target);
    assert postings == CloseIds(postings, {}, a.now);
    ClosePass(a, ListedPass, target, postings, {});
    assert {} + listed == listed;
  }

  /** A later pass, on top of what is closed already. */
  lemma LaterPass(target: string, a: Attempt, count: nat, pass: Pass, postings: map<string, Posting>, done: set<string>)
    requires View(a).postings == CloseIds(postings, done, a.now) && count == |Matched(postings, pass, target)|
    ensures
      var b := CloseIfAny(a, count, pass, target);
      var ids := Matched(postings, pass, target);
      && View(b).postings == CloseIds(postings, done + ids, a.now) && b.affected == a.affected + |ids|
      && b.now == a.now && b.drift == a.drift && b.malformed == a.malformed
  {
    CloseIfAnyPass(a, count, pass, target, postings, done);
  }

  /** The three passes together close exactly the restricted postings, each counted once. */
  lemma PassesCloseRestricted(target: string, a: Attempt, postings: map<string, Posting>, a3: Attempt)
    requires View(a).postings == postings && a.affected == 0
    requires a.drift == |Matched(postings, DriftPass, target)| &&
             a.malformed == |Matched(postings, FallbackPass, target)|
    requires var a1 := CloseMany(a, ListedPass, target);
             var a2 := CloseIfAny(a1, a1.drift, DriftPass, target);
             a3 == CloseIfAny(a2, a2.malformed, FallbackPass, target)
    ensures View(a3).postings == CloseIds(postings, Under(postings, target), a.now)
    ensures a3.affected == |Under(postings, target)|
  {
    var l, d := Matched(postings, ListedPass, target), Matched(postings, DriftPass, target);
    var a1 := CloseMany(a, ListedPass, target);
    var a2 := CloseIfAny(a1, a1.drift, DriftPass, target);
    FirstPass(target, a, postings);
    LaterPass(target, a1, a1.drift, DriftPass, postings, l);
    LaterPass(target, a2, a2.malformed, FallbackPass, postings, l + d);
    PassesDisjoint(postings, target);
  }

  // ---- The operations add up to the outcome ----

  /** A finished attempt means what `Outcome` says, and has written the shared meta document. */
  ghost predicate Realizes(op: Op, s: Store, now: int, a: Attempt) {
    match Outcome(op, s, now)
    case Err(e) => a.error == Some(e)
    case Ok(effect) =>
      && a.error == None && a.pc == Length(op) && a.snapshot == s
      && View(a) == effect.store && a.affected == effect.affected
      && a.writes.meta.Some?
  }

  /** An operation keeps the clock reading and either fails or moves to the next one. */
  ghost predicate Proceeds(a: Attempt, b: Attempt) {
    b.now == a.now && (b.error == a.error ==> b.pc == a.pc + 1)
  }

  lemma ClosingProceeds(a: Attempt, count: nat, pass: Pass, target: string)
    ensures Proceeds(a, CloseMany(a, pass, target)) && Proceeds(a, CloseIfAny(a, count, pass, target))
  {}

  lemma FencesProceed(target: string, a: Attempt)
    requires a.error == None
    ensures Proceeds(a, ReadSequence(a)) && Proceeds(a, FenceControl(a)) && Proceeds(a, Transition(target, a)) &&
            Proceeds(a, Retain(a))
  {}

  lemma PassesProceed(target: string, a: Attempt)
    requires a.error == None
    ensures Proceeds(a, RevokePasses(target, a))
  {
    match a.pc
    case 4 => assert Proceeds(a, CountPasses(target, a));
    case 5 => ClosingProceeds(a, 0, ListedPass, target);
    case 6 => ClosingProceeds(a, a.drift, DriftPass, target);
    case 7 => ClosingProceeds(a, a.malformed, FallbackPass, target);
    case _ => assert Proceeds(a, Record(target, a));
  }

  lemma InsertProceeds(target: string, id: string, posting: Posting, a: Attempt)
    requires a.error == None
    ensures Proceeds(a, InsertStep(target, id, posting, a))
  {}

  lemma RevokeProceeds(target: string, a: Attempt)
    requires a.error == None
    ensures Proceeds(a, RevokeStep(target, a))
  {
    FencesProceed(target, a);
    PassesProceed(target, a);
  }

  lemma StepCounts(op: Op, a: Attempt)
    ensures a.error == None && a.pc < Length(op) ==> Proceeds(a, Step(op, a))
    ensures a.error.Some? || a.pc >= Length(op) ==> Step(op, a) == a
  {
    if a.error == None && a.pc < Length(op) {
      match op
      case Revoke(target) => RevokeProceeds(target, a);
      case Insert(target, id, posting) => InsertProceeds(target, id, posting, a);
    }
  }

  lemma {:induction false} StepsFailed(op: Op, a: Attempt, n: nat, m: nat)
    requires n <= m && Steps(op, a, n).error.Some?
    ensures Steps(op, a, m) == Steps(op, a, n)
  {
    if n < m { StepsFailed(op, a, n, m - 1); }
  }

  lemma OverlayNothing<K, V>(m: map<K, V>)
    ensures m + map[] == m
  {}

  /** Collections a transaction has not written read as in its snapshot. */
  lemma UnwrittenReads(s: Store, w: Writes)
    ensures w.configs == map[] ==> Overlay(s, w).configs == s.configs
    ensures w.postings == map[] ==> Overlay(s, w).postings == s.postings
    ensures w.audits == map[] ==> Overlay(s, w).audits == s.audits
    ensures w == NO_WRITES ==> Overlay(s, w) == s
  {
    OverlayNothing(s.configs);
    OverlayNothing(s.postings);
    OverlayNothing(s.audits);
  }

  function FencedMeta(s: Store): Meta
    requires MetaReady(s)
  {
    s.meta.value.(controlWriteSeq := s.meta.value.controlWriteSeq + 1)
  }

  function RevokedConfig(s: Store, target: string): Config
    requires Authorized(s, target)
  {
    s.configs[target].(revision := 1, enabled := false, health := Revoked)
  }

  lemma NextStep(op: Op, a: Attempt, n: nat)
    ensures Steps(op, a, n + 1) == Step(op, Steps(op, a, n))
  {}

  /** The fence is written first, and within its own snapshot it always matches. */
  lemma RevokeFences(s: Store, target: string, now: int)
    ensures !ControlFence(s, |s.audits|) ==> Steps(Revoke(target), Start(s, now), 2).error == Some(SequenceDrift)
    ensures ControlFence(s, |s.audits|) ==>
              Steps(Revoke(target), Start(s, now), 2) ==
                Start(s, now).(pc := 2, auditTotal := |s.audits|, writes := NO_WRITES.(meta := Some(FencedMeta(s))))
  {
    var op, a0 := Revoke(target), Start(s, now);
    UnwrittenReads(s, NO_WRITES);
    NextStep(op, a0, 0);
    assert Steps(op, a0, 1) == ReadSequence(a0);
    NextStep(op, a0, 1);
    if ControlFence(s, |s.audits|) {
      assert View(ReadSequence(a0)) == s;
      assert Steps(op, a0, 2) == FenceControl(ReadSequence(a0));
    }
  }

  /** After the transition and the retained count, only the meta and config documents are written. */
  lemma RevokeRetains(s: Store, target: string, a2: Attempt)
    requires ControlFence(s, |s.audits|)
    requires a2 == Start(s, a2.now).(pc := 2, auditTotal := |s.audits|,
                                     writes := NO_WRITES.(meta := Some(FencedMeta(s))))
    ensures !Authorized(s, target) ==> Transition(target, a2).error == Some(AuthorityMissed)
    ensures Authorized(s, target) && |s.postings| > MAX_POSTINGS ==>
              Retain(Transition(target, a2)).error == Some(CorpusTooLarge)
    ensures Authorized(s, target) && |s.postings| <= MAX_POSTINGS ==>
              && Transition(target, a2).error == None && Transition(target, a2).pc == 3
              && Retain(Transition(target, a2)) ==
                   a2.(pc := 4, writes := Writes(map[target := RevokedConfig(s, target)], map[], map[],
                                                 Some(FencedMeta(s).(retainedPostings := |s.postings|))))
  {
    UnwrittenReads(s, a2.writes);
    if Authorized(s, target) {
      UnwrittenReads(s, Transition(target, a2).writes);
    }
  }

  /** The passes and the audit complete the outcome. */
  lemma RevokeCloses(s: Store, target: string, a4: Attempt, a8: Attempt)
    requires ControlFence(s, |s.audits|) && Authorized(s, target) && |s.postings| <= MAX_POSTINGS
    requires a4 == Start(s, a4.now).(pc := 4, auditTotal := |s.audits|,
                     writes := Writes(map[target := RevokedConfig(s, target)], map[], map[],
                                      Some(FencedMeta(s).(retainedPostings := |s.postings|))))
    requires var a5 := CountPasses(target, a4);
             var a6 := CloseMany(a5, ListedPass, target);
             var a7 := CloseIfAny(a6, a6.drift, DriftPass, target);
             a8 == CloseIfAny(a7, a7.malformed, FallbackPass, target)
    ensures Realizes(Revoke(target), s, a4.now, Record(target, a8))
  {
    UnwrittenReads(s, a4.writes);
    var a5 := CountPasses(target, a4);
    PassesCloseRestricted(target, a5, s.postings, a8);
    RecordRealizes(s, target, a8);
  }

  ghost predicate ReadyToRecord(s: Store, target: string, a8: Attempt) {
    && ControlFence(s, |s.audits|) && Authorized(s, target) && |s.postings| <= MAX_POSTINGS
    && a8.snapshot == s && a8.error == None && a8.pc == 8
    && a8.writes == Writes(map[target := RevokedConfig(s, target)], a8.writes.postings, map[],
                           Some(FencedMeta(s).(retainedPostings := |s.postings|)))
    && View(a8).postings == CloseIds(s.postings, Under(s.postings, target), a8.now)
    && a8.affected == |Under(s.postings, target)|
  }

  lemma RecordStore(s: Store, target: string, a8: Attempt)
    requires ReadyToRecord(s, target, a8) && !AuditTaken(s, target)
    ensures View(Record(target, a8)) == RevokeOutcome(s, target, a8.now).value.store
  {
    UnwrittenReads(s, a8.writes);
    OverlayOne(s.configs, target, RevokedConfig(s, target));
    OverlayOne(s.audits, (target, 1), Audit(OperationId(target), "revoke", a8.now));
  }

  lemma RecordRealizes(s: Store, target: string, a8: Attempt)
    requires ReadyToRecord(s, target, a8)
    ensures Realizes(Revoke(target), s, a8.now, Record(target, a8))
  {
    UnwrittenReads(s, a8.writes);
    if !AuditTaken(s, target) { RecordStore(s, target, a8); }
  }

  lemma OverlayOne<K, V>(m: map<K, V>, k: K, v: V)
    ensures m + map[k := v] == m[k := v]
    ensures m + map[][k := v] == m[k := v]
  {}

  lemma RevokeRealizes(s: Store, target: string, now: int)
    ensures Realizes(Revoke(target), s, now, Steps(Revoke(target), Start(s, now), 9))
  {
    var op, a0 := Revoke(target), Start(s, now);
    RevokeFences(s, target, now);
    var a2 := Steps(op, a0, 2);
    if a2.error.Some? { StepsFailed(op, a0, 2, 9); return; }
    RevokeRetains(s, target, a2);
    NextStep(op, a0, 2);
    var a3 := Steps(op, a0, 3);
    assert a3 == Transition(target, a2);
    if a3.error.Some? { StepsFailed(op, a0, 3, 9); return; }
    NextStep(op, a0, 3);
    var a4 := Steps(op, a0, 4);
    assert a4 == Retain(a3);
    if a4.error.Some? { StepsFailed(op, a0, 4, 9); return; }
    RevokeTail(target, a0, a4);
    var a5 := CountPasses(target, a4);
    var a6 := CloseMany(a5, ListedPass, target);
    var a7 := CloseIfAny(a6, a6.drift, DriftPass, target);
    RevokeCloses(s, target, a4, CloseIfAny(a7, a7.malformed, FallbackPass, target));
  }

  /** From pc 4 on each operation of a revoke is unconditional; `b` is the attempt so far. */
  lemma RevokeTailStep(target: string, a0: Attempt, n: nat, b: Attempt, c: Attempt)
    requires 4 <= n <= 8 && b == Steps(Revoke(target), a0, n) && b.pc == n && b.error == None
    requires c == match n
                  case 4 => CountPasses(target, b)
                  case 5 => CloseMany(b, ListedPass, target)
                  case 6 => CloseIfAny(b, b.drift, DriftPass, target)
                  case 7 => CloseIfAny(b, b.malformed, FallbackPass, target)
                  case _ => Record(target, b)
    ensures Steps(Revoke(target), a0, n + 1) == c
    ensures n < 8 ==> c.pc == n + 1 && c.error == None
  {
    NextStep(Revoke(target), a0, n);
  }

  lemma RevokeTail(target: string, a0: Attempt, a4: Attempt)
    requires a4 == Steps(Revoke(target), a0, 4) && a4.pc == 4 && a4.error == None
    ensures var a5 := CountPasses(target, a4);
            var a6 := CloseMany(a5, ListedPass, target);
            var a7 := CloseIfAny(a6, a6.drift, DriftPass, target);
            Steps(Revoke(target), a0, 9) == Record(target, CloseIfAny(a7, a7.malformed, FallbackPass, target))
  {
    var a5 := CountPasses(target, a4);
    RevokeTailStep(target, a0, 4, a4, a5);
    var a6 := CloseMany(a5, ListedPass, target);
    RevokeTailStep(target, a0, 5, a5, a6);
    var a7 := CloseIfAny(a6, a6.drift, DriftPass, target);
    RevokeTailStep(target, a0, 6, a6, a7);
    var a8 := CloseIfAny(a7, a7.malformed, FallbackPass, target);
    RevokeTailStep(target, a0, 7, a7, a8);
    RevokeTailStep(target, a0, 8, a8, Record(target, a8));
  }

  lemma InsertFences(s: Store, target: string, id: string, posting: Posting, now: int)
    ensures var op, a0 := Insert(target, id, posting), Start(s, now);
            if !MetaReady(s) then Steps(op, a0, 1).error == Some(FenceMissed)
            else Steps(op, a0, 3) == FenceSource(target, FenceIngest(ReadMeta(a0)))
    ensures MetaReady(s) ==> View(FenceIngest(ReadMeta(Start(s, now)))).configs == s.configs
  {
    var op, a0 := Insert(target, id, posting), Start(s, now);
    assert View(a0) == s;
    NextStep(op, a0, 0);
    var a1 := ReadMeta(a0);
    assert Steps(op, a0, 1) == a1;
    if MetaReady(s) {
      NextStep(op, a0, 1);
      var a2 := FenceIngest(a1);
      assert View(a1) == s && Steps(op, a0, 2) == a2;
      NextStep(op, a0, 2);
      assert View(a2).configs == s.configs;
    }
  }

  /** The attempt has fenced meta and source, and the source's head was free. */
  ghost predicate Fenced(s: Store, target: string, now: int, a4: Attempt) {
    && target in s.configs && s.meta.Some?
    && a4.writes ==
         Writes(map[target := s.configs[target].(writeSeq := s.configs[target].writeSeq + 1)], map[], map[],
                Some(s.meta.value.(ingestWriteSeq := s.meta.value.ingestWriteSeq + 1)))
    && a4.now == now && a4.pc == 4 && a4.snapshot == s && a4.seen == s.meta.value
    && a4.error == None && a4.affected == 0
  }

  lemma SourceIsFenced(s: Store, target: string, now: int)
    requires MetaReady(s)
    ensures var a3 := FenceSource(target, FenceIngest(ReadMeta(Start(s, now))));
            && (!Authorized(s, target) ==> a3.error == Some(AuthorityMissed))
            && (Authorized(s, target) ==> a3.error == None && a3.pc == 3)
            && (Authorized(s, target) && Audited(s, target) ==> CheckHead(target, a3).error == Some(AuthorityMissed))
            && (Authorized(s, target) && !Audited(s, target) ==> Fenced(s, target, now, CheckHead(target, a3)))
  {
    var a2 := FenceIngest(ReadMeta(Start(s, now)));
    assert View(Start(s, now)) == s && View(ReadMeta(Start(s, now))) == s;
    assert View(a2).configs == s.configs;
    assert View(FenceSource(target, a2)).audits == s.audits;
  }

  lemma InsertRealizes(s: Store, target: string, id: string, posting: Posting, now: int)
    ensures Realizes(Insert(target, id, posting), s, now, Steps(Insert(target, id, posting), Start(s, now), 6))
  {
    var op, a0 := Insert(target, id, posting), Start(s, now);
    InsertFences(s, target, id, posting, now);
    if !MetaReady(s) { StepsFailed(op, a0, 1, 6); return; }
    SourceIsFenced(s, target, now);
    if !Authorized(s, target) { StepsFailed(op, a0, 3, 6); return; }
    NextStep(op, a0, 3);
    if Audited(s, target) { StepsFailed(op, a0, 4, 6); return; }
    InsertPlaces(s, target, id, posting, now, CheckHead(target, FenceSource(target, FenceIngest(ReadMeta(a0)))));
  }

  /** From the fenced source on: the posting is placed and admitted. */
  lemma InsertPlaces(s: Store, target: string, id: string, posting: Posting, now: int, a4: Attempt)
    requires Steps(Insert(target, id, posting), Start(s, now), 4) == a4
    requires MetaReady(s) && Authorized(s, target) && !Audited(s, target)
    requires Fenced(s, target, now, a4)
    ensures Realizes(Insert(target, id, posting), s, now, Steps(Insert(target, id, posting), Start(s, now), 6))
  {
    var op, a0 := Insert(target, id, posting), Start(s, now);
    InsertAdmits(s, target, id, posting, a4);
    NextStep(op, a0, 4);
    if Steps(op, a0, 5).error.Some? { StepsFailed(op, a0, 5, 6); } else { NextStep(op, a0, 5); }
  }

  /** The attempt has fenced meta and source and inserted the posting. */
  ghost predicate Placed(s: Store, target: string, id: string, posting: Posting, a5: Attempt) {
    && target in s.configs && s.meta.Some?
    && a5.writes == Writes(map[target := s.configs[target].(writeSeq := s.configs[target].writeSeq + 1)],
                           map[id := posting], map[],
                           Some(s.meta.value.(ingestWriteSeq := s.meta.value.ingestWriteSeq + 1)))
    && a5.pc == 5 && a5.snapshot == s && a5.seen == s.meta.value && a5.error == None && a5.affected == 0
  }

  lemma PlacedAdmits(s: Store, target: string, id: string, posting: Posting, a5: Attempt)
    requires MetaReady(s) && Authorized(s, target) && !Audited(s, target) && id !in s.postings
    requires Placed(s, target, id, posting, a5)
    ensures Realizes(Insert(target, id, posting), s, a5.now, Admit(a5))
  {
    assert View(a5).meta == Some(s.meta.value.(ingestWriteSeq := s.meta.value.ingestWriteSeq + 1));
  }

  lemma InsertAdmits(s: Store, target: string, id: string, posting: Posting, a4: Attempt)
    requires MetaReady(s) && Authorized(s, target) && !Audited(s, target)
    requires Fenced(s, target, a4.now, a4)
    ensures id in s.postings ==> AddPosting(id, posting, a4).error == Some(DuplicateKey)
    ensures id !in s.postings ==>
              && AddPosting(id, posting, a4).error == None && AddPosting(id, posting, a4).pc == 5
              && Realizes(Insert(target, id, posting), s, a4.now, Admit(AddPosting(id, posting, a4)))
  {
    assert View(a4).postings == s.postings;
    if id !in s.postings {
      assert Placed(s, target, id, posting, AddPosting(id, posting, a4));
      PlacedAdmits(s, target, id, posting, AddPosting(id, posting, a4));
    }
  }

  /** Running every operation of a callback against a snapshot has exactly its outcome. */
  lemma CallbackRealizes(op: Op, s: Store, now: int)
    ensures Realizes(op, s, now, Steps(op, Start(s, now), Length(op)))
  {
    match op
    case Revoke(target) => RevokeRealizes(s, target, now);
    case Insert(target, id, posting) => InsertRealizes(s, target, id, posting, now);
  }

  /** One more step of a callback part-way through: it is one step further, or it has failed as the callback
      as a whole fails. */
  lemma CallbackStep(op: Op, s: Store, now: int, a: Attempt, b: Attempt)
    requires a == Steps(op, Start(s, now), a.pc) && a.error == None && a.pc <= Length(op) && a.now == now
    requires b == Step(op, a)
    ensures b.now == now
    ensures b.error == None ==> b.pc <= Length(op) && b == Steps(op, Start(s, now), b.pc)
    ensures b.error.Some? ==> Outcome(op, s, now) == Err(b.error.value)
  {
    StepCounts(op, a);
    if a.pc < Length(op) {
      NextStep(op, Start(s, now), a.pc);
      if b.error.Some? {
        StepsFailed(op, Start(s, now), a.pc + 1, Length(op));
        CallbackRealizes(op, s, now);
      }
    }
  }
}
