/**
 What every run of the source-control transactions keeps, whatever the interleaving.
 */
module Safety {
  import opened Wrappers
  import L = Lineage
  import opened SourceControl
  import opened Interleaving

  function AuditsOf(audits: map<(string, int), Audit>, source: string): set<(string, int)> {
    set k | k in audits && k.0 == source
  }

  predicate IsRevoked(s: Store, source: string) { source in s.configs && s.configs[source].health == Revoked }

  /** No posting that a revoked source's filters select is reachable or will be purged. */
  ghost predicate RestrictionsHold(s: Store) {
    forall source, id :: IsRevoked(s, source) && id in s.postings && L.Restricted(s.postings[id].row, source) ==>
      !Accessible(s.postings[id])
  }

  /** The counters of the shared document agree with the collections, and restrictions hold. */
  ghost predicate Consistent(s: Store) {
    && MetaReady(s)
    && s.meta.value.controlWriteSeq == |s.audits|
    && s.meta.value.retainedPostings == |s.postings| <= MAX_POSTINGS
    && (forall source :: source in s.configs ==> s.configs[source].revision == |AuditsOf(s.audits, source)|)
    && (forall source :: IsRevoked(s, source) ==> !s.configs[source].enabled)
    && RestrictionsHold(s)
  }

  // ---- Each transaction ----

  lemma MapGrows<K, V>(m: map<K, V>, k: K, v: V)
    requires k !in m
    ensures |m[k := v]| == |m| + 1
  {
    assert m[k := v].Keys == m.Keys + {k};
    assert |m.Keys| == |m| && |m[k := v].Keys| == |m[k := v]|;
  }

  lemma AuditsOfGrow(audits: map<(string, int), Audit>, key: (string, int), a: Audit, source: string)
    requires key !in audits
    ensures |AuditsOf(audits[key := a], source)| == |AuditsOf(audits, source)| + if source == key.0 then 1 else 0
  {
    if source == key.0 {
      assert AuditsOf(audits[key := a], source) == AuditsOf(audits, source) + {key};
    } else {
      assert AuditsOf(audits[key := a], source) == AuditsOf(audits, source);
    }
  }

  lemma RevokeKeepsRestrictions(s: Store, target: string, now: int)
    requires Consistent(s) && RevokeOutcome(s, target, now).Ok?
    ensures RestrictionsHold(RevokeOutcome(s, target, now).value.store)
  {
    var t := RevokeOutcome(s, target, now).value.store;
    forall source, id | IsRevoked(t, source) && id in t.postings && L.Restricted(t.postings[id].row, source)
      ensures !Accessible(t.postings[id])
    {
      assert t.postings[id].row == s.postings[id].row;
      if source != target { assert IsRevoked(s, source); }
    }
  }

  lemma RevokeKeepsConsistent(s: Store, target: string, now: int)
    requires Consistent(s) && RevokeOutcome(s, target, now).Ok?
    ensures Consistent(RevokeOutcome(s, target, now).value.store)
  {
    var t := RevokeOutcome(s, target, now).value.store;
    RevokeKeepsRestrictions(s, target, now);
    assert t.postings.Keys == s.postings.Keys;
    forall source | source in t.configs ensures t.configs[source].revision == |AuditsOf(t.audits, source)| {
      AuditsOfGrow(s.audits, (target, 1), Audit(OperationId(target), "revoke", now), source);
    }
    MapGrows(s.audits, (target, 1), Audit(OperationId(target), "revoke", now));
    forall source | IsRevoked(t, source) ensures !t.configs[source].enabled {
      if source != target { assert IsRevoked(s, source); }
    }
  }

  /** An insert may break consistency in one way only: a revoked source selects the new posting and it is open. */
  predicate EscapesNoRevoke(s: Store, posting: Posting) {
    !Accessible(posting) || forall source :: source in s.configs && IsRevoked(s, source) ==>
      !L.Restricted(posting.row, source)
  }

  lemma InsertRestrictionsIff(s: Store, target: string, id: string, posting: Posting)
    requires RestrictionsHold(s) && InsertOutcome(s, target, id, posting).Ok?
    ensures RestrictionsHold(InsertOutcome(s, target, id, posting).value.store) <==> EscapesNoRevoke(s, posting)
  {
    var t := InsertOutcome(s, target, id, posting).value.store;
    if !EscapesNoRevoke(s, posting) {
      var source :| source in s.configs && IsRevoked(s, source) && L.Restricted(posting.row, source);
      assert IsRevoked(t, source) && t.postings[id] == posting;
    } else {
      forall source, k | IsRevoked(t, source) && k in t.postings && L.Restricted(t.postings[k].row, source)
        ensures !Accessible(t.postings[k])
      {
        assert IsRevoked(s, source);
      }
    }
  }

  lemma InsertKeepsConsistentIff(s: Store, target: string, id: string, posting: Posting)
    requires Consistent(s) && InsertOutcome(s, target, id, posting).Ok?
    ensures Consistent(InsertOutcome(s, target, id, posting).value.store) <==> EscapesNoRevoke(s, posting)
  {
    var t := InsertOutcome(s, target, id, posting).value.store;
    InsertRestrictionsIff(s, target, id, posting);
    MapGrows(s.postings, id, posting);
    forall source | IsRevoked(t, source) ensures !t.configs[source].enabled {
      assert IsRevoked(s, source);
    }
  }

  // The condition of InsertKeepsConsistentIff can fail: with two sources, one of them revoked, a posting that
  // the other brings in may list both.

  const TWO_SOURCES := Store(
    map["a" := Config(0, 0, true, Active), "b" := Config(0, 0, true, Active)], map[], map[], Some(Meta(1, 0, 0, 0)))

  const SHARED := Posting(L.Row(Some(L.List([L.Text("b"), L.Text("a")])), None), "open", None, None, None)

  lemma TwoSourcesAreConsistent()
    ensures Consistent(TWO_SOURCES)
  {
    forall source | source in TWO_SOURCES.configs
      ensures TWO_SOURCES.configs[source].revision == |AuditsOf(TWO_SOURCES.audits, source)| {
      assert AuditsOf(TWO_SOURCES.audits, source) == {};
    }
  }

  /** After a revoke of "a" an insert for "b" succeeds and leaves a store that is not consistent. */
  lemma SharedPostingEscapes()
    ensures RevokeOutcome(TWO_SOURCES, "a", 0).Ok?
    ensures var s := RevokeOutcome(TWO_SOURCES, "a", 0).value.store;
            && Consistent(s) && InsertOutcome(s, "b", "p", SHARED).Ok?
            && !Consistent(InsertOutcome(s, "b", "p", SHARED).value.store)
  {
    TwoSourcesAreConsistent();
    assert RevokeOutcome(TWO_SOURCES, "a", 0).Ok?;
    RevokeKeepsConsistent(TWO_SOURCES, "a", 0);
    var s := RevokeOutcome(TWO_SOURCES, "a", 0).value.store;
    assert IsRevoked(s, "a") && s.audits.Keys == {("a", 1)};
    assert L.Text("a") == SHARED.row.sourceIds.value.items[1];
    assert L.Restricted(SHARED.row, "a");
    assert "b" != "a" && Authorized(s, "b") && !Audited(s, "b");
    InsertKeepsConsistentIff(s, "b", "p", SHARED);
  }

  /** The posting names its own canonical source and no other. */
  predicate OwnLineage(target: string, row: L.Row) {
    && L.CanonicalText(target) && target != L.UNKNOWN
    && row.sourceIds == Some(L.List([L.Text(target)]))
    && row.provenance.Some? && row.provenance.value.List?
    && forall e :: e in row.provenance.value.items ==> L.EntrySourceId(e) == Some(L.Text(target))
  }

  lemma OwnLineageUnrestricted(target: string, row: L.Row, source: string)
    requires OwnLineage(target, row) && source != target
    ensures !L.Restricted(row, source)
  {
    assert L.SafeArray(row.sourceIds) == [L.Text(target)];
  }

  predicate OwnOp(op: Op) { op.Insert? ==> OwnLineage(op.target, op.posting.row) }

  lemma ApplyKeepsConsistent(s: Store, c: Commit)
    requires Consistent(s) && OwnOp(c.op) && Outcome(c.op, s, c.now).Ok?
    ensures Consistent(Apply(s, c))
  {
    match c.op
    case Revoke(target) =>
      RevokeKeepsConsistent(s, target, c.now);
    case Insert(target, id, posting) =>
      forall source | source in s.configs && IsRevoked(s, source) ensures !L.Restricted(posting.row, source) {
        OwnLineageUnrestricted(target, posting.row, source);
      }
      InsertKeepsConsistentIff(s, target, id, posting);
  }

  lemma {:induction false} SerialKeepsConsistent(init: Store, history: seq<Commit>)
    requires Consistent(init) && AllSucceed(init, history) && forall c :: c in history ==> OwnOp(c.op)
    ensures Consistent(Serial(init, history))
  {
    if history != [] {
      var front := history[..|history| - 1];
      forall i | 0 <= i < |front| ensures Outcome(front[i].op, Serial(init, front[..i]), front[i].now).Ok? {
        assert front[..i] == history[..i];
      }
      SerialKeepsConsistent(init, front);
      ApplyKeepsConsistent(Serial(init, front), history[|history| - 1]);
    }
  }

  // ---- Every run ----

  ghost predicate OwnSubmissions(actions: seq<Action>) {
    forall a :: a in actions && a.Submit? ==> OwnOp(a.op)
  }

  ghost predicate OwnSystem(s: System) {
    && (forall pid :: pid in s.processes ==> OwnOp(s.processes[pid].op))
    && (forall c :: c in s.history ==> OwnOp(c.op))
  }

  lemma {:induction false} RunKeepsOwn(init: Store, actions: seq<Action>)
    requires OwnSubmissions(actions)
    ensures OwnSystem(Run(Init(init), actions))
  {
    if actions != [] {
      assert forall a :: a in actions[..|actions| - 1] ==> a in actions;
      RunKeepsOwn(init, actions[..|actions| - 1]);
      ActKeepsOwn(Run(Init(init), actions[..|actions| - 1]), actions[|actions| - 1]);
    }
  }

  lemma ActKeepsOwn(s: System, action: Action)
    requires OwnSystem(s) && (action.Submit? ==> OwnOp(action.op))
    ensures OwnSystem(Act(s, action))
  {}

  /** From a consistent seed, with inserted postings carrying only their own source, every reachable
      committed store is consistent. */
  lemma ReachableConsistent(init: Store, actions: seq<Action>)
    requires Consistent(init) && OwnSubmissions(actions)
    ensures Consistent(Run(Init(init), actions).store)
  {
    Serializable(init, actions);
    RunKeepsOwn(init, actions);
    SerialKeepsConsistent(init, Run(Init(init), actions).history);
  }

  // ---- Commit orders ----

  predicate Disabled(s: Store, target: string) { target in s.configs && !s.configs[target].enabled }

  lemma DisabledStays(op: Op, s: Store, now: int, target: string)
    requires Outcome(op, s, now).Ok? && Disabled(s, target)
    ensures op.target != target && Disabled(Outcome(op, s, now).value.store, target)
  {}

  lemma {:induction false} StaysDisabled(init: Store, history: seq<Commit>, i: nat, j: nat, target: string)
    requires i <= j <= |history| && AllSucceed(init, history) && Disabled(Serial(init, history[..i]), target)
    ensures Disabled(Serial(init, history[..j]), target)
    decreases j - i
  {
    if i < j {
      SerialNext(init, history, i);
      DisabledStays(history[i].op, Serial(init, history[..i]), history[i].now, target);
      StaysDisabled(init, history, i + 1, j, target);
    }
  }

  lemma NothingActsFor(init: Store, h: seq<Commit>, i: nat, j: nat, target: string)
    requires AllSucceed(init, h) && i <= j < |h| && Disabled(Serial(init, h[..i]), target)
    ensures h[j].op.target != target
  {
    StaysDisabled(init, h, i, j, target);
    SerialNext(init, h, j);
    DisabledStays(h[j].op, Serial(init, h[..j]), h[j].now, target);
  }

  /** Revoke first: nothing that commits later acts for the revoked source again. */
  lemma RevokedSourceIsFinal(init: Store, actions: seq<Action>, i: nat, j: nat)
    requires var h := Run(Init(init), actions).history; i < j < |h| && h[i].op.Revoke?
    ensures var h := Run(Init(init), actions).history; h[j].op.target != h[i].op.target
  {
    var h := Run(Init(init), actions).history;
    Serializable(init, actions);
    SerialNext(init, h, i);
    RevokeMarks(h[i].op.target, Serial(init, h[..i]), h[i].now);
    NothingActsFor(init, h, i + 1, j, h[i].op.target);
  }

  lemma OutcomeKeepsPosting(op: Op, s: Store, now: int, id: string)
    requires Outcome(op, s, now).Ok? && id in s.postings
    ensures var t := Outcome(op, s, now).value.store; id in t.postings && t.postings[id].row == s.postings[id].row
  {}

  predicate HasPosting(s: Store, id: string, row: L.Row) { id in s.postings && s.postings[id].row == row }

  lemma CommitKeepsPosting(init: Store, history: seq<Commit>, j: nat, id: string, row: L.Row)
    requires j < |history| && AllSucceed(init, history) && HasPosting(Serial(init, history[..j]), id, row)
    ensures HasPosting(Serial(init, history[..j + 1]), id, row)
  {
    SerialNext(init, history, j);
    OutcomeKeepsPosting(history[j].op, Serial(init, history[..j]), history[j].now, id);
  }

  lemma {:induction false} PostingsPersist(init: Store, history: seq<Commit>, i: nat, j: nat, id: string, row: L.Row)
    requires i <= j <= |history| && AllSucceed(init, history) && HasPosting(Serial(init, history[..i]), id, row)
    ensures HasPosting(Serial(init, history[..j]), id, row)
    decreases j - i
  {
    if i < j {
      CommitKeepsPosting(init, history, i, id, row);
      PostingsPersist(init, history, i + 1, j, id, row);
    }
  }

  lemma InsertPlacesPosting(op: Op, s: Store, now: int)
    requires op.Insert? && Outcome(op, s, now).Ok?
    ensures var t := Outcome(op, s, now).value.store; op.id in t.postings && t.postings[op.id] == op.posting
  {}

  lemma InsertedStays(init: Store, h: seq<Commit>, i: nat)
    requires AllSucceed(init, h) && i < |h| && h[i].op.Insert?
    ensures HasPosting(Serial(init, h), h[i].op.id, h[i].op.posting.row)
  {
    assert h[..|h|] == h;
    SerialNext(init, h, i);
    InsertPlacesPosting(h[i].op, Serial(init, h[..i]), h[i].now);
    PostingsPersist(init, h, i + 1, |h|, h[i].op.id, h[i].op.posting.row);
  }

  lemma RevokedStays(init: Store, h: seq<Commit>, j: nat)
    requires AllSucceed(init, h) && j < |h| && h[j].op.Revoke?
    ensures IsRevoked(Serial(init, h), h[j].op.target)
  {
    assert h[..|h|] == h;
    SerialNext(init, h, j);
    RevokeMarks(h[j].op.target, Serial(init, h[..j]), h[j].now);
    StaysRevoked(init, h, j + 1, |h|, h[j].op.target);
  }

  /** Page first: a posting inserted before its source was revoked ends closed and kept. */
  lemma InsertBeforeRevokeIsClosed(init: Store, actions: seq<Action>, i: nat, j: nat)
    requires Consistent(init) && OwnSubmissions(actions)
    requires var h := Run(Init(init), actions).history;
             i < j < |h| && h[i].op.Insert? && h[j].op == Revoke(h[i].op.target)
    ensures var s := Run(Init(init), actions);
            s.history[i].op.id in s.store.postings && !Accessible(s.store.postings[s.history[i].op.id])
  {
    var s := Run(Init(init), actions);
    var op := s.history[i].op;
    Serializable(init, actions);
    ReachableConsistent(init, actions);
    InsertedStays(init, s.history, i);
    RevokedStays(init, s.history, j);
    RunKeepsOwn(init, actions);
    assert s.history[i] in s.history;
    OwnLineageListed(op.target, op.posting.row);
  }

  lemma OwnLineageListed(target: string, row: L.Row)
    requires OwnLineage(target, row)
    ensures L.Restricted(row, target)
  {
    assert L.Text(target) in row.sourceIds.value.items;
  }

  lemma SerialNext(init: Store, h: seq<Commit>, i: nat)
    requires i < |h| && AllSucceed(init, h)
    ensures Outcome(h[i].op, Serial(init, h[..i]), h[i].now).Ok?
    ensures Serial(init, h[..i + 1]) == Outcome(h[i].op, Serial(init, h[..i]), h[i].now).value.store
  {
    assert h[..i + 1][..i] == h[..i];
  }

  lemma RevokeMarks(target: string, s: Store, now: int)
    requires RevokeOutcome(s, target, now).Ok?
    ensures IsRevoked(RevokeOutcome(s, target, now).value.store, target)
    ensures Disabled(RevokeOutcome(s, target, now).value.store, target)
  {}

  lemma {:induction false} StaysRevoked(init: Store, history: seq<Commit>, i: nat, j: nat, target: string)
    requires i <= j <= |history| && IsRevoked(Serial(init, history[..i]), target)
    ensures IsRevoked(Serial(init, history[..j]), target)
  {
    if i < j {
      StaysRevoked(init, history, i, j - 1, target);
      assert history[..j][..j - 1] == history[..j - 1];
    }
  }
}
