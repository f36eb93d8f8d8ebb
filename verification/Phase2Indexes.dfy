/**
 The phase-2 index preparation: every definition is inspected in its collection, a preflight refuses anything
 but exact and missing indexes, and only then are the missing ones created, one by one.
 */
module Phase2Indexes {
  import opened Wrappers
  import opened Indexes

  datatype Target = IntakeTasks | ScreeningGates | InvitationBatches | InvitationBatchItems | InterviewResults
    | CommercialAccounts

  datatype Definition = Definition(target: Target, name: Name, key: Key, unique: bool, partial: Option<Partial>,
                                   sparse: bool)

  const APPLICATION_KEY := [Up(WorkspaceId), Up(ApplicationId)]

  const APPLICATION_INDEX :=
    Definition(InvitationBatchItems, Default(APPLICATION_KEY), APPLICATION_KEY, true, Some(ApplicationIdExists), false)

  const ACCOUNT_INDEX := Definition(CommercialAccounts, Given("uniq_hire_commercial_account_workspace"),
                                    [Up(WorkspaceId)], true, None, false)

  function Plain(target: Target, key: Key): Definition { Definition(target, Default(key), key, false, None, false) }

  const WAVE_KEY := [Up(WorkspaceId), Up(ScreeningGateId), Up(Wave)]

  const ROUND_KEY := [Up(WorkspaceId), Up(RoundId)]

  const DEFINITIONS := [
    Plain(IntakeTasks, [Up(WorkspaceId), Up(Status), Up(NextAttemptAt), Up(LeaseExpiresAt), Up(QueuedAt), Up(Id)]),
    Plain(IntakeTasks, [Up(WorkspaceId), Up(JobId), Up(Status), Down(QueuedAt)]),
    Plain(ScreeningGates, [Up(WorkspaceId), Up(JobId), Down(ConfirmedAt), Down(Id)]),
    Plain(ScreeningGates, [Up(WorkspaceId), Up(Status), Up(JobId), Down(ConfirmedAt)]),
    WAVE_INDEX,
    Plain(InvitationBatches, [Up(WorkspaceId), Up(Status), Up(SendAfter), Up(Id)]),
    Plain(InvitationBatches, [Up(WorkspaceId), Up(JobId), Down(CreatedAt), Down(Id)]),
    APPLICATION_INDEX,
    Plain(InvitationBatchItems, [Up(WorkspaceId), Up(Status), Up(SendAfter), Up(Id)]),
    Plain(InvitationBatchItems, [Up(WorkspaceId), Up(ScreeningGateId), Up(Rank), Up(Id)]),
    Plain(InvitationBatchItems, [Up(WorkspaceId), Up(JobId), Up(InvitationBatchId), Up(Id)]),
    Definition(InvitationBatchItems, Default(ROUND_KEY), ROUND_KEY, false, None, true),
    Plain(InterviewResults, [Up(WorkspaceId), Down(CompletedAt)]),
    ACCOUNT_INDEX
  ]

  /** What the sequence relies on: within a collection no two definitions share a name or a key, none is the
      index of `_id`, and the application index is named once. */
  ghost predicate WellPlanned(defs: seq<Definition>) {
    && (forall i, j :: 0 <= i < j < |defs| ==>
          defs[i].target != defs[j].target || (defs[i].name != defs[j].name && defs[i].key != defs[j].key))
    && (forall i :: 0 <= i < |defs| ==> defs[i].name != Given("_id_") && defs[i].key != [Up(Id)])
    && (forall i :: 0 <= i < |defs| && defs[i].name == APPLICATION_INDEX.name ==> defs[i] == APPLICATION_INDEX)
  }

  lemma DefinitionsApart(i: nat, j: nat)
    requires i < j < |DEFINITIONS|
    ensures DEFINITIONS[i].target != DEFINITIONS[j].target ||
            (DEFINITIONS[i].name != DEFINITIONS[j].name && DEFINITIONS[i].key != DEFINITIONS[j].key)
  {}

  lemma DefinitionIsOwn(i: nat)
    requires i < |DEFINITIONS|
    ensures DEFINITIONS[i].name != Given("_id_") && DEFINITIONS[i].key != [Up(Id)]
    ensures DEFINITIONS[i].name == APPLICATION_INDEX.name ==> DEFINITIONS[i] == APPLICATION_INDEX
  {}

  lemma DefinitionsAreWellPlanned()
    ensures WellPlanned(DEFINITIONS)
  {
    var defs := DEFINITIONS;
    forall i, j | 0 <= i < j < |defs|
      ensures defs[i].target != defs[j].target || (defs[i].name != defs[j].name && defs[i].key != defs[j].key)
    {
      DefinitionsApart(i, j);
    }
    forall i | 0 <= i < |defs|
      ensures defs[i].name != Given("_id_") && defs[i].key != [Up(Id)]
      ensures defs[i].name == APPLICATION_INDEX.name ==> defs[i] == APPLICATION_INDEX
    {
      DefinitionIsOwn(i);
    }
  }

  /** The positions of the unique definitions. */
  const WAVE := 4

  const APPLICATION := 7

  const ACCOUNT := 13

  const WAVE_INDEX := Definition(InvitationBatches, Default(WAVE_KEY), WAVE_KEY, true, None, false)

  /** Three of the fourteen are unique: the wave index, the application index and the account index. */
  lemma UniqueDefinitions(n: nat)
    requires n < |DEFINITIONS|
    ensures DEFINITIONS[n].unique ==> n in {WAVE, APPLICATION, ACCOUNT}
    ensures DEFINITIONS[WAVE] == WAVE_INDEX && DEFINITIONS[APPLICATION] == APPLICATION_INDEX &&
            DEFINITIONS[ACCOUNT] == ACCOUNT_INDEX
  {}

  // ---- Inspection ----

  /** The index lists by collection; a target without an entry has no collection yet. */
  type Database = map<Target, seq<Index>>

  function Read(db: Database, target: Target): seq<Index> { if target in db then db[target] else [] }

  predicate ExactIndex(x: Index, d: Definition) {
    && x.name == Some(d.name) && x.key == d.key && x.unique == d.unique && x.partial == d.partial
    && x.expires.None? && x.sparse == d.sparse && !x.hidden && !x.collated
  }

  /** The one legacy index that is to be replaced by hand. */
  predicate LegacyIndex(x: Index) {
    && x.key == APPLICATION_KEY && x.unique && x.partial.None?
    && x.expires.None? && !x.sparse && !x.hidden && !x.collated
  }

  function SameKey(db: Database, d: Definition): seq<Index> { WithKey(Read(db, d.target), d.key) }

  function SameName(db: Database, d: Definition): seq<Index> { WithName(Read(db, d.target), d.name) }

  predicate Exact(db: Database, d: Definition) { |SameKey(db, d)| == 1 && ExactIndex(SameKey(db, d)[0], d) }

  predicate IsMissing(db: Database, d: Definition) { !Exact(db, d) && SameKey(db, d) == [] && SameName(db, d) == [] }

  predicate AllLegacy(indexes: seq<Index>) { forall x :: x in indexes ==> LegacyIndex(x) }

  predicate Incompatible(db: Database, d: Definition) {
    && !Exact(db, d)
    && (SameName(db, d) != []
        || (SameKey(db, d) != [] && !(d.name == APPLICATION_INDEX.name && AllLegacy(SameKey(db, d)))))
  }

  function FindApplication(defs: seq<Definition>): Option<Definition> {
    if defs == [] then None
    else if defs[0].name == APPLICATION_INDEX.name then Some(defs[0])
    else FindApplication(defs[1..])
  }

  predicate LegacyPresent(db: Database, defs: seq<Definition>) {
    FindApplication(defs).Some? && exists x :: x in SameKey(db, FindApplication(defs).value) && LegacyIndex(x)
  }

  predicate PreflightPasses(db: Database, defs: seq<Definition>) {
    !LegacyPresent(db, defs) && forall i :: 0 <= i < |defs| ==> !Incompatible(db, defs[i])
  }

  predicate FinalCheckPasses(db: Database, defs: seq<Definition>) {
    PreflightPasses(db, defs) && forall i :: 0 <= i < |defs| ==> !IsMissing(db, defs[i])
  }

  ghost predicate ExactOrMissing(defs: seq<Definition>, db: Database) {
    forall i :: 0 <= i < |defs| ==> Exact(db, defs[i]) || IsMissing(db, defs[i])
  }

  lemma {:induction false} FindApplicationFinds(defs: seq<Definition>)
    requires forall i :: 0 <= i < |defs| && defs[i].name == APPLICATION_INDEX.name ==> defs[i] == APPLICATION_INDEX
    ensures FindApplication(defs) in {None, Some(APPLICATION_INDEX)}
    ensures FindApplication(defs).None? <==> forall i :: 0 <= i < |defs| ==> defs[i].name != APPLICATION_INDEX.name
  {
    if defs != [] && defs[0].name != APPLICATION_INDEX.name {
      FindApplicationFinds(defs[1..]);
      if FindApplication(defs[1..]).Some? {
        var i :| 0 <= i < |defs[1..]| && defs[1..][i].name == APPLICATION_INDEX.name;
        assert defs[i + 1].name == APPLICATION_INDEX.name;
      } else {
        forall i | 0 <= i < |defs| ensures defs[i].name != APPLICATION_INDEX.name {
          if i > 0 { assert defs[i] == defs[1..][i - 1]; }
        }
      }
    }
  }

  /** An exact application index is not the legacy one. */
  lemma ExactIsNotLegacy(db: Database)
    requires Exact(db, APPLICATION_INDEX)
    ensures forall x :: x in SameKey(db, APPLICATION_INDEX) ==> !LegacyIndex(x)
  {}

  lemma SomeLegacy(indexes: seq<Index>)
    ensures indexes != [] && AllLegacy(indexes) ==> exists x :: x in indexes && LegacyIndex(x)
  {
    if indexes != [] { assert indexes[0] in indexes; }
  }

  /** The preflight passes exactly when every definition is exact or wholly missing. */
  lemma PreflightIff(db: Database, defs: seq<Definition>)
    requires WellPlanned(defs)
    ensures PreflightPasses(db, defs) <==> ExactOrMissing(defs, db)
  {
    FindApplicationFinds(defs);
    if PreflightPasses(db, defs) {
      forall i | 0 <= i < |defs| ensures Exact(db, defs[i]) || IsMissing(db, defs[i]) {
        SomeLegacy(SameKey(db, defs[i]));
      }
    }
    if ExactOrMissing(defs, db) {
      if FindApplication(defs).Some? {
        var i :| 0 <= i < |defs| && defs[i].name == APPLICATION_INDEX.name;
        if Exact(db, defs[i]) { ExactIsNotLegacy(db); }
      }
    }
  }

  /** The final check passes exactly when every definition is exact. */
  lemma FinalCheckIff(db: Database, defs: seq<Definition>)
    requires WellPlanned(defs)
    ensures FinalCheckPasses(db, defs) <==> forall i :: 0 <= i < |defs| ==> Exact(db, defs[i])
  {
    PreflightIff(db, defs);
  }

  // ---- What is looked for, said outright ----

  /** The collection has the defined index at `i`, its options as defined and no others, and no second of its key. */
  predicate DefinedAt(indexes: seq<Index>, d: Definition, i: nat) {
    && i < |indexes| && indexes[i] == Index(Some(d.name), d.key, d.unique, d.partial, d.sparse, false, false, None)
    && forall j :: 0 <= j < |indexes| && j != i ==> indexes[j].key != d.key
  }

  ghost predicate HasDefined(db: Database, d: Definition) { exists i: nat :: DefinedAt(Read(db, d.target), d, i) }

  predicate HasNothingOf(db: Database, d: Definition) {
    forall x :: x in Read(db, d.target) ==> x.key != d.key && x.name != Some(d.name)
  }

  /** One index of a key, at `i`. */
  predicate OnlyAt(indexes: seq<Index>, key: Key, i: nat) {
    i < |indexes| && indexes[i].key == key && forall j :: 0 <= j < |indexes| && j != i ==> indexes[j].key != key
  }

  lemma {:induction false} OnlyWithKey(indexes: seq<Index>, key: Key, i: nat)
    requires OnlyAt(indexes, key, i)
    ensures WithKey(indexes, key) == [indexes[i]]
  {
    var n := |indexes| - 1;
    if i < n {
      assert OnlyAt(indexes[..n], key, i);
      OnlyWithKey(indexes[..n], key, i);
    } else {
      NoneWithKey(indexes[..n], key);
    }
  }

  lemma {:induction false} SingleWithKey(indexes: seq<Index>, key: Key) returns (i: nat)
    requires |WithKey(indexes, key)| == 1
    ensures OnlyAt(indexes, key, i) && WithKey(indexes, key) == [indexes[i]]
  {
    var n := |indexes| - 1;
    WithKeyMembers(indexes[..n], key);
    if indexes[n].key == key {
      i := n;
      forall j | 0 <= j < n ensures indexes[j].key != key {
        assert indexes[..n][j] !in WithKey(indexes[..n], key);
      }
    } else {
      i := SingleWithKey(indexes[..n], key);
      forall j | 0 <= j < |indexes| && j != i ensures indexes[j].key != key {
        if j < n { assert indexes[..n][j] == indexes[j]; }
      }
    }
  }

  lemma ExactIff(db: Database, d: Definition)
    ensures Exact(db, d) <==> HasDefined(db, d)
  {
    var indexes := Read(db, d.target);
    if Exact(db, d) {
      var i := SingleWithKey(indexes, d.key);
      assert DefinedAt(indexes, d, i);
    }
    if HasDefined(db, d) {
      var i: nat :| DefinedAt(indexes, d, i);
      OnlyWithKey(indexes, d.key, i);
    }
  }

  lemma MissingIff(db: Database, d: Definition)
    ensures IsMissing(db, d) <==> HasNothingOf(db, d)
  {
    var indexes := Read(db, d.target);
    WithKeyMembers(indexes, d.key);
    WithNameMembers(indexes, d.name);
    if HasNothingOf(db, d) {
      NoneWithKey(indexes, d.key);
      NoneWithName(indexes, d.name);
    } else {
      var x :| x in indexes && !(x.key != d.key && x.name != Some(d.name));
      assert x in SameKey(db, d) || x in SameName(db, d);
    }
  }

  /** The preflight passes exactly when every collection has its indexes as defined or has nothing of their keys and
      names; the final check exactly when it has them. */
  lemma VerdictsIff(db: Database, defs: seq<Definition>)
    requires WellPlanned(defs)
    ensures PreflightPasses(db, defs) <==> forall d :: d in defs ==> HasDefined(db, d) || HasNothingOf(db, d)
    ensures FinalCheckPasses(db, defs) <==> forall d :: d in defs ==> HasDefined(db, d)
  {
    PreflightIff(db, defs);
    FinalCheckIff(db, defs);
    forall d | d in defs
      ensures (Exact(db, d) <==> HasDefined(db, d)) && (IsMissing(db, d) <==> HasNothingOf(db, d))
    {
      ExactIff(db, d);
      MissingIff(db, d);
    }
    forall i | 0 <= i < |defs| ensures defs[i] in defs {}
  }

  // ---- Creation ----

  datatype CreateError = Clash | DuplicateRows

  function AsIndex(d: Definition): Index {
    Index(Some(d.name), d.key, d.unique, d.partial, d.sparse, false, false, None)
  }

  /** createIndex; a new collection starts with the index of `_id`.  `duplicates` tells for which unique
      definitions the stored rows repeat a key. */
  function Create(db: Database, d: Definition, duplicates: Definition -> bool): Result<Database, CreateError> {
    var existing := if d.target in db then db[d.target] else [ID_INDEX];
    if !Free(existing, d.name, d.key) then Err(Clash)
    else if d.unique && duplicates(d) then Err(DuplicateRows)
    else Ok(db[d.target := existing + [AsIndex(d)]])
  }

  lemma IdIndexIsApart(key: Key, name: Name)
    requires key != [Up(Id)] && name != Given("_id_")
    ensures WithKey([ID_INDEX], key) == [] && WithName([ID_INDEX], name) == []
  {
    OneMore([], ID_INDEX, key, name);
    assert [] + [ID_INDEX] == [ID_INDEX];
  }

  /** Creating a missing definition never clashes, and makes it exact. */
  lemma CreatesMissing(db: Database, d: Definition, duplicates: Definition -> bool)
    requires IsMissing(db, d) && d.name != Given("_id_") && d.key != [Up(Id)]
    ensures Create(db, d, duplicates) != Err(Clash)
    ensures Create(db, d, duplicates).Ok? <==> !(d.unique && duplicates(d))
    ensures Create(db, d, duplicates).Ok? ==> Exact(Create(db, d, duplicates).value, d)
  {
    var existing := if d.target in db then db[d.target] else [ID_INDEX];
    WithKeyMembers(existing, d.key);
    WithNameMembers(existing, d.name);
    IdIndexIsApart(d.key, d.name);
    forall x | x in existing ensures x.name != Some(d.name) && x.key != d.key {
      assert x !in WithKey(existing, d.key) && x !in WithName(existing, d.name);
    }
    OneMore(existing, AsIndex(d), d.key, d.name);
  }

  /** A collection that the creation brings about has the index of `_id` and the one created. */
  lemma CreatedHasTwo(db: Database, d: Definition, duplicates: Definition -> bool)
    requires Create(db, d, duplicates).Ok? && d.target !in db
    ensures var created := Read(Create(db, d, duplicates).value, d.target);
            && |created| == 2 && created[0].key == [Up(Id)] && created[0].name == Some(Given("_id_"))
            && created[1].key == d.key && created[1].name == Some(d.name)
  {}

  /** Every other definition is inspected as before. */
  lemma CreateKeepsOthers(db: Database, d: Definition, e: Definition, duplicates: Definition -> bool)
    requires Create(db, d, duplicates).Ok?
    requires d.target != e.target || (d.name != e.name && d.key != e.key)
    requires e.name != Given("_id_") && e.key != [Up(Id)]
    ensures var after := Create(db, d, duplicates).value;
            SameKey(after, e) == SameKey(db, e) && SameName(after, e) == SameName(db, e)
  {
    if d.target == e.target {
      var existing := if d.target in db then db[d.target] else [ID_INDEX];
      OneMore(existing, AsIndex(d), e.key, e.name);
      IdIndexIsApart(e.key, e.name);
    }
  }

  /** Only additions: every index that was there still is, unchanged and in its place. */
  ghost predicate Extends(before: Database, after: Database) {
    forall t: Target :: t in before ==> t in after && before[t] <= after[t]
  }

  datatype Mode = Plan | Check | Apply

  datatype Outcome = PlanOnly | CheckPassed | CheckFailed | Refused | Stopped(at: Definition) | Applied | NotExact

  /** Where the loop of creations stands: the first `n` definitions exact, the others as before. */
  ghost predicate Underway(defs: seq<Definition>, before: Database, db: Database, n: nat) {
    && n <= |defs| && Extends(before, db)
    && (forall i :: 0 <= i < n ==> Exact(db, defs[i]))
    && (forall i :: n <= i < |defs| ==>
          SameKey(db, defs[i]) == SameKey(before, defs[i]) && SameName(db, defs[i]) == SameName(before, defs[i]))
  }

  /** The definition is missing, unique, and has duplicate rows. */
  predicate Blocked(defs: seq<Definition>, before: Database, n: nat, duplicates: Definition -> bool)
    requires n < |defs|
  {
    IsMissing(before, defs[n]) && defs[n].unique && duplicates(defs[n])
  }

  ghost predicate NoneBlocked(defs: seq<Definition>, before: Database, n: nat, duplicates: Definition -> bool) {
    forall i :: 0 <= i < n && i < |defs| ==> !Blocked(defs, before, i, duplicates)
  }

  ghost predicate ExactSoFar(defs: seq<Definition>, db: Database, n: nat) {
    forall i :: 0 <= i < n && i < |defs| ==> Exact(db, defs[i])
  }

  lemma ProgressSnoc(defs: seq<Definition>, before: Database, n: nat, duplicates: Definition -> bool)
    requires n < |defs|
    ensures NoneBlocked(defs, before, n + 1, duplicates) <==>
              NoneBlocked(defs, before, n, duplicates) && !Blocked(defs, before, n, duplicates)
    ensures ExactSoFar(defs, before, n + 1) <==> ExactSoFar(defs, before, n) && Exact(before, defs[n])
  {}

  lemma StillMissing(defs: seq<Definition>, before: Database, db: Database, n: nat)
    requires Underway(defs, before, db, n) && n < |defs|
    ensures IsMissing(db, defs[n]) <==> IsMissing(before, defs[n])
    ensures Exact(db, defs[n]) <==> Exact(before, defs[n])
  {}

  lemma ExactAdvances(defs: seq<Definition>, before: Database, db: Database, n: nat)
    requires Underway(defs, before, db, n) && n < |defs| && Exact(before, defs[n])
    ensures Underway(defs, before, db, n + 1)
  {}

  lemma CreateAdvances(defs: seq<Definition>, before: Database, db: Database, n: nat, duplicates: Definition -> bool)
    requires WellPlanned(defs) && Underway(defs, before, db, n) && n < |defs|
    requires IsMissing(before, defs[n]) && Create(db, defs[n], duplicates).Ok?
    ensures Underway(defs, before, Create(db, defs[n], duplicates).value, n + 1)
  {
    CreatesMissing(db, defs[n], duplicates);
    forall i | 0 <= i < |defs| && i != n
      ensures SameKey(Create(db, defs[n], duplicates).value, defs[i]) == SameKey(db, defs[i])
      ensures SameName(Create(db, defs[n], duplicates).value, defs[i]) == SameName(db, defs[i])
    {
      CreateKeepsOthers(db, defs[n], defs[i], duplicates);
    }
  }

  /** Of the unique definitions the preflight leaves only the wave index unchecked for duplicate rows. */
  lemma OnlyTheWaveIsUnchecked(before: Database, duplicates: Definition -> bool)
    requires !duplicates(APPLICATION_INDEX) && !duplicates(ACCOUNT_INDEX)
    ensures forall n :: 0 <= n < |DEFINITIONS| && Blocked(DEFINITIONS, before, n, duplicates) ==> n == WAVE
    ensures WAVE < |DEFINITIONS| && (Blocked(DEFINITIONS, before, WAVE, duplicates) <==>
                                       IsMissing(before, WAVE_INDEX) && duplicates(WAVE_INDEX))
  {
    forall n | 0 <= n < |DEFINITIONS| && Blocked(DEFINITIONS, before, n, duplicates) ensures n == WAVE {
      UniqueDefinitions(n);
    }
    UniqueDefinitions(WAVE);
  }

  /** The preflight accepts databases without the wave index: one whose invitation batches have rows, but
      no index besides that of `_id`. */
  lemma PreflightMissesTheWave()
    ensures PreflightPasses(NO_WAVE, DEFINITIONS) && IsMissing(NO_WAVE, WAVE_INDEX)
  {
    DefinitionsAreWellPlanned();
    forall i | 0 <= i < |DEFINITIONS| ensures IsMissing(NO_WAVE, DEFINITIONS[i]) {
      IdIndexIsApart(DEFINITIONS[i].key, DEFINITIONS[i].name);
    }
    PreflightIff(NO_WAVE, DEFINITIONS);
    UniqueDefinitions(WAVE);
  }

  const NO_WAVE: Database := map[InvitationBatches := [ID_INDEX]]

  class Preparation {
    var db: Database

    /** One definition: created if it is missing, left alone if it is exact. */
    method CreateNext(defs: seq<Definition>, ghost before: Database, n: nat, duplicates: Definition -> bool)
      returns (ok: bool)
      requires WellPlanned(defs) && n < |defs| && Underway(defs, before, db, n)
      requires Exact(before, defs[n]) || IsMissing(before, defs[n])
      modifies this
      ensures ok ==> Underway(defs, before, db, n + 1)
      ensures !ok || Exact(before, defs[n]) ==> db == old(db)
      ensures !ok ==> Blocked(defs, before, n, duplicates)
      ensures ok ==> !Blocked(defs, before, n, duplicates)
    {
      StillMissing(defs, before, db, n);
      if !IsMissing(db, defs[n]) {
        ExactAdvances(defs, before, db, n);
        return true;
      }
      CreatesMissing(db, defs[n], duplicates);
      var created := Create(db, defs[n], duplicates);
      if created.Err? { return false; }
      CreateAdvances(defs, before, db, n, duplicates);
      db := created.value;
      return true;
    }

    /** From a state the preflight accepts no creation clashes and no index is changed; all goes through
        exactly when no missing unique definition has duplicate rows.  A stop at such a definition leaves those
        before it exact, and it and those after it as they were. */
    method CreateMissing(defs: seq<Definition>, duplicates: Definition -> bool) returns (stopped: Option<nat>)
      requires WellPlanned(defs) && ExactOrMissing(defs, db)
      modifies this
      ensures Extends(old(db), db)
      ensures stopped.None? <==> NoneBlocked(defs, old(db), |defs|, duplicates)
      ensures stopped.None? ==> ExactSoFar(defs, db, |defs|)
      ensures stopped.Some? ==>
                && stopped.value < |defs| && Blocked(defs, old(db), stopped.value, duplicates)
                && NoneBlocked(defs, old(db), stopped.value, duplicates)
                && Underway(defs, old(db), db, stopped.value)
      ensures ExactSoFar(defs, old(db), |defs|) ==> db == old(db)
    {
      ghost var before := db;
      var n := 0;
      while n < |defs|
        invariant 0 <= n <= |defs| && Underway(defs, before, db, n)
        invariant NoneBlocked(defs, before, n, duplicates)
        invariant ExactSoFar(defs, before, n) ==> db == before
      {
        var ok := CreateNext(defs, before, n, duplicates);
        if !ok { return Some(n); }
        ProgressSnoc(defs, before, n, duplicates);
        n := n + 1;
      }
      return None;
    }

    /** The creations and the final check, where nothing but the definition at `stop` can block. */
    method CreateOrStop(defs: seq<Definition>, stop: nat, duplicates: Definition -> bool) returns (outcome: Outcome)
      requires WellPlanned(defs) && ExactOrMissing(defs, db) && stop < |defs|
      requires forall n :: 0 <= n < |defs| && Blocked(defs, db, n, duplicates) ==> n == stop
      modifies this
      ensures Extends(old(db), db)
      ensures outcome == Applied || outcome == Stopped(defs[stop])
      ensures outcome.Stopped? <==> Blocked(defs, old(db), stop, duplicates)
      ensures outcome.Stopped? ==> Underway(defs, old(db), db, stop)
      ensures outcome == Applied ==> ExactSoFar(defs, db, |defs|)
      ensures ExactSoFar(defs, old(db), |defs|) ==> db == old(db)
    {
      var stopped := CreateMissing(defs, duplicates);
      if stopped.Some? { return Stopped(defs[stopped.value]); }
      FinalCheckIff(db, defs);
      return if FinalCheckPasses(db, defs) then Applied else NotExact;
    }

    /** The creations after the preflight, and the final check. */
    method CreateAll(duplicates: Definition -> bool) returns (outcome: Outcome)
      requires PreflightPasses(db, DEFINITIONS) && !duplicates(APPLICATION_INDEX) && !duplicates(ACCOUNT_INDEX)
      modifies this
      ensures Extends(old(db), db)
      ensures outcome == Applied || outcome == Stopped(WAVE_INDEX)
      ensures outcome.Stopped? <==> IsMissing(old(db), WAVE_INDEX) && duplicates(WAVE_INDEX)
      ensures outcome.Stopped? ==> Underway(DEFINITIONS, old(db), db, WAVE)
      ensures outcome == Applied ==> AllExact(db)
      ensures AllExact(old(db)) ==> db == old(db)
    {
      PreflightGoes(db);
      OnlyTheWaveIsUnchecked(db, duplicates);
      outcome := CreateOrStop(DEFINITIONS, WAVE, duplicates);
    }

    /** The whole run over the fourteen definitions.  An apply stops exactly at a missing wave index whose
        rows repeat a key; it has then made the four definitions before it exact, and changed no other. */
    method Prepare(mode: Mode, duplicates: Definition -> bool) returns (outcome: Outcome)
      modifies this
      ensures Extends(old(db), db)
      ensures mode == Plan <==> outcome == PlanOnly
      ensures mode == Check ==> outcome == if AllExact(old(db)) then CheckPassed else CheckFailed
      ensures mode == Apply ==>
                (outcome == Refused <==>
                  !PreflightPasses(old(db), DEFINITIONS) || duplicates(APPLICATION_INDEX) || duplicates(ACCOUNT_INDEX))
      ensures outcome in {PlanOnly, CheckPassed, CheckFailed, Refused} ==> db == old(db)
      ensures mode == Apply && outcome != Refused ==>
                (outcome.Stopped? <==> IsMissing(old(db), WAVE_INDEX) && duplicates(WAVE_INDEX))
      ensures outcome.Stopped? ==> mode == Apply && outcome.at == WAVE_INDEX && Underway(DEFINITIONS, old(db), db, WAVE)
      ensures outcome in {CheckPassed, Applied} ==> AllExact(db) && AllDefined(db)
      ensures outcome != NotExact
      ensures mode == Apply && AllExact(old(db)) && outcome != Refused ==> outcome == Applied && db == old(db)
    {
      match mode
      case Plan => return PlanOnly;
      case Check =>
        FinalCheckGoes(db);
        ExactAreDefined(db);
        return if FinalCheckPasses(db, DEFINITIONS) then CheckPassed else CheckFailed;
      case Apply =>
        if !PreflightPasses(db, DEFINITIONS) || duplicates(APPLICATION_INDEX) || duplicates(ACCOUNT_INDEX) {
          return Refused;
        }
        OnlyTheWaveIsUnchecked(db, duplicates);
        outcome := CreateAll(duplicates);
        ExactAreDefined(db);
    }
  }

  ghost predicate AllExact(db: Database) { ExactSoFar(DEFINITIONS, db, |DEFINITIONS|) }

  lemma PreflightGoes(db: Database)
    ensures WellPlanned(DEFINITIONS)
    ensures PreflightPasses(db, DEFINITIONS) <==> ExactOrMissing(DEFINITIONS, db)
  {
    DefinitionsAreWellPlanned();
    PreflightIff(db, DEFINITIONS);
  }

  lemma FinalCheckGoes(db: Database)
    ensures FinalCheckPasses(db, DEFINITIONS) <==> AllExact(db)
  {
    DefinitionsAreWellPlanned();
    FinalCheckIff(db, DEFINITIONS);
  }

  ghost predicate AllDefined(db: Database) { forall d :: d in DEFINITIONS ==> HasDefined(db, d) }

  lemma ExactAreDefined(db: Database)
    ensures AllExact(db) <==> AllDefined(db)
  {
    DefinitionsAreWellPlanned();
    VerdictsIff(db, DEFINITIONS);
    FinalCheckGoes(db);
  }
}
