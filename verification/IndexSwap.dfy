/**
 The swap from legacy unique indexes to attempt-aware ones: build the new index, verify it, drop the old one,
 definition by definition.  The process may be stopped before any single create or drop.
 */
module IndexSwap {
  import opened Wrappers
  import opened Indexes
  import opened ResumableRuns

  datatype Store = EngineEvents | AnalysisEvents | Analyses | MediaAssets | Outbox

  datatype Definition = Definition(store: Store, name: Name, key: Key, legacy: Option<Key>, partial: Option<Partial>)

  function Swap(store: Store, key: Key, legacy: Key): Definition {
    Definition(store, Default(key), key, Some(legacy), None)
  }

  const CONTROL := [
    Swap(EngineEvents, [Up(RoundId), Up(RuntimeSessionId), Up(Attempt), Up(Revision)],
         [Up(RoundId), Up(RuntimeSessionId), Up(Revision)]),
    Swap(AnalysisEvents, [Up(WorkspaceId), Up(RoundId), Up(RuntimeSessionId), Up(Attempt), Up(Revision)],
         [Up(WorkspaceId), Up(RoundId), Up(RuntimeSessionId), Up(Revision)]),
    Swap(Analyses, [Up(WorkspaceId), Up(ApplicationId), Up(RoundId), Up(AttemptId), Up(RuntimeSessionId), Up(Revision)],
         [Up(WorkspaceId), Up(ApplicationId), Up(RoundId), Up(RuntimeSessionId), Up(Revision)]),
    Definition(MediaAssets, Default([Up(CheckpointKey), Up(CheckpointGeneration)]),
               [Up(CheckpointKey), Up(CheckpointGeneration)],
               None, Some(CheckpointTyped))
  ]

  const RUNTIME := [
    Swap(Outbox, [Up(WorkspaceId), Up(RoundId), Up(RuntimeSessionId), Up(Attempt), Up(Revision)],
         [Up(WorkspaceId), Up(RoundId), Up(RuntimeSessionId), Up(Revision)])
  ]

  ghost predicate KeyExtends(legacy: Key, key: Key) { forall p :: p in legacy ==> p in key }

  /** One definition for each collection, and every new key holds its legacy key and is another one. */
  ghost predicate WellPlanned(defs: seq<Definition>) {
    && (forall i, j :: 0 <= i < j < |defs| ==> defs[i].store != defs[j].store)
    && (forall i :: 0 <= i < |defs| && defs[i].legacy.Some? ==>
          && KeyExtends(defs[i].legacy.value, defs[i].key)
          && defs[i].name != Default(defs[i].legacy.value)
          && defs[i].partial.None?)
  }

  lemma SwapsAreWellPlanned()
    ensures WellPlanned(CONTROL) && WellPlanned(RUNTIME)
  {}

  // ---- Rows and uniqueness ----

  /** A document's fields; a missing one is keyed as null. */
  type Row = map<Field, int>

  function At(row: Row, f: Field): Option<int> { if f in row then Some(row[f]) else None }

  predicate SameUnder(a: Row, b: Row, key: Key) { forall p :: p in key ==> At(a, p.field) == At(b, p.field) }

  predicate Covered(row: Row, partial: Option<Partial>) {
    partial == Some(CheckpointTyped) ==> CheckpointKey in row && CheckpointGeneration in row
  }

  /** No two covered rows have the same key. */
  predicate UniqueRows(rows: seq<Row>, key: Key, partial: Option<Partial>) {
    forall i, j :: 0 <= i < j < |rows| && Covered(rows[i], partial) && Covered(rows[j], partial) ==>
      !SameUnder(rows[i], rows[j], key)
  }

  /** Rows that satisfy the legacy key satisfy every key that extends it. */
  lemma LegacyUniqueCannotBlock(rows: seq<Row>, legacy: Key, key: Key)
    requires UniqueRows(rows, legacy, None) && KeyExtends(legacy, key)
    ensures UniqueRows(rows, key, None)
  {
    forall i, j | 0 <= i < j < |rows| ensures !SameUnder(rows[i], rows[j], key) {
      assert !SameUnder(rows[i], rows[j], legacy);
    }
  }

  // ---- The state and the actions ----

  datatype Database = Database(indexes: map<Store, seq<Index>>, rows: map<Store, seq<Row>>)

  function IndexesOf(db: Database, d: Definition): seq<Index> {
    if d.store in db.indexes then db.indexes[d.store] else []
  }

  function RowsOf(db: Database, d: Definition): seq<Row> { if d.store in db.rows then db.rows[d.store] else [] }

  predicate ExactIndex(x: Index, d: Definition) {
    x.name == Some(d.name) && x.unique && x.key == d.key && x.partial == d.partial
  }

  predicate HasExact(db: Database, d: Definition) { exists x :: x in IndexesOf(db, d) && ExactIndex(x, d) }

  predicate Named(x: Index, name: Name) { x.name == Some(name) }

  predicate HasLegacy(db: Database, d: Definition) {
    && d.legacy.Some? && Default(d.legacy.value) != d.name
    && exists x :: x in IndexesOf(db, d) && Named(x, Default(d.legacy.value))
  }

  function NewIndex(d: Definition): Index { Index(Some(d.name), d.key, true, d.partial, false, false, false, None) }

  function SetIndexes(db: Database, d: Definition, indexes: seq<Index>): Database {
    db.(indexes := db.indexes[d.store := indexes])
  }

  datatype Failure = NameOrKeyTaken | DuplicateRows | NotVerified

  function Create(db: Database, d: Definition): Result<Database, Failure> {
    if !Free(IndexesOf(db, d), d.name, d.key) then Err(NameOrKeyTaken)
    else if !UniqueRows(RowsOf(db, d), d.key, d.partial) then Err(DuplicateRows)
    else Ok(SetIndexes(db, d, IndexesOf(db, d) + [NewIndex(d)]))
  }

  function WithoutName(indexes: seq<Index>, name: Name): (r: seq<Index>)
    ensures forall x :: x in r <==> x in indexes && !Named(x, name)
  {
    if indexes == [] then []
    else (if Named(indexes[0], name) then [] else [indexes[0]]) + WithoutName(indexes[1..], name)
  }

  function Drop(db: Database, d: Definition): Database
    requires d.legacy.Some?
  {
    SetIndexes(db, d, WithoutName(IndexesOf(db, d), Default(d.legacy.value)))
  }

  type Outcome = Progress<Database, Failure>

  /** Dropping the legacy index, if there is one. */
  function DropLegacy(db: Database, d: Definition, budget: nat): Outcome {
    if !HasLegacy(db, d) then Progress(db, budget, Finished)
    else if budget == 0 then Progress(db, 0, Stopped)
    else Progress(Drop(db, d), budget - 1, Finished)
  }

  function SwapOne(db: Database, d: Definition, budget: nat): Outcome {
    if HasExact(db, d) then DropLegacy(db, d, budget)
    else if budget == 0 then Progress(db, 0, Stopped)
    else match Create(db, d)
      case Err(f) => Progress(db, budget, Failed(f))
      case Ok(next) =>
        if HasExact(next, d) then DropLegacy(next, d, budget - 1)
        else Progress(next, budget - 1, Failed(NotVerified))
  }

  function SwapAll(db: Database, defs: seq<Definition>, budget: nat): Outcome { Run(SwapOne, db, defs, budget) }

  class Migration {
    var db: Database

    /** One definition: create and verify unless it is exact, then drop what it replaces. */
    method Swap(d: Definition, budget: nat) returns (ending: Ending<Failure>, left: nat)
      modifies this
      ensures SwapOne(old(db), d, budget) == Progress(db, left, ending)
    {
      left := budget;
      if !HasExact(db, d) {
        if left == 0 { return Stopped, 0; }
        match Create(db, d) {
          case Err(failure) => return Failed(failure), left;
          case Ok(next) => db := next;
        }
        left := left - 1;
        if !HasExact(db, d) { return Failed(NotVerified), left; }
      }
      if HasLegacy(db, d) {
        if left == 0 { return Stopped, 0; }
        db := Drop(db, d);
        left := left - 1;
      }
      return Finished, left;
    }

    /** createAndSwapIndexes, stopped once `budget` actions are used up and another one is due. */
    method CreateAndSwap(defs: seq<Definition>, budget: nat) returns (ending: Ending<Failure>)
      modifies this
      ensures db == SwapAll(old(db), defs, budget).state && ending == SwapAll(old(db), defs, budget).ending
    {
      var left, i := budget, 0;
      while i < |defs|
        invariant 0 <= i <= |defs|
        invariant SwapAll(old(db), defs, budget) == SwapAll(db, defs[i..], left)
      {
        ending, left := Swap(defs[i], left);
        assert defs[i..][1..] == defs[i + 1..];
        if ending != Finished { return; }
        i := i + 1;
      }
      return Finished;
    }
  }

  // ---- Every definition stays guarded ----

  predicate LegacyUniqueIndex(x: Index, legacy: Key) {
    Named(x, Default(legacy)) && x.key == legacy && x.unique && x.partial.None?
  }

  predicate HasLegacyUnique(db: Database, d: Definition) {
    d.legacy.Some? && exists x :: x in IndexesOf(db, d) && LegacyUniqueIndex(x, d.legacy.value)
  }

  predicate Guarded(db: Database, d: Definition) { HasExact(db, d) || HasLegacyUnique(db, d) }

  /** Nothing left to do for a definition. */
  predicate Settled(db: Database, d: Definition) { HasExact(db, d) && !HasLegacy(db, d) }

  lemma CreateAdds(db: Database, d: Definition)
    requires Create(db, d).Ok?
    ensures HasExact(Create(db, d).value, d)
    ensures forall x :: x in IndexesOf(db, d) ==> x in IndexesOf(Create(db, d).value, d)
  {
    var after := IndexesOf(Create(db, d).value, d);
    assert after == IndexesOf(db, d) + [NewIndex(d)];
    assert NewIndex(d) in after && ExactIndex(NewIndex(d), d);
  }

  lemma DropSettles(db: Database, d: Definition)
    requires HasExact(db, d) && HasLegacy(db, d)
    ensures Settled(Drop(db, d), d)
  {
    var x :| x in IndexesOf(db, d) && ExactIndex(x, d);
    assert !Named(x, Default(d.legacy.value));
    assert x in IndexesOf(Drop(db, d), d);
  }

  /** One definition's turn: it stays guarded, a finished turn settles it, and no other collection changes. */
  lemma SwapOneMeans(db: Database, d: Definition, budget: nat)
    ensures Guarded(db, d) ==> Guarded(SwapOne(db, d, budget).state, d)
    ensures SwapOne(db, d, budget).ending == Finished ==> Settled(SwapOne(db, d, budget).state, d)
    ensures SwapOne(db, d, budget).state.rows == db.rows
    ensures forall e: Definition :: e.store != d.store ==>
              IndexesOf(SwapOne(db, d, budget).state, e) == IndexesOf(db, e)
  {
    var now := db;
    if !HasExact(db, d) && budget > 0 && Create(db, d).Ok? {
      CreateAdds(db, d);
      now := Create(db, d).value;
    }
    if HasExact(now, d) && HasLegacy(now, d) { DropSettles(now, d); }
  }

  lemma {:induction false} RunLeavesOthers(db: Database, defs: seq<Definition>, budget: nat, e: Definition)
    requires forall i :: 0 <= i < |defs| ==> defs[i].store != e.store
    ensures IndexesOf(SwapAll(db, defs, budget).state, e) == IndexesOf(db, e)
    decreases |defs|
  {
    if defs != [] {
      SwapOneMeans(db, defs[0], budget);
      var p := SwapOne(db, defs[0], budget);
      if p.ending == Finished { RunLeavesOthers(p.state, defs[1..], p.budget, e); }
    }
  }

  /** Wherever the run ends or is stopped, a definition that began with its legacy unique index (or with the
      new one) has one of the two. */
  lemma {:induction false} StaysGuarded(db: Database, defs: seq<Definition>, budget: nat, k: nat)
    requires WellPlanned(defs) && k < |defs| && Guarded(db, defs[k])
    ensures Guarded(SwapAll(db, defs, budget).state, defs[k])
    decreases |defs|
  {
    var p := SwapOne(db, defs[0], budget);
    SwapOneMeans(db, defs[0], budget);
    if p.ending == Finished {
      if k == 0 {
        RunLeavesOthers(p.state, defs[1..], p.budget, defs[0]);
      } else {
        StaysGuarded(p.state, defs[1..], p.budget, k - 1);
      }
    }
  }

  /** The guard in the index's own terms: wherever the run ends or is stopped, a unique index under the new key or
      the legacy one is there for a definition that began with its legacy unique index. */
  lemma StaysUnique(db: Database, defs: seq<Definition>, budget: nat, k: nat)
    requires WellPlanned(defs) && k < |defs| && defs[k].legacy.Some?
    requires exists x :: x in IndexesOf(db, defs[k]) && Named(x, Default(defs[k].legacy.value)) &&
                         x.unique && x.key == defs[k].legacy.value && x.partial.None?
    ensures exists x :: x in IndexesOf(SwapAll(db, defs, budget).state, defs[k]) &&
                        x.unique && x.partial.None? && (x.key == defs[k].key || Some(x.key) == defs[k].legacy)
  {
    var x :| x in IndexesOf(db, defs[k]) && Named(x, Default(defs[k].legacy.value)) &&
             x.unique && x.key == defs[k].legacy.value && x.partial.None?;
    assert LegacyUniqueIndex(x, defs[k].legacy.value);
    StaysGuarded(db, defs, budget, k);
    var after := SwapAll(db, defs, budget).state;
    if HasExact(after, defs[k]) {
      var y :| y in IndexesOf(after, defs[k]) && ExactIndex(y, defs[k]);
    } else {
      var y :| y in IndexesOf(after, defs[k]) && LegacyUniqueIndex(y, defs[k].legacy.value);
    }
  }

  /** A finished run leaves the unique index of every definition, under its own name and key, and none under the
      name of a legacy one. */
  lemma FinishedIsUnique(db: Database, defs: seq<Definition>, budget: nat, k: nat)
    requires WellPlanned(defs) && k < |defs| && SwapAll(db, defs, budget).ending == Finished
    ensures exists x :: x in IndexesOf(SwapAll(db, defs, budget).state, defs[k]) &&
                        x.unique && x.name == Some(defs[k].name) && x.key == defs[k].key && x.partial == defs[k].partial
    ensures defs[k].legacy.Some? ==>
              forall x :: x in IndexesOf(SwapAll(db, defs, budget).state, defs[k]) ==>
                x.name != Some(Default(defs[k].legacy.value))
  {
    FinishedIsSettled(db, defs, budget, k);
    var after := SwapAll(db, defs, budget).state;
    var x :| x in IndexesOf(after, defs[k]) && ExactIndex(x, defs[k]);
  }

  lemma {:induction false} FinishedIsSettled(db: Database, defs: seq<Definition>, budget: nat, k: nat)
    requires WellPlanned(defs) && k < |defs| && SwapAll(db, defs, budget).ending == Finished
    ensures Settled(SwapAll(db, defs, budget).state, defs[k])
    decreases |defs|
  {
    var p := SwapOne(db, defs[0], budget);
    SwapOneMeans(db, defs[0], budget);
    if k == 0 {
      RunLeavesOthers(p.state, defs[1..], p.budget, defs[0]);
      SettledByIndexes(p.state, SwapAll(db, defs, budget).state, defs[0]);
    } else {
      FinishedIsSettled(p.state, defs[1..], p.budget, k - 1);
    }
  }

  // ---- Stopping and running again ----

  predicate Apart(d: Definition, e: Definition) { d.store != e.store }

  lemma SettledTakesNothing(db: Database, d: Definition, budget: nat)
    requires Settled(db, d)
    ensures SwapOne(db, d, budget) == Progress(db, budget, Finished)
  {}

  /** A larger budget lets a stopped turn go on from where it was stopped. */
  lemma ResumeOne(db: Database, d: Definition, n: nat, m: nat)
    requires SwapOne(db, d, n).ending == Stopped
    ensures SwapOne(SwapOne(db, d, n).state, d, m) == SwapOne(db, d, n + m)
  {
    if !HasExact(db, d) && n > 0 && Create(db, d).Ok? { CreateAdds(db, d); }
  }

  /** A turn that was not stopped leaves the rest of a larger budget. */
  lemma SpareOne(db: Database, d: Definition, n: nat, m: nat)
    requires SwapOne(db, d, n).ending != Stopped
    ensures var p := SwapOne(db, d, n); SwapOne(db, d, n + m) == Progress(p.state, p.budget + m, p.ending)
  {}

  lemma SettledByIndexes(a: Database, b: Database, d: Definition)
    requires IndexesOf(a, d) == IndexesOf(b, d) && Settled(a, d)
    ensures Settled(b, d)
  {}

  /** One definition's turn can be resumed, and other collections' turns do not undo it. */
  lemma SwapsAreResumable()
    ensures Resumable(SwapOne, Settled, Apart)
  {
    forall s: Database, d: Definition, n: nat, m: nat
      ensures ResumesAt(SwapOne, s, d, n, m) && SparesAt(SwapOne, s, d, n, m)
    {
      if SwapOne(s, d, n).ending == Stopped { ResumeOne(s, d, n, m); } else { SpareOne(s, d, n, m); }
    }
    forall s: Database, d: Definition, n: nat ensures SettlesAt(SwapOne, Settled, s, d, n) {
      SwapOneMeans(s, d, n);
      if Settled(s, d) { SettledTakesNothing(s, d, n); }
    }
    forall s: Database, d: Definition, e: Definition, n: nat ensures KeepsAt(SwapOne, Settled, Apart, s, d, e, n) {
      SwapOneMeans(s, e, n);
      if Apart(d, e) && Settled(s, d) { SettledByIndexes(s, SwapOne(s, e, n).state, d); }
    }
  }

  lemma WellPlannedIsApart(defs: seq<Definition>)
    requires WellPlanned(defs)
    ensures PairwiseApart(Apart, defs)
  {}

  // ---- A run that is not stopped finishes ----

  /** Nothing stands in the way of a definition: its index is there, or its name and key are free and it
      began with a legacy unique index that the rows obey, or without one over rows that obey the new key. */
  ghost predicate Clear(db: Database, d: Definition) {
    || HasExact(db, d)
    || (&& Free(IndexesOf(db, d), d.name, d.key)
        && (|| (d.legacy.Some? && UniqueRows(RowsOf(db, d), d.legacy.value, None))
            || UniqueRows(RowsOf(db, d), d.key, d.partial)))
  }

  lemma ClearFinishes(db: Database, d: Definition, budget: nat)
    requires Clear(db, d) && budget >= 2
    requires d.legacy.Some? ==> KeyExtends(d.legacy.value, d.key) && d.partial.None?
    ensures SwapOne(db, d, budget).ending == Finished && SwapOne(db, d, budget).budget >= budget - 2
  {
    if !HasExact(db, d) {
      if d.legacy.Some? && UniqueRows(RowsOf(db, d), d.legacy.value, None) {
        LegacyUniqueCannotBlock(RowsOf(db, d), d.legacy.value, d.key);
      }
      CreateAdds(db, d);
    }
  }

  /** Two actions for each definition are enough, and leave every new index in place and no legacy one. */
  lemma {:induction false} ClearRunFinishes(db: Database, defs: seq<Definition>, budget: nat)
    requires WellPlanned(defs) && budget >= 2 * |defs|
    requires forall i :: 0 <= i < |defs| ==> Clear(db, defs[i])
    ensures SwapAll(db, defs, budget).ending == Finished
    ensures forall i :: 0 <= i < |defs| ==> Settled(SwapAll(db, defs, budget).state, defs[i])
    decreases |defs|
  {
    if defs != [] {
      var p := SwapOne(db, defs[0], budget);
      ClearFinishes(db, defs[0], budget);
      SwapOneMeans(db, defs[0], budget);
      forall i | 0 <= i < |defs[1..]| ensures Clear(p.state, defs[1..][i]) {
        assert defs[1..][i] == defs[i + 1];
        assert Clear(db, defs[i + 1]);
      }
      ClearRunFinishes(p.state, defs[1..], p.budget);
      RunLeavesOthers(p.state, defs[1..], p.budget, defs[0]);
      forall i | 0 <= i < |defs| ensures Settled(SwapAll(db, defs, budget).state, defs[i]) {
        if i > 0 { assert defs[1..][i - 1] == defs[i]; }
      }
    }
  }

  lemma SecondRun(db: Database, defs: seq<Definition>, n: nat, m: nat)
    requires WellPlanned(defs) && SwapAll(db, defs, n).ending == Stopped
    ensures SwapAll(SwapAll(db, defs, n).state, defs, m) == SwapAll(db, defs, n + m)
  {
    SwapsAreResumable();
    WellPlannedIsApart(defs);
    Resume(SwapOne, Settled, Apart, db, defs, n, m);
  }

  lemma LargerBudget(db: Database, defs: seq<Definition>, n: nat, m: nat)
    requires SwapAll(db, defs, m).ending == Finished
    ensures SwapAll(db, defs, n + m).ending == Finished && SwapAll(db, defs, n + m).state == SwapAll(db, defs, m).state
  {
    SwapsAreResumable();
    SpareBudget(SwapOne, Settled, Apart, db, defs, m, n);
  }

  /** From any stopping point a second run reaches the same indexes as a run that was never stopped. */
  lemma AnyStopReachesTheSame(db: Database, defs: seq<Definition>, n: nat)
    requires WellPlanned(defs) && forall i :: 0 <= i < |defs| ==> Clear(db, defs[i])
    requires SwapAll(db, defs, n).ending == Stopped
    ensures SwapAll(SwapAll(db, defs, n).state, defs, 2 * |defs|).ending == Finished
    ensures SwapAll(SwapAll(db, defs, n).state, defs, 2 * |defs|).state == SwapAll(db, defs, 2 * |defs|).state
  {
    SecondRun(db, defs, n, 2 * |defs|);
    ClearRunFinishes(db, defs, 2 * |defs|);
    LargerBudget(db, defs, n, 2 * |defs|);
  }
}
