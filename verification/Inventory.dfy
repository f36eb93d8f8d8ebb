/**
 The inventory of retained bulk operations: each raw row is inspected, rows still at work are collected, and
 the summary is given out only when exactly the expected number of rows was read.
 */
module Inventory {
  import opened Wrappers

  const MAX_TOTAL := 5000

  datatype Status = Queued | Processing | Completed | Partial | Failed

  datatype DispatchStatus = Pending | Dispatched | DispatchFailed

  datatype Counters = Counters(total: nat, queued: nat, processing: nat, succeeded: nat, conflict: nat, failed: nat)

  /** A stored row: `None` is a malformed id, an unknown status, or a counter that is no safe integer. */
  datatype RawRow = RawRow(
    id: Option<nat>,
    status: Option<Status>,
    dispatchStatus: Option<DispatchStatus>,
    total: Option<int>,
    queued: Option<int>,
    processing: Option<int>,
    succeeded: Option<int>,
    conflict: Option<int>,
    failed: Option<int>)

  datatype Entry = Entry(operationId: nat, status: Status, dispatchStatus: DispatchStatus, counters: Counters)

  datatype Field = TotalField | QueuedField | ProcessingField | SucceededField | ConflictField | FailedField

  datatype InventoryError =
    | MalformedId
    | MalformedStatus
    | MalformedDispatchStatus
    | MalformedCounter(field: Field)
    | MalformedCounters(id: nat)
    | MalformedStatusCounters(id: nat)
    | Incomplete

  datatype Inspected = Inspected(entry: Entry, unresolved: bool)

  predicate Within(value: Option<int>, maximum: int) { value.Some? && 0 <= value.value <= maximum }

  function Remaining(c: Counters): nat { c.queued + c.processing }

  function Settled(c: Counters): nat { c.succeeded + c.conflict + c.failed }

  predicate StatusFits(status: Status, c: Counters) {
    match status
    case Queued => c.queued == c.total && c.processing == 0 && Settled(c) == 0
    case Processing => Remaining(c) > 0
    case Completed => Remaining(c) == 0 && c.succeeded == c.total && c.conflict == 0 && c.failed == 0
    case Partial => Remaining(c) == 0 && c.succeeded > 0 && c.conflict + c.failed > 0
    case Failed => Remaining(c) == 0 && c.succeeded == 0 && c.conflict + c.failed == c.total
  }

  /** The counters, each within its bound; `id` names the row in the error. */
  function CountersOf(row: RawRow, id: nat): Result<Counters, InventoryError> {
    if !Within(row.total, MAX_TOTAL) then Err(MalformedCounter(TotalField))
    else if row.total.value < 1 then Err(MalformedCounters(id))
    else if !Within(row.queued, row.total.value) then Err(MalformedCounter(QueuedField))
    else if !Within(row.processing, row.total.value) then Err(MalformedCounter(ProcessingField))
    else if !Within(row.succeeded, row.total.value) then Err(MalformedCounter(SucceededField))
    else if !Within(row.conflict, row.total.value) then Err(MalformedCounter(ConflictField))
    else if !Within(row.failed, row.total.value) then Err(MalformedCounter(FailedField))
    else Ok(Counters(row.total.value, row.queued.value, row.processing.value, row.succeeded.value, row.conflict.value,
                     row.failed.value))
  }

  /** The verdict on well-formed fields. */
  function Judge(entry: Entry): Result<Inspected, InventoryError> {
    var c := entry.counters;
    if Remaining(c) + Settled(c) != c.total then Err(MalformedCounters(entry.operationId))
    else if !StatusFits(entry.status, c) then Err(MalformedStatusCounters(entry.operationId))
    else
      Ok(Inspected(entry, entry.status == Queued || entry.status == Processing || Remaining(c) > 0 ||
                   Settled(c) != c.total))
  }

  function Inspect(row: RawRow): Result<Inspected, InventoryError> {
    if row.id.None? then Err(MalformedId)
    else if row.status.None? then Err(MalformedStatus)
    else if row.dispatchStatus.None? then Err(MalformedDispatchStatus)
    else
      match CountersOf(row, row.id.value)
      case Err(e) => Err(e)
      case Ok(c) => Judge(Entry(row.id.value, row.status.value, row.dispatchStatus.value, c))
  }

  predicate AtWork(status: Status) { status == Queued || status == Processing }

  lemma JudgedFits(entry: Entry)
    requires Judge(entry).Ok?
    ensures Judge(entry).value.entry == entry && StatusFits(entry.status, entry.counters)
    ensures Remaining(entry.counters) + Settled(entry.counters) == entry.counters.total
    ensures Judge(entry).value.unresolved <==>
              AtWork(entry.status) || Remaining(entry.counters) > 0 || Settled(entry.counters) != entry.counters.total
  {}

  lemma CountersAreBounded(row: RawRow, id: nat)
    requires CountersOf(row, id).Ok?
    ensures 1 <= CountersOf(row, id).value.total <= MAX_TOTAL
  {}

  lemma AcceptedFits(row: RawRow) returns (entry: Entry)
    requires Inspect(row).Ok?
    ensures Judge(entry) == Inspect(row) && entry == Inspect(row).value.entry && entry.counters.total >= 1
    ensures StatusFits(entry.status, entry.counters) &&
            Remaining(entry.counters) + Settled(entry.counters) == entry.counters.total
  {
    var c := CountersOf(row, row.id.value).value;
    entry := Entry(row.id.value, row.status.value, row.dispatchStatus.value, c);
    CountersAreBounded(row, row.id.value);
    JudgedFits(entry);
  }

  lemma StatusDecides(status: Status, c: Counters)
    requires StatusFits(status, c) && c.total >= 1 && Remaining(c) + Settled(c) == c.total
    ensures AtWork(status) <==> Remaining(c) > 0
  {}

  /** Of an accepted row: it is unresolved exactly when its status is queued or processing, which is exactly
      when something remains to be done. */
  lemma UnresolvedMeansWorkRemains(row: RawRow)
    requires Inspect(row).Ok?
    ensures var i := Inspect(row).value;
            && (i.unresolved <==> AtWork(i.entry.status))
            && (i.unresolved <==> Remaining(i.entry.counters) > 0)
            && (i.unresolved <==> Settled(i.entry.counters) < i.entry.counters.total)
  {
    var entry := AcceptedFits(row);
    JudgedFits(entry);
    StatusDecides(entry.status, entry.counters);
  }

  /** The counters leave no choice of status, except that an operation nobody has started may be called
      queued or processing. */
  lemma CountersDetermineStatus(a: RawRow, b: RawRow)
    requires Inspect(a).Ok? && Inspect(b).Ok?
    requires Inspect(a).value.entry.counters == Inspect(b).value.entry.counters
    ensures var s, t, c :=
              Inspect(a).value.entry.status, Inspect(b).value.entry.status, Inspect(a).value.entry.counters;
            s == t || (AtWork(s) && AtWork(t) && c.queued == c.total)
  {
    var e := AcceptedFits(a);
    var f := AcceptedFits(b);
    SameCountersSameStatus(e.status, f.status, e.counters);
  }

  lemma SameCountersSameStatus(s: Status, t: Status, c: Counters)
    requires StatusFits(s, c) && StatusFits(t, c) && c.total >= 1 && Remaining(c) + Settled(c) == c.total
    ensures s == t || (AtWork(s) && AtWork(t) && c.queued == c.total)
  {}

  /** What a row must hold to be counted: an id, a status, a dispatch status, and counters of 1 to 5000 items, each
      item in one place, that the status allows. */
  ghost predicate WellFormedRow(row: RawRow) {
    && row.id.Some? && row.status.Some? && row.dispatchStatus.Some?
    && row.total.Some? && row.queued.Some? && row.processing.Some?
    && row.succeeded.Some? && row.conflict.Some? && row.failed.Some?
    && 1 <= row.total.value <= 5000
    && row.queued.value >= 0 && row.processing.value >= 0
    && row.succeeded.value >= 0 && row.conflict.value >= 0 && row.failed.value >= 0
    && row.queued.value + row.processing.value + row.succeeded.value + row.conflict.value + row.failed.value
         == row.total.value
    && match row.status.value
       case Queued => row.queued.value == row.total.value
       case Processing => row.queued.value + row.processing.value > 0
       case Completed => row.succeeded.value == row.total.value
       case Partial =>
         row.queued.value + row.processing.value == 0 && 0 < row.succeeded.value < row.total.value
       case Failed => row.conflict.value + row.failed.value == row.total.value
  }

  /** A row is accepted exactly when it is well-formed, and enters the inventory as it is. */
  lemma InspectIff(row: RawRow)
    ensures Inspect(row).Ok? <==> WellFormedRow(row)
    ensures Inspect(row).Ok? ==>
              var e := Inspect(row).value.entry;
              && row.id == Some(e.operationId) && row.status == Some(e.status)
              && row.dispatchStatus == Some(e.dispatchStatus)
              && row.total == Some(e.counters.total)
              && row.queued == Some(e.counters.queued) && row.processing == Some(e.counters.processing)
              && row.succeeded == Some(e.counters.succeeded) && row.conflict == Some(e.counters.conflict)
              && row.failed == Some(e.counters.failed)
  {}

  // ---- The summary ----

  datatype Summary = Summary(retained: nat, unresolved: seq<Entry>, fixForwardRequired: bool)

  ghost predicate AllAccepted(rows: seq<RawRow>) { forall i :: 0 <= i < |rows| ==> Inspect(rows[i]).Ok? }

  function UnresolvedEntries(rows: seq<RawRow>): seq<Entry> {
    if rows == [] then []
    else
      UnresolvedEntries(rows[..|rows| - 1])
      + match Inspect(rows[|rows| - 1])
        case Ok(Inspected(entry, true)) => [entry]
        case _ => []
  }

  ghost predicate SortedById(entries: seq<Entry>) {
    forall i, j :: 0 <= i < j < |entries| ==> entries[i].operationId <= entries[j].operationId
  }

  class Accumulator {
    var retained: nat
    var unresolved: seq<Entry>

    constructor ()
      ensures retained == 0 && unresolved == []
    {
      retained, unresolved := 0, [];
    }

    /** One row: counted, and kept when unresolved; a malformed row changes nothing. */
    method Add(row: RawRow) returns (r: Result<(), InventoryError>)
      modifies this
      ensures r == match Inspect(row) case Ok(_) => Ok(()) case Err(e) => Err(e)
      ensures retained == old(retained) + if r.Ok? then 1 else 0
      ensures unresolved ==
                old(unresolved) + if r.Ok? && Inspect(row).value.unresolved then [Inspect(row).value.entry] else []
    {
      match Inspect(row)
      case Err(e) => return Err(e);
      case Ok(inspected) =>
        retained := retained + 1;
        if inspected.unresolved { unresolved := unresolved + [inspected.entry]; }
        return Ok(());
    }

    /** Sorts what was collected, by id and without losing an entry. */
    method Sort()
      modifies this
      ensures SortedById(unresolved) && multiset(unresolved) == multiset(old(unresolved)) && retained == old(retained)
    {
      ghost var was := unresolved;
      var sorted: seq<Entry>, i := [], 0;
      while i < |unresolved|
        invariant 0 <= i <= |unresolved| && unresolved == was && retained == old(retained)
        invariant SortedById(sorted) && multiset(sorted) == multiset(was[..i])
      {
        InsertSorts(unresolved[i], sorted);
        InsertAdds(unresolved[i], sorted);
        assert was[..i + 1] == was[..i] + [was[i]];
        sorted := Insert(unresolved[i], sorted);
        i := i + 1;
      }
      assert was[..i] == was;
      unresolved := sorted;
    }

    method Finalize(expected: int) returns (r: Result<Summary, InventoryError>)
      modifies this
      ensures r.Ok? <==> old(retained) == expected
      ensures r.Ok? ==>
                && r.value.retained == old(retained)
                && SortedById(r.value.unresolved) && multiset(r.value.unresolved) == multiset(old(unresolved))
                && (r.value.fixForwardRequired <==> old(retained) > 0)
      ensures r.Err? ==> r.error == Incomplete
    {
      if retained != expected { return Err(Incomplete); }
      Sort();
      return Ok(Summary(retained, unresolved, retained > 0));
    }
  }

  function Insert(e: Entry, sorted: seq<Entry>): seq<Entry> {
    if sorted == [] || e.operationId < sorted[0].operationId then [e] + sorted else [sorted[0]] + Insert(e, sorted[1..])
  }

  lemma {:induction false} InsertAdds(e: Entry, sorted: seq<Entry>)
    ensures multiset(Insert(e, sorted)) == multiset(sorted) + multiset{e}
    ensures forall x :: x in Insert(e, sorted) ==> x == e || x in sorted
  {
    if sorted != [] {
      InsertAdds(e, sorted[1..]);
      assert sorted == [sorted[0]] + sorted[1..];
    }
  }

  lemma {:induction false} InsertSorts(e: Entry, sorted: seq<Entry>)
    requires SortedById(sorted)
    ensures SortedById(Insert(e, sorted))
  {
    if sorted != [] && sorted[0].operationId <= e.operationId {
      var rest := sorted[1..];
      var inserted := Insert(e, rest);
      InsertSorts(e, rest);
      InsertAdds(e, rest);
      forall j | 0 <= j < |inserted| ensures sorted[0].operationId <= inserted[j].operationId {
        assert inserted[j] == e || inserted[j] in rest;
      }
    }
  }

  /** A summary is given exactly when every row is well formed and their number is the expected one; it then
      lists every unresolved operation, each as often as it was read, in id order. */
  method Summarize(rows: seq<RawRow>, expected: int) returns (r: Result<Summary, InventoryError>)
    ensures r.Ok? <==> AllAccepted(rows) && |rows| == expected
    ensures r.Ok? ==>
              && r.value.retained == |rows|
              && SortedById(r.value.unresolved)
              && multiset(r.value.unresolved) == multiset(UnresolvedEntries(rows))
              && (r.value.fixForwardRequired <==> rows != [])
  {
    var accumulator := new Accumulator();
    var i := 0;
    while i < |rows|
      invariant 0 <= i <= |rows|
      invariant AllAccepted(rows[..i])
      invariant accumulator.retained == i && accumulator.unresolved == UnresolvedEntries(rows[..i])
    {
      assert rows[..i + 1][..i] == rows[..i];
      var added := accumulator.Add(rows[i]);
      if added.Err? { return Err(added.error); }
      i := i + 1;
    }
    assert rows[..i] == rows;
    r := accumulator.Finalize(expected);
  }
}
