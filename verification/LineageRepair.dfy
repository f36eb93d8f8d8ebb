/**
 The lineage repair as a run against a live database: rewrite the rows, read them again, stamp the global
 marker, read once more, and withdraw the marker when a late writer left a gap, unless a fenced write has
 advanced it.  `Interfere` stands for what other processes commit between two awaits.
 */
module LineageRepair {
  import opened Wrappers
  import opened Seqs
  import opened Lineage

  const MAX_SAFE_INTEGER := 9007199254740991

  const LINEAGE_VERSION := 1

  /** The shared meta document; `None` is a missing field. */
  datatype Meta = Meta(
    version: Option<int>,
    controlWriteSeq: Option<int>,
    ingestWriteSeq: Option<int>,
    repairedAt: Option<int>,
    repairedPostings: nat,
    retainedPostings: nat,
    unknownLineagePostings: nat)

  const NO_META := Meta(None, None, None, None, 0, 0, 0)

  /** What the run counts: rows that break one of the three invariants, or 1 for a marker that is missing. */
  datatype Query = InvalidIds | InvalidEntries | CoverageGaps | MissingMarker

  const QUERIES := {InvalidIds, InvalidEntries, CoverageGaps, MissingMarker}

  datatype Mode = DryRun | Check | Apply

  datatype Outcome =
    | CheckPassed
    | CheckFailed
    | NothingWritten
    | PostingsNotRepaired
    | GenerationsInvalid
    | MarkerWithdrawn
    | Repaired

  /** What the database holds. */
  datatype State = State(rows: seq<Row>, meta: Option<Meta>)

  /** The run's own writes, and what its queries were answered from and at which of the committed states, in order. */
  datatype Event =
    | Answered(query: Query, at: nat, rows: seq<Row>, meta: Option<Meta>)
    | RowsRewritten
    | MarkerStamped(stamped: Meta)
    | WithdrawalTried

  predicate IllFormedIds(row: Row) { !WellFormedIds(row) }

  predicate HasUnknown(row: Row) { FieldMatches(row.sourceIds, UNKNOWN) }

  predicate MarkerReady(meta: Option<Meta>) { meta.Some? && meta.value.version == Some(LINEAGE_VERSION) }

  function Answer(q: Query, rows: seq<Row>, meta: Option<Meta>): nat {
    match q
    case InvalidIds => |Filter(IllFormedIds, rows)|
    case InvalidEntries => |Filter(InvalidProvenance, rows)|
    case CoverageGaps => |Filter(CoverageGap, rows)|
    case MissingMarker => if MarkerReady(meta) then 0 else 1
  }

  predicate Breaks(q: Query, row: Row) {
    match q
    case InvalidIds => IllFormedIds(row)
    case InvalidEntries => InvalidProvenance(row)
    case CoverageGaps => CoverageGap(row)
    case MissingMarker => false
  }

  ghost predicate NoneBreaks(q: Query, rows: seq<Row>) { forall r :: r in rows ==> !Breaks(q, r) }

  ghost predicate Passes(q: Query, rows: seq<Row>, meta: Option<Meta>) {
    NoneBreaks(q, rows) && (q == MissingMarker ==> MarkerReady(meta))
  }

  ghost predicate RowsClean(rows: seq<Row>) { forall r :: r in rows ==> !NeedsRepair(r) }

  ghost predicate Ready(rows: seq<Row>, meta: Option<Meta>) { RowsClean(rows) && MarkerReady(meta) }

  lemma AnswerIsZeroIff(q: Query, rows: seq<Row>, meta: Option<Meta>)
    ensures Answer(q, rows, meta) == 0 <==> Passes(q, rows, meta)
  {
    var offending := match q
      case InvalidIds => Filter(IllFormedIds, rows)
      case InvalidEntries => Filter(InvalidProvenance, rows)
      case CoverageGaps => Filter(CoverageGap, rows)
      case MissingMarker => [];
    forall r | r in rows && Breaks(q, r) ensures r in offending {}
    if |offending| > 0 { assert offending[0] in rows && Breaks(q, offending[0]); }
  }

  /** The three counts are zero exactly when no row would be selected by the repair. */
  lemma CountsAreZeroIff(rows: seq<Row>, meta: Option<Meta>)
    ensures (forall q: Query :: q != MissingMarker ==> Answer(q, rows, meta) == 0) <==> RowsClean(rows)
  {
    forall q: Query ensures Answer(q, rows, meta) == 0 <==> Passes(q, rows, meta) { AnswerIsZeroIff(q, rows, meta); }
    CleanMeansNoneBreaks(rows);
    if RowsClean(rows) {
      forall q: Query | q != MissingMarker ensures Answer(q, rows, meta) == 0 { assert NoneBreaks(q, rows); }
    } else {
      assert !Passes(InvalidIds, rows, meta) || !Passes(InvalidEntries, rows, meta) ||
             !Passes(CoverageGaps, rows, meta);
    }
  }

  lemma CleanMeansNoneBreaks(rows: seq<Row>)
    ensures RowsClean(rows) <==>
              NoneBreaks(InvalidIds, rows) && NoneBreaks(InvalidEntries, rows) && NoneBreaks(CoverageGaps, rows)
  {
    if RowsClean(rows) {
      forall r, q: Query | r in rows ensures !Breaks(q, r) { assert !NeedsRepair(r); }
    }
    if NoneBreaks(InvalidIds, rows) && NoneBreaks(InvalidEntries, rows) && NoneBreaks(CoverageGaps, rows) {
      forall r | r in rows ensures !NeedsRepair(r) {
        assert !Breaks(InvalidIds, r) && !Breaks(InvalidEntries, r) && !Breaks(CoverageGaps, r);
      }
    }
  }

  lemma RepairedRowsAreClean(rows: seq<Row>)
    ensures RowsClean(Map(Repair, rows))
  {
    forall r | r in Map(Repair, rows) ensures !NeedsRepair(r) {
      var i :| 0 <= i < |rows| && Map(Repair, rows)[i] == r;
      RepairMeetsInvariants(rows[i]);
    }
  }

  /** A repaired row counts as of unknown lineage exactly when the sentinel was among its ids, or it had to be
      rewritten and attribution may have been lost. */
  lemma RepairedIsUnknownIff(row: Row)
    ensures HasUnknown(Repair(row)) <==>
              || FieldMatches(Some(List(SafeArray(row.sourceIds))), "__legacy_unknown__")
              || (NeedsRepair(row) && (Text("__legacy_unknown__") in ValidProvenance(row) || Lossy(row)))
  {
    if NeedsRepair(row) {
      RewrittenIds(row);
      assert Canonical(Text(UNKNOWN));
    }
  }

  // ---- The marker ----

  /** `$max: {field: 0}`: a missing field becomes 0, a present one never gets smaller. */
  function RaisedToZero(field: Option<int>): int {
    if field.Some? && field.value > 0 then field.value else 0
  }

  function Stamp(meta: Option<Meta>, now: int, postings: nat, unknown: nat): Meta {
    var m := if meta.Some? then meta.value else NO_META;
    Meta(Some(LINEAGE_VERSION), Some(RaisedToZero(m.controlWriteSeq)), Some(RaisedToZero(m.ingestWriteSeq)),
         Some(now), postings, postings, unknown)
  }

  predicate SafeGenerations(m: Meta) {
    && m.controlWriteSeq.Some? && 0 <= m.controlWriteSeq.value <= MAX_SAFE_INTEGER
    && m.ingestWriteSeq.Some? && 0 <= m.ingestWriteSeq.value < MAX_SAFE_INTEGER
  }

  /** The marker as it stands can be stamped with safe generations. */
  predicate StampsSafely(meta: Option<Meta>) {
    meta.Some? ==>
      && (meta.value.controlWriteSeq.Some? ==> meta.value.controlWriteSeq.value <= MAX_SAFE_INTEGER)
      && (meta.value.ingestWriteSeq.Some? ==> meta.value.ingestWriteSeq.value < MAX_SAFE_INTEGER)
  }

  /** The old marker tells whether the generations will be safe. */
  lemma StampsSafelyIff(meta: Option<Meta>, now: int, postings: nat, unknown: nat)
    ensures SafeGenerations(Stamp(meta, now, postings, unknown)) <==> StampsSafely(meta)
  {}

  /** A marker that the stamp leaves ready with unsafe generations: its ingest generation is used up. */
  lemma UnsafeMarkerIsStamped(now: int, postings: nat, unknown: nat)
    ensures !StampsSafely(Some(USED_UP))
    ensures MarkerReady(Some(Stamp(Some(USED_UP), now, postings, unknown)))
    ensures !SafeGenerations(Stamp(Some(USED_UP), now, postings, unknown))
  {}

  const USED_UP := NO_META.(ingestWriteSeq := Some(MAX_SAFE_INTEGER))

  predicate SameGeneration(a: Meta, b: Meta) {
    a.controlWriteSeq == b.controlWriteSeq && a.ingestWriteSeq == b.ingestWriteSeq
  }

  /** The marker that was stamped is still the one that is ready. */
  predicate StillStamped(meta: Option<Meta>, stamped: Meta) {
    MarkerReady(meta) && SameGeneration(meta.value, stamped) && meta.value.repairedAt == stamped.repairedAt
  }

  /** The compare-and-set that withdraws readiness. */
  function Withdraw(meta: Option<Meta>, stamped: Meta): Option<Meta> {
    if StillStamped(meta, stamped) then Some(meta.value.(version := None)) else meta
  }

  /** Of a generation: the old one, or zero where that is missing or negative. */
  predicate Raised(was: Option<int>, now: Option<int>) {
    && now.Some? && now.value >= 0 && NotLower(was, now)
    && (now == Some(0) || now == was)
  }

  /** The marker says when it was stamped, and over how many postings. */
  predicate Stamped(before: Option<Meta>, after: Option<Meta>, now: int, rows: seq<Row>) {
    && after.Some? && after.value.version == Some(1) && after.value.repairedAt == Some(now)
    && after.value.repairedPostings == after.value.retainedPostings == |rows|
    && after.value.unknownLineagePostings == |Filter(HasUnknown, rows)|
    && Raised(if before.Some? then before.value.controlWriteSeq else None, after.value.controlWriteSeq)
    && Raised(if before.Some? then before.value.ingestWriteSeq else None, after.value.ingestWriteSeq)
  }

  lemma StampIsStamped(before: Option<Meta>, now: int, rows: seq<Row>)
    ensures Stamped(before, Some(Stamp(before, now, |rows|, |Filter(HasUnknown, rows)|)), now, rows)
  {}

  predicate NotLower(a: Option<int>, b: Option<int>) { a.Some? ==> b.Some? && a.value <= b.value }

  /** Neither generation got smaller or went missing. */
  ghost predicate GenerationsKept(a: Option<Meta>, b: Option<Meta>) {
    a.Some? ==>
      && b.Some?
      && NotLower(a.value.controlWriteSeq, b.value.controlWriteSeq)
      && NotLower(a.value.ingestWriteSeq, b.value.ingestWriteSeq)
  }

  /** What fenced transactions of other processes do to the marker: they leave its stamp alone, and change
      nothing of it without advancing a generation. */
  ghost predicate Advanced(a: Option<Meta>, b: Option<Meta>) {
    && a.Some? == b.Some?
    && GenerationsKept(a, b)
    && (a.Some? ==> a.value.version == b.value.version && a.value.repairedAt == b.value.repairedAt)
    && (a.Some? && SameGeneration(a.value, b.value) ==> a == b)
  }

  /** What writers do to the rows once those that bypass the fence are drained. */
  ghost predicate CleanAdded(before: seq<Row>, after: seq<Row>) {
    forall r :: r in after ==> r in before || !NeedsRepair(r)
  }

  // ---- Readings ----

  predicate Complete(counts: map<Query, nat>) { counts.Keys == QUERIES }

  predicate PostingsClean(counts: map<Query, nat>)
    requires Complete(counts)
  {
    counts[InvalidIds] == 0 && counts[InvalidEntries] == 0 && counts[CoverageGaps] == 0
  }

  predicate AllClean(counts: map<Query, nat>)
    requires Complete(counts)
  {
    PostingsClean(counts) && counts[MissingMarker] == 0
  }

  ghost predicate Answers(reading: seq<Event>, q: Query) {
    exists e :: e in reading && e.Answered? && e.query == q
  }

  /** The answers that the counts were taken from. */
  ghost predicate TakenFrom(counts: map<Query, nat>, reading: seq<Event>) {
    && (forall e :: e in reading ==>
          e.Answered? && e.query in counts && counts[e.query] == Answer(e.query, e.rows, e.meta))
    && (forall q :: q in counts ==> Answers(reading, q))
  }

  /** Each of the four queries was answered once. */
  ghost predicate IsReading(reading: seq<Event>) {
    |reading| == 4 && forall q: Query :: Answers(reading, q)
  }

  /** Every query passed on what it was answered from. */
  ghost predicate AllPassed(reading: seq<Event>) {
    IsReading(reading) && forall e :: e in reading ==> e.Answered? && Passes(e.query, e.rows, e.meta)
  }

  ghost predicate PostingsPassed(reading: seq<Event>) {
    && IsReading(reading)
    && forall e :: e in reading && e.Answered? && e.query != MissingMarker ==> Passes(e.query, e.rows, e.meta)
  }

  /** The last that was done is a reading in which every query passed. */
  ghost predicate EndsPassed(log: seq<Event>) { |log| >= 4 && AllPassed(log[|log| - 4..]) }

  predicate Reads(events: seq<Event>) { forall e :: e in events ==> e.Answered? }

  /** What an apply leaves in the log: the rewrite, the verification, the stamp, the last reading, the withdrawal. */
  function Trail(verification: seq<Event>, stamped: Option<Meta>, reading: seq<Event>, withdrawn: bool): seq<Event> {
    [RowsRewritten] + verification
    + (if stamped.Some? then [MarkerStamped(stamped.value)] else []) + reading
    + (if withdrawn then [WithdrawalTried] else [])
  }

  lemma TrailIs(log: seq<Event>, verification: seq<Event>, stamped: Option<Meta>, reading: seq<Event>, withdrawn: bool)
    ensures log + Trail(verification, stamped, reading, withdrawn) ==
              log + [RowsRewritten] + verification
              + (if stamped.Some? then [MarkerStamped(stamped.value)] else []) + reading
              + if withdrawn then [WithdrawalTried] else []
  {
    var mark := if stamped.Some? then [MarkerStamped(stamped.value)] else [];
    var last := if withdrawn then [WithdrawalTried] else [];
    var one := [RowsRewritten] + verification;
    Assoc(log, [RowsRewritten], verification);
    Assoc(log, one, mark);
    Assoc(log, one + mark, reading);
    Assoc(log, one + mark + reading, last);
  }

  /** After a first reading `first` of a log. */
  lemma TrailWrites(log: seq<Event>, first: seq<Event>, trail: seq<Event>)
    requires trail != [] && trail[0] == RowsRewritten
    ensures !Reads((log + first + trail)[|log|..])
  {
    var added := (log + first + trail)[|log|..];
    assert added == first + trail;
    assert added[|first|] == RowsRewritten && added[|first|] in added;
  }

  lemma TrailEnds(log: seq<Event>, verification: seq<Event>, stamped: Option<Meta>, reading: seq<Event>)
    requires AllPassed(reading)
    ensures var all := log + Trail(verification, stamped, reading, false);
            EndsPassed(all) && all[|all| - 4..] == reading
  {
    var all := log + Trail(verification, stamped, reading, false);
    assert all[|all| - 4..] == reading;
  }

  lemma ReadingOnly(log: seq<Event>, reading: seq<Event>)
    requires Reads(reading) && IsReading(reading)
    ensures Reads((log + reading)[|log|..])
    ensures (log + reading)[|log + reading| - 4..] == reading
    ensures AllPassed(reading) ==> EndsPassed(log + reading)
  {
    assert (log + reading)[|log|..] == reading;
  }

  lemma TakenSnoc(counts: map<Query, nat>, reading: seq<Event>, q: Query, at: nat, rows: seq<Row>, meta: Option<Meta>)
    requires TakenFrom(counts, reading) && q !in counts
    ensures TakenFrom(counts[q := Answer(q, rows, meta)], reading + [Answered(q, at, rows, meta)])
  {
    var longer := reading + [Answered(q, at, rows, meta)];
    assert longer[|reading|] in longer;
    forall p | p in counts ensures Answers(longer, p) {
      var e :| e in reading && e.Answered? && e.query == p;
      assert e in longer;
    }
  }

  lemma PassedMeansZero(counts: map<Query, nat>, reading: seq<Event>, q: Query)
    requires TakenFrom(counts, reading) && PostingsPassed(reading) && (q == MissingMarker ==> AllPassed(reading))
    ensures q in counts && counts[q] == 0
  {
    assert Answers(reading, q);
    var e :| e in reading && e.Answered? && e.query == q;
    AnswerIsZeroIff(q, e.rows, e.meta);
  }

  lemma ZeroMeansPassed(counts: map<Query, nat>, reading: seq<Event>, e: Event)
    requires TakenFrom(counts, reading) && e in reading && counts[e.query] == 0
    ensures Passes(e.query, e.rows, e.meta)
  {
    AnswerIsZeroIff(e.query, e.rows, e.meta);
  }

  lemma AllCleanIff(counts: map<Query, nat>, reading: seq<Event>)
    requires Complete(counts) && TakenFrom(counts, reading) && |reading| == 4
    ensures IsReading(reading) && Reads(reading)
    ensures AllClean(counts) <==> AllPassed(reading)
    ensures PostingsClean(counts) <==> PostingsPassed(reading)
  {
    forall q: Query ensures Answers(reading, q) {
      assert q.InvalidIds? || q.InvalidEntries? || q.CoverageGaps? || q.MissingMarker?;
      assert q in QUERIES;
    }
    if AllPassed(reading) {
      forall q | q in QUERIES ensures counts[q] == 0 { PassedMeansZero(counts, reading, q); }
    }
    if PostingsPassed(reading) {
      forall q | q in QUERIES && q != MissingMarker ensures counts[q] == 0 { PassedMeansZero(counts, reading, q); }
    }
    if PostingsClean(counts) {
      forall e | e in reading && e.query != MissingMarker ensures Passes(e.query, e.rows, e.meta) {
        assert e.query in QUERIES;
        ZeroMeansPassed(counts, reading, e);
      }
    }
    if AllClean(counts) {
      forall e | e in reading ensures e.Answered? && Passes(e.query, e.rows, e.meta) {
        assert e.query in QUERIES;
        ZeroMeansPassed(counts, reading, e);
      }
    }
  }

  /** Of the postings no answer so far found a row that breaks an invariant. */
  ghost predicate NoGap(counts: map<Query, nat>) {
    forall q :: q in counts && q != MissingMarker ==> counts[q] == 0
  }

  /** Where an answer found none, there still is none. */
  ghost predicate StillClean(counts: map<Query, nat>, rows: seq<Row>) {
    forall q :: q in counts && q != MissingMarker && counts[q] == 0 ==> NoneBreaks(q, rows)
  }

  lemma NoneBreaksStays(q: Query, before: seq<Row>, after: seq<Row>)
    requires CleanAdded(before, after) && NoneBreaks(q, before)
    ensures NoneBreaks(q, after)
  {
    forall r | r in after ensures !Breaks(q, r) {
      assert r in before || !NeedsRepair(r);
    }
  }

  /** One more answer, taken from rows to which only clean ones have been added. */
  lemma NextAnswer(counts: map<Query, nat>, first: seq<Row>, before: seq<Row>, rows: seq<Row>, meta: Option<Meta>,
                   q: Query)
    requires CleanAdded(first, rows) && CleanAdded(before, rows) && q !in counts
    requires StillClean(counts, before) && (RowsClean(first) ==> NoGap(counts))
    ensures var more := counts[q := Answer(q, rows, meta)]; StillClean(more, rows) && (RowsClean(first) ==> NoGap(more))
  {
    AnswerIsZeroIff(q, rows, meta);
    forall p | p in counts && p != MissingMarker && counts[p] == 0 ensures NoneBreaks(p, rows) {
      NoneBreaksStays(p, before, rows);
    }
    if RowsClean(first) {
      forall r | r in rows ensures !Breaks(q, r) { assert r in first || !NeedsRepair(r); }
    }
  }

  // ---- The database and the run ----

  /** The answer was taken from the state that it names. */
  predicate RecordedAt(past: seq<State>, e: Event) {
    e.Answered? ==> e.at < |past| && past[e.at] == State(e.rows, e.meta)
  }

  ghost predicate Recorded(log: seq<Event>, past: seq<State>) {
    forall e {:trigger RecordedAt(past, e)} :: e in log ==> RecordedAt(past, e)
  }

  lemma LogGrows(log: seq<Event>, past: seq<State>, e: Event)
    requires Recorded(log, past) && RecordedAt(past, e)
    ensures Recorded(log + [e], past)
  {
    forall x | x in log + [e] ensures RecordedAt(past, x) {
      if x in log { assert RecordedAt(past, x); }
    }
  }

  predicate NotBefore(e: Event, first: nat) { e.Answered? ==> first <= e.at }

  /** No answer was taken from a state before the one at `first`. */
  ghost predicate Dated(reading: seq<Event>, first: nat) {
    forall k {:trigger NotBefore(reading[k], first)} :: 0 <= k < |reading| ==> NotBefore(reading[k], first)
  }

  lemma DatedGrows(reading: seq<Event>, first: nat, e: Event)
    requires Dated(reading, first) && NotBefore(e, first)
    ensures Dated(reading + [e], first)
  {
    forall k | 0 <= k < |reading + [e]| ensures NotBefore((reading + [e])[k], first) {
      if k < |reading| { assert NotBefore(reading[k], first); }
    }
  }

  lemma DatedLater(reading: seq<Event>, first: nat, later: nat)
    requires Dated(reading, later) && first <= later
    ensures Dated(reading, first)
  {
    forall k | 0 <= k < |reading| ensures NotBefore(reading[k], first) { assert NotBefore(reading[k], later); }
  }

  class Database {
    var rows: seq<Row>
    var meta: Option<Meta>
    /** Nobody else writes. */
    const alone: bool
    /** Writers that bypass the fence are drained, so that every row somebody else writes is well formed. */
    const drained: bool
    /** No other repair runs, so that only fenced transactions touch the marker. */
    const soleRepair: bool
    ghost var log: seq<Event>
    /** Every state the database has been in, the present one last. */
    ghost var past: seq<State>

    constructor (rows: seq<Row>, meta: Option<Meta>, alone: bool, drained: bool, soleRepair: bool)
      ensures Valid() && this.rows == rows && this.meta == meta && log == []
      ensures this.alone == alone && this.drained == drained && this.soleRepair == soleRepair
    {
      this.rows, this.meta, this.alone, this.drained, this.soleRepair := rows, meta, alone, drained, soleRepair;
      log, past := [], [State(rows, meta)];
    }

    /** What other processes may have made of a state. */
    ghost predicate Meanwhile(a: State, b: State) {
      && (alone ==> a == b)
      && (alone || drained ==> CleanAdded(a.rows, b.rows))
      && (alone || soleRepair ==> Advanced(a.meta, b.meta))
      && GenerationsKept(a.meta, b.meta)
    }

    /** What the run itself may have made of it: all rows repaired, or the marker stamped or withdrawn. */
    ghost predicate OwnWrite(a: State, b: State) {
      || b == State(Map(Repair, a.rows), a.meta)
      || (a.rows == b.rows && GenerationsKept(a.meta, b.meta))
    }

    ghost predicate LinkedAt(past: seq<State>, i: nat)
      requires 0 < i < |past|
    {
      Meanwhile(past[i - 1], past[i]) || OwnWrite(past[i - 1], past[i])
    }

    ghost predicate Linked(past: seq<State>) { past != [] && forall i :: 0 < i < |past| ==> LinkedAt(past, i) }

    /** The past leads here, and every answer was taken from a state in it. */
    ghost predicate Valid()
      reads this
    {
      Linked(past) && past[|past| - 1] == State(rows, meta) && Recorded(log, past)
    }

    lemma PastGrows(past: seq<State>, log: seq<Event>, next: State)
      requires Linked(past) && Recorded(log, past)
      requires Meanwhile(past[|past| - 1], next) || OwnWrite(past[|past| - 1], next)
      ensures Linked(past + [next]) && Recorded(log, past + [next])
    {
      var more := past + [next];
      forall i | 0 < i < |more| ensures LinkedAt(more, i) {
        if i < |past| { assert LinkedAt(past, i); }
      }
      forall e | e in log ensures RecordedAt(more, e) { assert RecordedAt(past, e); }
    }

    /** What may have happened to the database meanwhile. */
    ghost predicate Since(rows0: seq<Row>, meta0: Option<Meta>)
      reads this
    {
      Meanwhile(State(rows0, meta0), State(rows, meta))
    }

    lemma SinceThen(rows0: seq<Row>, meta0: Option<Meta>, rows1: seq<Row>, meta1: Option<Meta>)
      requires Since(rows1, meta1) && Meanwhile(State(rows0, meta0), State(rows1, meta1))
      ensures Since(rows0, meta0)
    {}

    method OtherRows() returns (others: seq<Row>)
      ensures alone ==> others == rows
      ensures drained ==> CleanAdded(rows, others)
    {
      if alone { return rows; }
      var before := rows;
      others := *;
      if drained { others := Filter((r: Row) => r in before || !NeedsRepair(r), others); }
    }

    /** Fenced transactions advance a generation; other repairs stamp the marker, and may withdraw it. */
    method OtherMeta() returns (other: Option<Meta>)
      ensures alone ==> other == meta
      ensures soleRepair ==> Advanced(meta, other)
      ensures GenerationsKept(meta, other)
    {
      other := meta;
      if alone { return; }
      if meta.Some? {
        var control: nat, ingest: nat, retained: nat := *, *, *;
        var m := meta.value;
        if 0 < control && m.controlWriteSeq.Some? {
          other := Some(m.(controlWriteSeq := Some(m.controlWriteSeq.value + control)));
        } else if 0 < ingest && m.ingestWriteSeq.Some? {
          other := Some(m.(ingestWriteSeq := Some(m.ingestWriteSeq.value + ingest), retainedPostings := retained));
        }
      }
      var stamps: bool, withdraws: bool := *, *;
      if stamps && !soleRepair {
        var at: int, postings: nat, unknown: nat := *, *, *;
        var m := Stamp(other, at, postings, unknown);
        other := Some(if withdraws then m.(version := None) else m);
      }
    }

    /** What other processes commit between two awaits. */
    method Interfere()
      requires Valid()
      modifies this`rows, this`meta, this`past
      ensures Valid() && Since(old(rows), old(meta)) && past == old(past) + [State(rows, meta)]
    {
      var others := OtherRows();
      var other := OtherMeta();
      PastGrows(past, log, State(others, other));
      rows, meta := others, other;
      past := past + [State(rows, meta)];
    }

    method RewriteRows()
      requires Valid()
      modifies this
      ensures Valid() && past == old(past) + [State(rows, meta)]
      ensures rows == Map(Repair, old(rows)) && meta == old(meta)
      ensures log == old(log) + [RowsRewritten]
    {
      PastGrows(past, log, State(Map(Repair, rows), meta));
      LogGrows(log, past + [State(Map(Repair, rows), meta)], RowsRewritten);
      rows := Map(Repair, rows);
      log := log + [RowsRewritten];
      past := past + [State(rows, meta)];
    }

    method StampMarker(now: int, postings: nat, unknown: nat) returns (stamped: Meta)
      requires Valid()
      modifies this
      ensures Valid() && past == old(past) + [State(rows, meta)]
      ensures rows == old(rows) && meta == Some(stamped)
      ensures stamped == Stamp(old(meta), now, postings, unknown)
      ensures MarkerReady(meta) && GenerationsKept(old(meta), meta) && StillStamped(meta, stamped)
      ensures log == old(log) + [MarkerStamped(stamped)]
    {
      stamped := Stamp(meta, now, postings, unknown);
      PastGrows(past, log, State(rows, Some(stamped)));
      LogGrows(log, past + [State(rows, Some(stamped))], MarkerStamped(stamped));
      meta := Some(stamped);
      log := log + [MarkerStamped(stamped)];
      past := past + [State(rows, meta)];
    }

    method WithdrawMarker(stamped: Meta)
      requires Valid()
      modifies this
      ensures Valid() && past == old(past) + [State(rows, meta)]
      ensures rows == old(rows) && meta == Withdraw(old(meta), stamped)
      ensures meta ==
                if old(meta).Some? && old(meta).value.version == Some(1)
                   && old(meta).value.controlWriteSeq == stamped.controlWriteSeq
                   && old(meta).value.ingestWriteSeq == stamped.ingestWriteSeq
                   && old(meta).value.repairedAt == stamped.repairedAt
                then Some(old(meta).value.(version := None)) else old(meta)
      ensures GenerationsKept(old(meta), meta) && !StillStamped(meta, stamped)
      ensures !StillStamped(old(meta), stamped) ==> meta == old(meta)
      ensures log == old(log) + [WithdrawalTried]
    {
      PastGrows(past, log, State(rows, Withdraw(meta, stamped)));
      LogGrows(log, past + [State(rows, Withdraw(meta, stamped))], WithdrawalTried);
      meta := Withdraw(meta, stamped);
      log := log + [WithdrawalTried];
      past := past + [State(rows, meta)];
    }

    /** One of the queries in flight is answered. */
    method AnswerNext(q: Query) returns (answer: nat)
      requires Valid()
      modifies this
      ensures Valid() && Since(old(rows), old(meta)) && past == old(past) + [State(rows, meta)]
      ensures log == old(log) + [Answered(q, |old(past)|, rows, meta)]
      ensures answer == Answer(q, rows, meta) && (answer == 0 <==> Passes(q, rows, meta))
    {
      Interfere();
      AnswerIsZeroIff(q, rows, meta);
      answer := Answer(q, rows, meta);
      LogGrows(log, past, Answered(q, |past| - 1, rows, meta));
      log := log + [Answered(q, |past| - 1, rows, meta)];
    }

    /** What the answers so far say of the present state. */
    ghost predicate StillSays(counts: map<Query, nat>, rows0: seq<Row>)
      reads this
    {
      && (alone || drained ==> StillClean(counts, rows) && (RowsClean(rows0) ==> NoGap(counts)))
      && ((alone || soleRepair) && MissingMarker in counts ==> (counts[MissingMarker] == 0 <==> MarkerReady(meta)))
    }

    /** After one more answer to `q`. */
    lemma SaysMore(counts: map<Query, nat>, first: seq<Row>, before: State, q: Query, answer: nat)
      requires Since(before.rows, before.meta) && q !in counts && answer == Answer(q, rows, meta)
      requires alone || drained ==>
                 CleanAdded(first, rows) && StillClean(counts, before.rows) && (RowsClean(first) ==> NoGap(counts))
      requires (alone || soleRepair) && MissingMarker in counts ==>
                 (counts[MissingMarker] == 0 <==> MarkerReady(before.meta))
      ensures StillSays(counts[q := answer], first)
    {
      AnswerIsZeroIff(q, rows, meta);
      if alone || drained { NextAnswer(counts, first, before.rows, rows, meta, q); }
    }

    /** The answer of one query, added to those so far; `first` are the rows at the start of the reading. */
    method AddAnswer(q: Query, counts: map<Query, nat>, ghost reading: seq<Event>, ghost first: seq<Row>)
      returns (more: map<Query, nat>, ghost longer: seq<Event>)
      requires Valid() && q !in counts && TakenFrom(counts, reading) && StillSays(counts, first)
      requires alone || drained ==> CleanAdded(first, rows)
      modifies this
      ensures Valid() && Since(old(rows), old(meta)) && past == old(past) + [State(rows, meta)]
      ensures longer == reading + [Answered(q, |old(past)|, rows, meta)]
      ensures log == old(log) + [Answered(q, |old(past)|, rows, meta)]
      ensures more.Keys == counts.Keys + {q} && TakenFrom(more, longer) && StillSays(more, first)
    {
      ghost var before := State(rows, meta);
      var answer := AnswerNext(q);
      SaysMore(counts, first, before, q, answer);
      TakenSnoc(counts, reading, q, |old(past)|, rows, meta);
      more, longer := counts[q := answer], reading + [Answered(q, |old(past)|, rows, meta)];
    }

    /** The log and the past of a reading that began at `log0`, `past0` and `start`. */
    ghost predicate Reading(reading: seq<Event>, log0: seq<Event>, past0: seq<State>, start: State)
      reads this
    {
      && Valid() && past0 <= past && log == log0 + reading && Dated(reading, |past0|)
      && Since(start.rows, start.meta)
    }

    ghost predicate Halfway(pending: set<Query>, counts: map<Query, nat>, reading: seq<Event>, first: seq<Row>)
      reads this
    {
      && pending <= QUERIES && counts.Keys == QUERIES - pending && |reading| + |pending| == 4
      && TakenFrom(counts, reading) && StillSays(counts, first)
    }

    method AnswerOne(pending: set<Query>, counts: map<Query, nat>, ghost reading: seq<Event>, ghost log0: seq<Event>,
                     ghost past0: seq<State>, ghost start: State)
      returns (left: set<Query>, more: map<Query, nat>, ghost longer: seq<Event>)
      requires pending != {} && Halfway(pending, counts, reading, start.rows) && Reading(reading, log0, past0, start)
      modifies this
      ensures left < pending && Halfway(left, more, longer, start.rows) && Reading(longer, log0, past0, start)
    {
      ghost var before := State(rows, meta);
      var q :| q in pending;
      more, longer := AddAnswer(q, counts, reading, start.rows);
      left := pending - {q};
      SinceThen(start.rows, start.meta, before.rows, before.meta);
      ghost var e := Answered(q, |old(past)|, rows, meta);
      DatedGrows(reading, |past0|, e);
      Assoc(log0, reading, [e]);
    }

    /** The four queries are in flight together: each is answered at a moment of its own, in any order. */
    method AnswerAll() returns (counts: map<Query, nat>, ghost reading: seq<Event>)
      requires Valid()
      modifies this
      ensures Reading(reading, old(log), old(past), State(old(rows), old(meta)))
      ensures Halfway({}, counts, reading, old(rows))
    {
      var pending := QUERIES;
      counts, reading := map[], [];
      while pending != {}
        invariant Halfway(pending, counts, reading, old(rows))
        invariant Reading(reading, old(log), old(past), State(old(rows), old(meta)))
        decreases pending
      {
        pending, counts, reading :=
          AnswerOne(pending, counts, reading, old(log), old(past), State(old(rows), old(meta)));
      }
    }

    method ReadCounts() returns (counts: map<Query, nat>, ghost reading: seq<Event>)
      requires Valid()
      modifies this
      ensures Valid() && old(past) <= past && Dated(reading, |old(past)|)
      ensures Since(old(rows), old(meta))
      ensures Complete(counts) && IsReading(reading) && log == old(log) + reading
      ensures Reads(reading)
      ensures AllClean(counts) <==> AllPassed(reading)
      ensures PostingsClean(counts) <==> PostingsPassed(reading)
      ensures (alone || drained) && PostingsClean(counts) ==> RowsClean(rows)
      ensures (alone || drained) && RowsClean(old(rows)) ==> PostingsClean(counts)
      ensures alone || soleRepair ==> (counts[MissingMarker] == 0 <==> MarkerReady(meta))
    {
      counts, reading := AnswerAll();
      AllCleanIff(counts, reading);
      CleanMeansNoneBreaks(rows);
    }

    /** The two counts of the stamp, each at a moment of its own, and the stamp. */
    method CountAndStamp(now: int) returns (marker: Meta)
      requires Valid()
      modifies this
      ensures Valid() && old(past) <= past && log == old(log) + [MarkerStamped(marker)]
      ensures meta == Some(marker) && MarkerReady(meta) && marker.repairedAt == Some(now)
      ensures GenerationsKept(old(meta), meta)
      ensures alone || drained ==> CleanAdded(old(rows), rows)
      ensures alone ==> rows == old(rows) && marker == Stamp(old(meta), now, |rows|, |Filter(HasUnknown, rows)|)
    {
      Interfere();
      var postings := |rows|;
      ghost var rows1, meta1 := rows, meta;
      Interfere();
      SinceThen(old(rows), old(meta), rows1, meta1);
      var unknown := |Filter(HasUnknown, rows)|;
      rows1, meta1 := rows, meta;
      Interfere();
      SinceThen(old(rows), old(meta), rows1, meta1);
      marker := StampMarker(now, postings, unknown);
    }

    /** Counts the postings, stamps, reads again, and withdraws when that read finds a gap.  What the run
        stamped is then ready no more; with no other repair around, the marker stays ready exactly if a fenced
        write has advanced it since. */
    method StampAndConfirm(now: int) returns (outcome: Outcome, ghost stamped: Meta, ghost reading: seq<Event>)
      requires Valid()
      modifies this
      ensures Valid() && old(past) <= past && Dated(reading, |old(past)|)
      ensures stamped.version == Some(LINEAGE_VERSION) && stamped.repairedAt == Some(now)
      ensures GenerationsKept(old(meta), Some(stamped)) && GenerationsKept(Some(stamped), meta)
      ensures outcome in {Repaired, GenerationsInvalid, MarkerWithdrawn}
      ensures outcome != GenerationsInvalid <==> SafeGenerations(stamped)
      ensures outcome == GenerationsInvalid ==> reading == [] && meta == Some(stamped)
      ensures outcome != GenerationsInvalid ==> IsReading(reading) && (outcome == Repaired <==> AllPassed(reading))
      ensures outcome == Repaired && (alone || drained) ==> RowsClean(rows)
      ensures outcome == Repaired && (alone || soleRepair) ==> MarkerReady(meta)
      ensures outcome == MarkerWithdrawn ==> !StillStamped(meta, stamped)
      ensures outcome == MarkerWithdrawn && (alone || soleRepair) ==>
                (MarkerReady(meta) <==> !SameGeneration(meta.value, stamped))
      ensures log ==
                old(log) + [MarkerStamped(stamped)] + reading
                + if outcome == MarkerWithdrawn then [WithdrawalTried] else []
      ensures (alone || drained) && (alone || soleRepair) && RowsClean(old(rows)) ==> outcome != MarkerWithdrawn
      ensures alone ==>
                && rows == old(rows) && stamped == Stamp(old(meta), now, |rows|, |Filter(HasUnknown, rows)|)
                && (outcome != MarkerWithdrawn ==> meta == Some(stamped))
    {
      var marker := CountAndStamp(now);
      stamped, reading := marker, [];
      if !SafeGenerations(marker) {
        return GenerationsInvalid, stamped, reading;
      }
      var after;
      ghost var past0 := past;
      after, reading := ReadCounts();
      DatedLater(reading, |old(past)|, |past0|);
      if !AllClean(after) {
        Interfere();
        WithdrawMarker(marker);
        return MarkerWithdrawn, stamped, reading;
      }
      return Repaired, stamped, reading;
    }

    /** Rewrites and verifies before anything is stamped: a failed verification leaves the marker alone. */
    method ApplyRepair(now: int)
      returns (outcome: Outcome, ghost stamped: Option<Meta>, ghost verification: seq<Event>, ghost reading: seq<Event>)
      requires Valid()
      modifies this
      ensures Valid() && old(past) <= past && Dated(reading, |old(past)|)
      ensures GenerationsKept(old(meta), meta)
      ensures outcome in {PostingsNotRepaired, Repaired, GenerationsInvalid, MarkerWithdrawn}
      ensures IsReading(verification) && (outcome == PostingsNotRepaired <==> !PostingsPassed(verification))
      ensures stamped.None? <==> outcome == PostingsNotRepaired
      ensures stamped.Some? ==>
                && stamped.value.repairedAt == Some(now)
                && (outcome != GenerationsInvalid <==> SafeGenerations(stamped.value))
      ensures outcome == Repaired ==> AllPassed(reading)
      ensures outcome == Repaired && (alone || drained) ==> RowsClean(rows)
      ensures outcome == Repaired && (alone || soleRepair) ==> MarkerReady(meta)
      ensures outcome == MarkerWithdrawn ==> !AllPassed(reading) && !StillStamped(meta, stamped.value)
      ensures outcome == MarkerWithdrawn && (alone || soleRepair) ==>
                meta.Some? && (MarkerReady(meta) <==> !SameGeneration(meta.value, stamped.value))
      ensures outcome == GenerationsInvalid ==> meta == stamped
      ensures log == old(log) + Trail(verification, stamped, reading, outcome == MarkerWithdrawn)
      ensures alone || drained ==> outcome != PostingsNotRepaired
      ensures alone || (drained && soleRepair) ==> outcome in {Repaired, GenerationsInvalid}
      ensures alone ==>
                && rows == Map(Repair, old(rows))
                && stamped == Some(Stamp(old(meta), now, |rows|, |Filter(HasUnknown, rows)|)) && meta == stamped
                && (outcome == Repaired <==> StampsSafely(old(meta)))
    {
      RepairedRowsAreClean(rows);
      RewriteRows();
      var counts;
      counts, verification := ReadCounts();
      if !PostingsClean(counts) {
        TrailIs(old(log), verification, None, [], false);
        return PostingsNotRepaired, None, verification, [];
      }
      ghost var marker: Meta;
      StampsSafelyIff(meta, now, |rows|, |Filter(HasUnknown, rows)|);
      ghost var past0 := past;
      outcome, marker, reading := StampAndConfirm(now);
      DatedLater(reading, |old(past)|, |past0|);
      stamped := Some(marker);
      TrailIs(old(log), verification, stamped, reading, outcome == MarkerWithdrawn);
    }

    /** The run.  Success means that the last reading found no row to repair and the marker ready, each query
        at a moment of its own; only an apply writes; and whoever writes meanwhile, no generation is ever lowered.
        Once the writers that bypass the fence are drained and no other repair runs, the rows then are clean, the
        marker is ready, and an apply fails in no other way than by unsafe generations. */
    method Run(mode: Mode, now: int) returns (outcome: Outcome)
      requires Valid()
      modifies this
      ensures Valid() && old(past) <= past
      ensures GenerationsKept(old(meta), meta)
      ensures old(log) <= log && (mode != Apply <==> Reads(log[|old(log)|..]))
      ensures mode != Apply <==> outcome in {CheckPassed, CheckFailed, NothingWritten}
      ensures outcome in {CheckPassed, Repaired} ==> EndsPassed(log) && Dated(log[|log| - 4..], |old(past)|)
      ensures outcome in {CheckPassed, Repaired} && (alone || drained) ==> RowsClean(rows)
      ensures outcome in {CheckPassed, Repaired} && (alone || soleRepair) ==> MarkerReady(meta)
      ensures mode == Apply && (alone || (drained && soleRepair)) ==> outcome in {Repaired, GenerationsInvalid}
      ensures alone && mode == Check ==> (outcome == CheckPassed <==> Ready(old(rows), old(meta)))
      ensures alone && mode == Apply ==>
                && rows == Map(Repair, old(rows)) && RowsClean(rows) && MarkerReady(meta)
                && Stamped(old(meta), meta, now, rows)
                && (outcome == Repaired <==> StampsSafely(old(meta)))
    {
      var before, first := ReadCounts();
      match mode
      case Check =>
        ReadingOnly(old(log), first);
        outcome := if AllClean(before) then CheckPassed else CheckFailed;
      case DryRun =>
        ReadingOnly(old(log), first);
        outcome := NothingWritten;
      case Apply =>
        RepairedRowsAreClean(rows);
        ghost var log0, past0 := log, past;
        ghost var stamped, verification, reading;
        outcome, stamped, verification, reading := ApplyRepair(now);
        StampIsStamped(old(meta), now, rows);
        TrailWrites(old(log), first, Trail(verification, stamped, reading, outcome == MarkerWithdrawn));
        if outcome == Repaired {
          TrailEnds(log0, verification, stamped, reading);
          DatedLater(reading, |old(past)|, |past0|);
        }
    }
  }
}
