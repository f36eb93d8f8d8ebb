/**
 The permanent audit history of source control: which histories of one source are valid, and the
 single pass that replays all of them from one cursor.
 */
module AuditHistory {
  import opened Wrappers
  import opened Seqs
  import L = Lineage
  import opened SourceControl

  datatype State = State(enabled: bool, health: Health)

  /** A recorded transition.  `None` is a revision that is not a number, or a state that is not a
      well-formed snapshot. */
  datatype Transition = Transition(
    action: string,
    previousRevision: Option<int>,
    revision: Option<int>,
    from: Option<State>,
    to: Option<State>)

  const REVOKED_STATE := State(false, Revoked)
  const RESTORED_STATE := State(false, Quarantined)

  predicate Odd(revision: int) { revision > 0 && revision % 2 == 1 }

  function ExpectedAction(revision: int): string { if Odd(revision) then "revoke" else "restore" }

  predicate DestinationIsValid(t: Transition)
    requires t.to.Some?
  {
    if t.action == "revoke" then t.to.value == REVOKED_STATE else t.action == "restore" && t.to.value == RESTORED_STATE
  }

  predicate TransitionIsValid(t: Transition, expected: int, previous: Option<Transition>) {
    && t.revision == Some(expected) && t.previousRevision == Some(expected - 1)
    && t.action == ExpectedAction(expected) && t.from.Some? && t.to.Some?
    && !(previous.Some? && previous.value.action == t.action)
    && (t.to.Some? ==> DestinationIsValid(t))
    && (if t.action == "restore" then
          && t.from.Some? && t.from.value == REVOKED_STATE
          && previous.Some? && previous.value.to.Some? && previous.value.to.value == t.from.value
        else if t.action == "revoke" && previous.Some? && previous.value.action == "restore" then
          t.from.Some? && t.from.value.health != Revoked
        else true)
  }

  function Before(history: seq<Transition>, i: nat): Option<Transition>
    requires i <= |history|
  {
    if i == 0 then None else Some(history[i - 1])
  }

  /** How many rows of a history are not valid in their place. */
  function InvalidCount(history: seq<Transition>): (n: nat)
    ensures n <= |history|
  {
    if history == [] then 0
    else
      var last := |history| - 1;
      InvalidCount(history[..last]) + if TransitionIsValid(history[last], last + 1, Before(history, last)) then 0 else 1
  }

  method ValidateAuditHistory(history: seq<Transition>) returns (valid: bool, invalidTransitions: nat)
    ensures invalidTransitions == InvalidCount(history)
    ensures valid <==> Accepts(history)
  {
    invalidTransitions := 0;
    for index := 0 to |history|
      invariant invalidTransitions == InvalidCount(history[..index])
    {
      if !TransitionIsValid(history[index], index + 1, Before(history, index)) {
        invalidTransitions := invalidTransitions + 1;
      }
      assert history[..index + 1][..index] == history[..index];
    }
    assert history[..|history|] == history;
    valid := invalidTransitions == 0;
    ValidIffAccepted(history);
  }

  // ---- The control machine ----

  datatype Control = Untouched | UnderRevoke | Restored | Stuck

  /** One transition of the machine at `revision`: revoke and restore alternate, each recorded with the
      revision it leaves and the one it reaches; a revoke lands in the revoked state, a restore starts
      there and lands in quarantine, and a source restored before is not revoked from `revoked`. */
  function Move(c: Control, revision: nat, t: Transition): Control {
    if t.previousRevision != Some(revision) || t.revision != Some(revision + 1) then Stuck
    else match c
      case Untouched =>
        if t.action == "revoke" && t.from.Some? && t.to == Some(REVOKED_STATE) then UnderRevoke else Stuck
      case UnderRevoke =>
        if t.action == "restore" && t.from == Some(REVOKED_STATE) && t.to == Some(RESTORED_STATE)
        then Restored else Stuck
      case Restored =>
        if t.action == "revoke" && t.from.Some? && t.from.value.health != Revoked && t.to == Some(REVOKED_STATE)
        then UnderRevoke else Stuck
      case Stuck => Stuck
  }

  function After(history: seq<Transition>): Control {
    if history == [] then Untouched
    else Move(After(history[..|history| - 1]), |history| - 1, history[|history| - 1])
  }

  predicate Accepts(history: seq<Transition>) { After(history) != Stuck }

  lemma {:induction false} ValidIffAccepted(history: seq<Transition>)
    ensures InvalidCount(history) == 0 <==> Accepts(history)
    ensures Accepts(history) ==>
              After(history) ==
                (if history == [] then Untouched else if |history| % 2 == 1 then UnderRevoke else Restored)
    ensures Accepts(history) && history != [] ==>
              history[|history| - 1].action == ExpectedAction(|history|) &&
              history[|history| - 1].to == Some(if |history| % 2 == 1 then REVOKED_STATE else RESTORED_STATE)
  {
    if history != [] {
      ValidIffAccepted(history[..|history| - 1]);
    }
  }

  // ---- One pass over all histories ----

  datatype AuditSource = Named(id: string) | Foreign(tag: int)

  datatype AuditRow = AuditRow(
    source: AuditSource,
    operationId: string,
    actor: string,
    reason: string,
    occurredAt: int,
    transition: Transition)

  /** The latest row, the number of rows and the greatest numeric revision of one source's history. */
  datatype Head = Head(id: string, latest: AuditRow, count: nat, maxRevision: Option<int>)

  predicate ControllableSource(s: AuditSource) { s.Named? && s.id != L.UNKNOWN && L.CanonicalText(s.id) }

  function TransitionOf(row: AuditRow): Transition { row.transition }

  function RaiseMax(m: Option<int>, revision: Option<int>): Option<int> {
    if revision == None then m
    else if m == None || m.value < revision.value then revision else m
  }

  function MaxRevision(rows: seq<AuditRow>): Option<int> {
    if rows == [] then None
    else RaiseMax(MaxRevision(rows[..|rows| - 1]), rows[|rows| - 1].transition.revision)
  }

  function SourceOf(g: seq<AuditRow>): AuditSource { if g == [] then Foreign(0) else g[0].source }

  /** Maximal runs of rows with one source, in cursor order. */
  function Groups(rows: seq<AuditRow>): (groups: seq<seq<AuditRow>>)
    ensures rows != [] <==> groups != []
    ensures forall i :: 0 <= i < |groups| ==> groups[i] != []
  {
    if rows == [] then []
    else
      var front, row := Groups(rows[..|rows| - 1]), rows[|rows| - 1];
      if front != [] && SourceOf(front[|front| - 1]) == row.source
      then front[..|front| - 1] + [front[|front| - 1] + [row]]
      else front + [[row]]
  }

  function HeadOf(g: seq<AuditRow>): seq<Head> {
    if g != [] && ControllableSource(SourceOf(g))
    then [Head(SourceOf(g).id, g[|g| - 1], |g|, MaxRevision(g))] else []
  }

  /** A group with a malformed source id counts in full. */
  function InvalidIn(g: seq<AuditRow>): nat {
    if ControllableSource(SourceOf(g)) then InvalidCount(Map(TransitionOf, g)) else |g|
  }

  function HeadsOf(groups: seq<seq<AuditRow>>): seq<Head> {
    if groups == [] then [] else HeadsOf(groups[..|groups| - 1]) + HeadOf(groups[|groups| - 1])
  }

  function InvalidAcross(groups: seq<seq<AuditRow>>): nat {
    if groups == [] then 0 else InvalidAcross(groups[..|groups| - 1]) + InvalidIn(groups[|groups| - 1])
  }

  /** The cursor's variables for the source it is in: latest row, rows, greatest revision, invalid rows. */
  datatype Current = Current(latest: Option<AuditRow>, count: nat, maxRevision: Option<int>, invalid: nat)

  const NO_CURRENT := Current(None, 0, None, 0)

  ghost predicate Tracks(g: seq<AuditRow>, c: Current) {
    && c.latest == (if g == [] then None else Some(g[|g| - 1])) && c.count == |g|
    && c.maxRevision == MaxRevision(g) && c.invalid == InvalidCount(Map(TransitionOf, g))
  }

  function Take(c: Current, row: AuditRow): Current {
    var previous := match c.latest case Some(r) => Some(r.transition) case None => None;
    Current(Some(row), c.count + 1, RaiseMax(c.maxRevision, row.transition.revision),
            c.invalid + if TransitionIsValid(row.transition, c.count + 1, previous) then 0 else 1)
  }

  lemma TakeTracks(g: seq<AuditRow>, c: Current, row: AuditRow)
    requires Tracks(g, c)
    ensures Tracks(g + [row], Take(c, row))
  {
    GroupExtends(g, row);
  }

  /** finishAuditHistory: what the current source adds to the heads and to the invalid total. */
  method FinishAuditHistory(ghost g: seq<AuditRow>, source: AuditSource, c: Current, heads: seq<Head>, invalid: nat)
    returns (heads': seq<Head>, invalid': nat)
    requires Tracks(g, c) && SourceOf(g) == source
    ensures heads' == heads + HeadOf(g) && invalid' == invalid + InvalidIn(g)
  {
    heads', invalid' := heads, invalid;
    if c.latest == None || c.count == 0 { return; }
    if !ControllableSource(source) {
      invalid' := invalid + if c.count > c.invalid then c.count else c.invalid;
    } else {
      heads', invalid' := heads + [Head(source.id, c.latest.value, c.count, c.maxRevision)], invalid + c.invalid;
    }
  }

  /** The cursor loop.  It keeps only the current source's counters and latest row. */
  method ScanAudits(rows: seq<AuditRow>) returns (heads: seq<Head>, invalid: nat)
    ensures heads == HeadsOf(Groups(rows))
    ensures invalid == InvalidAcross(Groups(rows))
  {
    heads, invalid := [], 0;
    if rows == [] { return; }
    var source, current := rows[0].source, NO_CURRENT;
    ghost var done: seq<seq<AuditRow>>, g: seq<AuditRow> := [], [];
    for index := 0 to |rows|
      invariant if index == 0 then g == [] && done == [] else g != [] && SourceOf(g) == source
      invariant Tracks(g, current)
      invariant Groups(rows[..index]) == if index == 0 then [] else done + [g]
      invariant heads == HeadsOf(done) && invalid == InvalidAcross(done)
    {
      var row := rows[index];
      if index > 0 && row.source != source {
        heads, invalid := FinishAuditHistory(g, source, current, heads, invalid);
        DoneExtends(done, g);
        NewGroup(rows, index, done, g);
        done, g, current := done + [g], [], NO_CURRENT;
      } else {
        SameGroup(rows, index, done, g);
      }
      TakeTracks(g, current, row);
      source, current, g := row.source, Take(current, row), g + [row];
    }
    assert rows[..|rows|] == rows;
    DoneExtends(done, g);
    heads, invalid := FinishAuditHistory(g, source, current, heads, invalid);
  }

  lemma DoneExtends(done: seq<seq<AuditRow>>, g: seq<AuditRow>)
    ensures HeadsOf(done + [g]) == HeadsOf(done) + HeadOf(g)
    ensures InvalidAcross(done + [g]) == InvalidAcross(done) + InvalidIn(g)
  {
    assert (done + [g])[..|done|] == done;
  }

  lemma NewGroup(rows: seq<AuditRow>, index: nat, done: seq<seq<AuditRow>>, g: seq<AuditRow>)
    requires index < |rows| && Groups(rows[..index]) == done + [g] && SourceOf(g) != rows[index].source
    ensures Groups(rows[..index + 1]) == done + [g] + [[rows[index]]]
  {
    assert rows[..index + 1][..index] == rows[..index];
  }

  lemma SameGroup(rows: seq<AuditRow>, index: nat, done: seq<seq<AuditRow>>, g: seq<AuditRow>)
    requires index < |rows|
    requires Groups(rows[..index]) == if index == 0 then [] else done + [g]
    requires if index == 0 then g == [] && done == [] else g != [] && SourceOf(g) == rows[index].source
    ensures Groups(rows[..index + 1]) == done + [g + [rows[index]]]
  {
    assert rows[..index + 1][..index] == rows[..index];
    if index == 0 {
      assert [] + [rows[index]] == [rows[index]];
      assert done + [g + [rows[index]]] == [[rows[index]]];
    } else {
      assert (done + [g])[..|done|] == done;
    }
  }

  lemma InvalidSnoc(history: seq<Transition>, t: Transition)
    ensures InvalidCount(history + [t]) ==
              InvalidCount(history) +
              if TransitionIsValid(t, |history| + 1, if history == [] then None else Some(history[|history| - 1]))
              then 0 else 1
  {
    assert (history + [t])[..|history|] == history;
  }

  lemma MaxSnoc(g: seq<AuditRow>, row: AuditRow)
    ensures MaxRevision(g + [row]) == RaiseMax(MaxRevision(g), row.transition.revision)
  {
    assert (g + [row])[..|g|] == g;
  }

  lemma TransitionsSnoc(g: seq<AuditRow>, row: AuditRow, history: seq<Transition>)
    requires history == Map(TransitionOf, g)
    ensures Map(TransitionOf, g + [row]) == history + [row.transition]
    ensures |history| == |g| && (g != [] ==> history[|history| - 1] == g[|g| - 1].transition)
  {}

  lemma GroupExtends(g: seq<AuditRow>, row: AuditRow)
    ensures MaxRevision(g + [row]) == RaiseMax(MaxRevision(g), row.transition.revision)
    ensures InvalidCount(Map(TransitionOf, g + [row])) ==
              InvalidCount(Map(TransitionOf, g)) +
              if TransitionIsValid(row.transition, |g| + 1, if g == [] then None else Some(g[|g| - 1].transition))
              then 0 else 1
  {
    var history := Map(TransitionOf, g);
    MaxSnoc(g, row);
    TransitionsSnoc(g, row, history);
    InvalidSnoc(history, row.transition);
  }

  // ---- The pass is a group-by ----

  /** A cursor sorted by source id: the rows of one source are next to each other. */
  ghost predicate Contiguous(rows: seq<AuditRow>) {
    forall i, j, k :: 0 <= i < j < k < |rows| && rows[i].source == rows[k].source ==> rows[j].source == rows[i].source
  }

  function Of(source: AuditSource, rows: seq<AuditRow>): (r: seq<AuditRow>)
    ensures forall row :: row in r <==> row in rows && row.source == source
  {
    if rows == [] then []
    else Of(source, rows[..|rows| - 1]) + if rows[|rows| - 1].source == source then [rows[|rows| - 1]] else []
  }

  lemma {:induction false} LastGroup(rows: seq<AuditRow>)
    requires rows != []
    ensures var groups := Groups(rows); SourceOf(groups[|groups| - 1]) == rows[|rows| - 1].source
  {}

  /** No row is dropped, duplicated or moved by the grouping. */
  lemma {:induction false} GroupsFlatten(rows: seq<AuditRow>)
    ensures Flatten(Groups(rows)) == rows
  {
    if rows != [] {
      var front, row := rows[..|rows| - 1], rows[|rows| - 1];
      var groups := Groups(front);
      GroupsFlatten(front);
      assert rows == front + [row];
      if groups != [] && SourceOf(groups[|groups| - 1]) == row.source {
        var n := |groups| - 1;
        FlattenConcat(groups[..n], [groups[n]]);
        FlattenConcat(groups[..n], [groups[n] + [row]]);
        assert groups == groups[..n] + [groups[n]];
        assert Flatten([groups[n]]) == groups[n] && Flatten([groups[n] + [row]]) == groups[n] + [row];
      } else {
        FlattenConcat(groups, [[row]]);
        assert Flatten([[row]]) == [row];
      }
    }
  }

  /** Each group is all rows of its source in cursor order, and no two groups share a source. */
  ghost predicate IsGroupBy(groups: seq<seq<AuditRow>>, rows: seq<AuditRow>) {
    && (forall i :: 0 <= i < |groups| ==> groups[i] != [] && groups[i] == Of(SourceOf(groups[i]), rows))
    && (forall i, j :: 0 <= i < j < |groups| ==> SourceOf(groups[i]) != SourceOf(groups[j]))
  }

  /** On a cursor sorted by source the groups are the rows of each source, one group per source. */
  lemma {:induction false} GroupsAreGroupBy(rows: seq<AuditRow>)
    requires Contiguous(rows)
    ensures IsGroupBy(Groups(rows), rows)
  {
    if rows != [] {
      var front := rows[..|rows| - 1];
      var groups := Groups(front);
      ContiguousPrefix(rows);
      GroupsAreGroupBy(front);
      if groups != [] {
        LastGroup(front);
        if SourceOf(groups[|groups| - 1]) == rows[|rows| - 1].source {
          ExtendLastGroup(rows, groups);
          return;
        }
      }
      NewLastGroup(rows, groups);
    }
  }

  lemma ContiguousPrefix(rows: seq<AuditRow>)
    requires rows != [] && Contiguous(rows)
    ensures Contiguous(rows[..|rows| - 1])
  {
    var front := rows[..|rows| - 1];
    forall i, j, k | 0 <= i < j < k < |front| && front[i].source == front[k].source
      ensures front[j].source == front[i].source
    {
      assert rows[i].source == rows[k].source;
    }
  }

  lemma OfAnother(source: AuditSource, rows: seq<AuditRow>)
    requires rows != [] && source != rows[|rows| - 1].source
    ensures Of(source, rows) == Of(source, rows[..|rows| - 1])
  {}

  lemma {:induction false} OfNone(source: AuditSource, rows: seq<AuditRow>)
    requires forall i :: 0 <= i < |rows| ==> rows[i].source != source
    ensures Of(source, rows) == []
  {
    if rows != [] { OfNone(source, rows[..|rows| - 1]); }
  }

  lemma ExtendLastGroup(rows: seq<AuditRow>, groups: seq<seq<AuditRow>>)
    requires rows != [] && IsGroupBy(groups, rows[..|rows| - 1])
    requires groups != [] && SourceOf(groups[|groups| - 1]) == rows[|rows| - 1].source
    ensures IsGroupBy(groups[..|groups| - 1] + [groups[|groups| - 1] + [rows[|rows| - 1]]], rows)
  {
    var n, row := |groups| - 1, rows[|rows| - 1];
    var next := groups[..n] + [groups[n] + [row]];
    forall i | 0 <= i < |groups|
      ensures SourceOf(next[i]) == SourceOf(groups[i]) && next[i] != [] && next[i] == Of(SourceOf(next[i]), rows)
    {
      if i < n { OfAnother(SourceOf(groups[i]), rows); }
    }
  }

  lemma NewLastGroup(rows: seq<AuditRow>, groups: seq<seq<AuditRow>>)
    requires rows != [] && Contiguous(rows) && IsGroupBy(groups, rows[..|rows| - 1])
    requires |rows| > 1 ==> rows[|rows| - 2].source != rows[|rows| - 1].source
    ensures IsGroupBy(groups + [[rows[|rows| - 1]]], rows)
  {
    var last := |rows| - 1;
    var front, row := rows[..last], rows[last];
    var next := groups + [[row]];
    forall i | 0 <= i < last ensures front[i].source != row.source {
      assert front[i] == rows[i] && front[last - 1] == rows[last - 1];
    }
    OfNone(row.source, front);
    forall i | 0 <= i < |groups| ensures SourceOf(groups[i]) != row.source && next[i] == Of(SourceOf(next[i]), rows) {
      assert groups[i][0] in Of(SourceOf(groups[i]), front);
      OfAnother(SourceOf(groups[i]), rows);
    }
  }
}
